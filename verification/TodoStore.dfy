/**
 The todo server's store: a list of nodes in creation order, and an index from ids to those nodes.
 */
module TodoStore {
  import opened Collections
  import opened TodoSpec

  /** A todo as it is handed to clients and snapshots. */
  class Todo {
    var id: string
    var text: string
    var done: bool

    constructor (id: string, text: string, done: bool)
      ensures this.id == id && this.text == text && this.done == done
    {
      this.id, this.text, this.done := id, text, done;
    }

    function Value(): Item
      reads this
    {
      Item(id, text, done)
    }
  }

  /** A node of the list; an update replaces its value and leaves the node where it is. */
  class Element {
    var value: Todo?

    constructor (value: Todo?)
      ensures this.value == value
    {
      this.value := value;
    }
  }

  /** A saved entry: nothing, or a todo. */
  function ItemOf(todo: Todo?): Option<Item>
    reads todo
  {
    if todo == null then None else Some(todo.Value())
  }

  ghost function Nodes(store: seq<Element>): set<Element> {
    set e | e in store
  }

  ghost function Objects(todos: seq<Todo>): set<Todo> {
    set todo | todo in todos
  }

  /** The nodes are distinct, and each carries its todo. */
  ghost predicate NodesCarry(store: seq<Element>, todos: seq<Todo>)
    reads Nodes(store)
  {
    && |store| == |todos|
    && (forall i, j :: 0 <= i < j < |store| ==> store[i] != store[j])
    && (forall i :: 0 <= i < |store| ==> store[i].value == todos[i])
  }

  ghost predicate TodosSay(todos: seq<Todo>, items: seq<Item>)
    reads Objects(todos)
  {
    |todos| == |items| && forall i :: 0 <= i < |todos| ==> todos[i].Value() == items[i]
  }

  lemma CarryAfterRemove(store: seq<Element>, todos: seq<Todo>, k: nat)
    requires NodesCarry(store, todos) && k < |store|
    ensures NodesCarry(store[..k] + store[k + 1..], todos[..k] + todos[k + 1..])
  {
    var store' := store[..k] + store[k + 1..];
    assert forall i :: 0 <= i < |store'| ==> store'[i] == if i < k then store[i] else store[i + 1];
  }

  lemma SayAfterRemove(todos: seq<Todo>, items: seq<Item>, k: nat)
    requires TodosSay(todos, items) && k < |todos|
    ensures TodosSay(todos[..k] + todos[k + 1..], items[..k] + items[k + 1..])
  {
  }

  lemma SayAfterReplace(todos: seq<Todo>, items: seq<Item>, k: nat, todo: Todo)
    requires TodosSay(todos, items) && k < |todos|
    ensures TodosSay(todos[k := todo], items[k := todo.Value()])
  {
  }

  lemma SayAfterPush(todos: seq<Todo>, items: seq<Item>, todo: Todo)
    requires TodosSay(todos, items)
    ensures TodosSay(todos + [todo], items + [todo.Value()])
  {
  }

  /** Hang another todo on one node; the node stays in its place and the old todo is left as it was. */
  method ReplaceValue(ghost store: seq<Element>, ghost todos: seq<Todo>, ghost k: nat, node: Element, todo: Todo)
    requires NodesCarry(store, todos) && k < |store| && store[k] == node
    modifies node
    ensures node.value == todo
    ensures NodesCarry(store, todos[k := todo])
  {
    node.value := todo;
  }

  /** Unlink one node; the others keep their order. */
  method Unlink(store: seq<Element>, node: Element, ghost k: nat) returns (rest: seq<Element>)
    requires forall i, j :: 0 <= i < j < |store| ==> store[i] != store[j]
    requires k < |store| && store[k] == node
    ensures rest == store[..k] + store[k + 1..]
  {
    var at :| 0 <= at < |store| && store[at] == node;
    assert at == k;
    rest := store[..at] + store[at + 1..];
  }

  /** The index holds exactly the ids in the list, each at its own node. */
  ghost predicate IndexMatches(items: seq<Item>, store: seq<Element>, byId: map<string, Element>)
    requires |items| == |store|
  {
    && (forall i :: 0 <= i < |items| ==> items[i].id in byId && byId[items[i].id] == store[i])
    && (forall id :: id in byId ==> Has(items, id))
  }

  lemma IndexAnswers(items: seq<Item>, store: seq<Element>, byId: map<string, Element>, id: string)
    requires |items| == |store| && IndexMatches(items, store, byId)
    ensures id in byId <==> Has(items, id)
  {
  }

  lemma IndexAfterPush(items: seq<Item>, store: seq<Element>, byId: map<string, Element>, item: Item, node: Element)
    requires |items| == |store| && IndexMatches(items, store, byId) && WellFormed(items)
    requires item.id != "" && item.id !in byId
    ensures IndexMatches(items + [item], store + [node], byId[item.id := node]) && WellFormed(items + [item])
  {
    var items' := items + [item];
    forall id | id in byId[item.id := node]
      ensures Has(items', id)
    {
      if id == item.id {
        assert items'[|items|].id == id;
      } else {
        var i :| 0 <= i < |items| && items[i].id == id;
        assert items'[i].id == id;
      }
    }
  }

  /** Replacing one item by another of the same id is what an update does, and the index still fits. */
  lemma IndexAfterReplace(items: seq<Item>, store: seq<Element>, byId: map<string, Element>, k: nat, item: Item)
    requires |items| == |store| && IndexMatches(items, store, byId) && WellFormed(items)
    requires k < |items| && items[k].id == item.id
    ensures items[k := item] == Replace(items, item.id, item.text, item.done)
    ensures IndexMatches(items[k := item], store, byId) && WellFormed(items[k := item])
  {
    ReplaceAt(items, item.id, item.text, item.done);
    IndexReadsOnlyIds(items, items[k := item], store, byId);
  }

  lemma IndexReadsOnlyIds(items: seq<Item>, items': seq<Item>, store: seq<Element>, byId: map<string, Element>)
    requires |items| == |items'| == |store| && IndexMatches(items, store, byId) && WellFormed(items)
    requires forall i :: 0 <= i < |items| ==> items'[i].id == items[i].id
    ensures IndexMatches(items', store, byId) && WellFormed(items')
  {
    forall id | id in byId
      ensures Has(items', id)
    {
      var i :| 0 <= i < |items| && items[i].id == id;
      assert items'[i].id == id;
    }
  }

  /** Taking out position k moves the later positions down by one. */
  function Kept(k: nat, i: nat): nat {
    if i < k then i else i + 1
  }

  lemma WellFormedAfterRemove(items: seq<Item>, k: nat)
    requires WellFormed(items) && k < |items|
    ensures WellFormed(items[..k] + items[k + 1..])
  {
    var items' := items[..k] + items[k + 1..];
    assert forall i :: 0 <= i < |items'| ==> items'[i] == items[Kept(k, i)];
  }

  lemma HasAfterRemove(items: seq<Item>, k: nat, id: string)
    requires k < |items| && id != items[k].id && Has(items, id)
    ensures Has(items[..k] + items[k + 1..], id)
  {
    var j :| 0 <= j < |items| && items[j].id == id;
    assert (items[..k] + items[k + 1..])[if j < k then j else j - 1] == items[j];
  }

  lemma IndexAfterRemove(items: seq<Item>, store: seq<Element>, byId: map<string, Element>, k: nat)
    requires |items| == |store| && IndexMatches(items, store, byId) && WellFormed(items) && k < |items|
    ensures IndexMatches(items[..k] + items[k + 1..], store[..k] + store[k + 1..], byId - {items[k].id})
  {
    var items', store' := items[..k] + items[k + 1..], store[..k] + store[k + 1..];
    forall id | id in byId - {items[k].id}
      ensures Has(items', id)
    {
      HasAfterRemove(items, k, id);
    }
    forall i | 0 <= i < |items'|
      ensures items'[i].id in byId && items'[i].id != items[k].id && byId[items'[i].id] == store'[i]
    {
      assert items'[i] == items[Kept(k, i)] && store'[i] == store[Kept(k, i)];
    }
  }

  class TodoServer {
    var store: seq<Element>
    var storeById: map<string, Element>
    var persistSignal: bool
    var persistActionLog: string

    /** The todo objects in the list, and what they say. */
    ghost var todos: seq<Todo>
    ghost var items: seq<Item>

    ghost predicate Valid()
      reads `store, `storeById, `todos, `items, Nodes(store), Objects(todos)
    {
      && NodesCarry(store, todos) && TodosSay(todos, items)
      && WellFormed(items) && IndexMatches(items, store, storeById)
    }

    /** The index answers for the list. */
    lemma IndexDecides(id: string)
      requires Valid()
      ensures id in storeById <==> Has(items, id)
    {
      IndexAnswers(items, store, storeById, id);
    }

    /** Start from the todos that were saved, dropping what cannot be indexed. */
    constructor (loaded: seq<Todo?>, ghost saved: seq<Option<Item>>)
      requires |saved| == |loaded| && forall i :: 0 <= i < |loaded| ==> saved[i] == ItemOf(loaded[i])
      ensures Valid() && items == Load(saved)
      ensures !persistSignal && fresh(Nodes(store))
    {
      store, storeById, persistSignal, persistActionLog := [], map[], false, "";
      todos, items := [], [];
      new;
      var n := 0;
      while n < |loaded|
        invariant 0 <= n <= |loaded|
        invariant Valid() && !persistSignal && fresh(Nodes(store))
        invariant items == Load(saved[..n])
        invariant forall i :: 0 <= i < |loaded| ==> saved[i] == ItemOf(loaded[i])
      {
        assert saved[..n + 1][..n] == saved[..n];
        assert saved[n] == ItemOf(loaded[n]);
        var todo := loaded[n];
        if todo != null && todo.id != "" && todo.id !in storeById {
          PushBack(todo);
        }
        n := n + 1;
      }
      assert saved[..|loaded|] == saved;
    }

    /** Append a node, and give it to the index under its todo's id. */
    method LinkNode(id: string, node: Element, ghost todo: Todo, ghost longer: seq<Item>)
      requires Valid() && NodesCarry(store + [node], todos + [todo]) && TodosSay(todos + [todo], longer)
      requires |longer| == |store| + 1 && WellFormed(longer)
               && IndexMatches(longer, store + [node], storeById[id := node])
      modifies this`store, this`storeById, this`todos, this`items
      ensures Valid() && items == longer && store == old(store) + [node]
    {
      store := store + [node];
      storeById := storeById[id := node];
      todos, items := todos + [todo], longer;
    }

    /** Append a todo whose id is new, and index it. */
    method PushBack(todo: Todo)
      requires Valid() && todo.id != "" && todo.id !in storeById
      modifies this`store, this`storeById, this`todos, this`items
      ensures Valid() && items == old(items) + [todo.Value()]
      ensures fresh(Nodes(store) - old(Nodes(store)))
    {
      var node := new Element(todo);
      IndexAfterPush(items, store, storeById, todo.Value(), node);
      SayAfterPush(todos, items, todo);
      LinkNode(todo.id, node, todo, items + [todo.Value()]);
    }

    /** Mark the store dirty; one pending signal is enough. */
    method SignalPersist(action: string)
      requires Valid()
      modifies this`persistSignal, this`persistActionLog
      ensures Valid() && persistSignal && persistActionLog == action
    {
      persistActionLog := action;
      persistSignal := true;
    }

    /** The new id comes from a generator of unique ids. */
    method CreateTodo(newId: string, text: string) returns (todo: Todo)
      requires Valid() && newId != "" && newId !in storeById
      modifies this
      ensures Valid() && items == Apply(old(items), Create(newId, text))
      ensures persistSignal
      ensures fresh(todo) && todo.Value() == Item(newId, text, false)
      ensures fresh(Nodes(store) - old(Nodes(store)))
    {
      todo := new Todo(newId, text, false);
      PushBack(todo);
      SignalPersist("create");
    }

    /** Give the node at one position another todo; the items then are whatever that todo makes of them. */
    method RenewNode(ghost k: nat, node: Element, todo: Todo, ghost renewed: seq<Item>)
      requires Valid() && k < |store| && store[k] == node
      requires TodosSay(todos[k := todo], renewed) && WellFormed(renewed) && IndexMatches(renewed, store, storeById)
      modifies this`todos, this`items, node
      ensures Valid() && items == renewed && node.value == todo
    {
      ReplaceValue(store, todos, k, node, todo);
      todos, items := todos[k := todo], renewed;
    }

    /** The node of an indexed id, and its position in the list. */
    method FindNode(id: string) returns (node: Element, ghost k: nat)
      requires Valid() && id in storeById
      ensures k < |store| && store[k] == node && items[k].id == id && node in Nodes(store)
      ensures node.value != null && node.value.id == id
    {
      node := storeById[id];
      k :| 0 <= k < |store| && items[k].id == id;
    }

    /** A known id gets a new todo object in its old place; the node's previous todo object is left as it was. */
    method RenewTodo(id: string, text: string, done: bool) returns (todo: Todo)
      requires Valid() && id in storeById
      modifies this`todos, this`items, Nodes(store)
      ensures Valid() && items == Replace(old(items), id, text, done)
      ensures fresh(todo) && todo.Value() == Item(id, text, done)
    {
      var node, k := FindNode(id);
      var current := node.value;
      if current == null {
        assert false;  // a node without a todo would be dropped here, and the store not marked dirty
      }
      todo := new Todo(current.id, text, done);
      IndexAfterReplace(items, store, storeById, k, todo.Value());
      SayAfterReplace(todos, items, k, todo);
      RenewNode(k, node, todo, items[k := todo.Value()]);
    }

    method UpdateTodo(id: string, text: string, done: bool) returns (todo: Todo?)
      requires Valid()
      modifies this`persistSignal, this`persistActionLog, this`todos, this`items, Nodes(store)
      ensures Valid() && items == Apply(old(items), Update(id, text, done))
      ensures todo != null <==> Has(old(items), id)
      ensures todo != null ==> fresh(todo) && todo.Value() == Item(id, text, done) && persistSignal
      ensures todo == null ==> persistSignal == old(persistSignal) && items == old(items)
    {
      IndexDecides(id);
      if id !in storeById {
        ReplaceAbsent(items, id, text, done);
        return null;
      }
      todo := RenewTodo(id, text, done);
      SignalPersist("update");
    }

    method DeleteTodo(id: string) returns (success: bool)
      requires Valid()
      modifies this
      ensures Valid() && items == Apply(old(items), Delete(id))
      ensures success <==> Has(old(items), id)
      ensures if success then persistSignal else persistSignal == old(persistSignal) && items == old(items)
      ensures Nodes(store) <= old(Nodes(store))
    {
      IndexDecides(id);
      if id !in storeById {
        WithoutAbsent(items, id);
        return false;
      }
      var node, position := FindNode(id);
      RemoveNode(id, node, position);
      SignalPersist("delete");
      return true;
    }

    /** Unlink a node and take its id out of the index. */
    method RemoveNode(id: string, node: Element, ghost k: nat)
      requires Valid() && k < |store| && store[k] == node && items[k].id == id
      modifies this`store, this`storeById, this`todos, this`items
      ensures Valid() && items == Without(old(items), id)
      ensures Nodes(store) <= old(Nodes(store))
    {
      WithoutAt(items, k);
      WellFormedAfterRemove(items, k);
      IndexAfterRemove(items, store, storeById, k);
      CarryAfterRemove(store, todos, k);
      SayAfterRemove(todos, items, k);
      var rest := Unlink(store, node, k);
      store := rest;
      storeById := storeById - {id};
      todos, items := todos[..k] + todos[k + 1..], items[..k] + items[k + 1..];
    }

    /** Copy the todo references in list order; the todos themselves are shared. */
    method BuildTodosSnapshot() returns (snapshot: seq<Todo>)
      requires Valid()
      ensures snapshot == todos && |snapshot| == |items|
      ensures forall i :: 0 <= i < |snapshot| ==> snapshot[i].Value() == items[i]
    {
      snapshot := [];
      var n := 0;
      while n < |store|
        invariant 0 <= n <= |store| && snapshot == todos[..n]
      {
        var todo := store[n].value;
        if todo != null {
          snapshot := snapshot + [todo];
        }
        n := n + 1;
      }
    }

    /** One request; a create brings an id that its generator has not given out before. */
    method Serve(op: Op)
      requires Valid() && (op.Create? ==> op.newId != "" && !Has(items, op.newId))
      modifies this, Nodes(store)
      ensures Valid() && items == Apply(old(items), op)
      ensures fresh(Nodes(store) - old(Nodes(store)))
    {
      match op {
        case Create(newId, text) =>
          IndexAnswers(items, store, storeById, newId);
          var _ := CreateTodo(newId, text);
        case Update(id, text, done) =>
          var _ := UpdateTodo(id, text, done);
        case Delete(id) =>
          var _ := DeleteTodo(id);
      }
    }

    /**
     Any number of requests. None of them writes to a todo that was there before: whoever holds one,
     in a snapshot or otherwise, goes on reading from it what it said.
     */
    method ServeAll(ops: seq<Op>, ghost seen: set<string>, ghost held: set<Todo>)
      requires Valid() && FreshIds(seen, ops) && forall item :: item in items ==> item.id in seen
      modifies this, Nodes(store)
      ensures Valid() && items == After(old(items), ops)
      ensures forall todo :: todo in held ==> todo.Value() == old(todo.Value())
    {
      var n := 0;
      ghost var known := seen;
      while n < |ops|
        invariant 0 <= n <= |ops| && Valid()
        invariant FreshIds(known, ops[n..]) && forall item :: item in items ==> item.id in known
        invariant After(items, ops[n..]) == After(old(items), ops)
        invariant fresh(Nodes(store) - old(Nodes(store)))
        invariant forall todo :: todo in held ==> todo.Value() == old(todo.Value())
      {
        var op := ops[n];
        assert ops[n..][0] == op && ops[n..][1..] == ops[n + 1..];
        assert op.Create? ==> op.newId !in known;
        ghost var before := items;
        Serve(op);
        SeenAfter(before, op, known);
        known := if op.Create? then known + {op.newId} else known;
        n := n + 1;
      }
    }
  }

  lemma SeenAfter(items: seq<Item>, op: Op, seen: set<string>)
    requires forall item :: item in items ==> item.id in seen
    ensures forall item :: item in Apply(items, op) ==> item.id in if op.Create? then seen + {op.newId} else seen
  {
    match op
    case Create(_, _) =>
    case Update(id, text, done) => ReplaceKeepsSeen(items, id, text, done, seen);
    case Delete(id) => WithoutIsPart(items, id);
  }
}
