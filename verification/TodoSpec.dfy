/**
 The todo list as a value: items in creation order, and what each request does to them.
 */
module TodoSpec {
  import opened Collections

  datatype Item = Item(id: string, text: string, done: bool)

  datatype Op =
    | Create(newId: string, text: string)
    | Update(id: string, text: string, done: bool)
    | Delete(id: string)

  function Ids(items: seq<Item>): seq<string> {
    if items == [] then [] else [items[0].id] + Ids(items[1..])
  }

  predicate Has(items: seq<Item>, id: string) {
    exists i :: 0 <= i < |items| && items[i].id == id
  }

  /** Every item has an id, and no two share one. */
  ghost predicate WellFormed(items: seq<Item>) {
    && (forall i :: 0 <= i < |items| ==> items[i].id != "")
    && (forall i, j :: 0 <= i < j < |items| ==> items[i].id != items[j].id)
  }

  function Replace(items: seq<Item>, id: string, text: string, done: bool): seq<Item> {
    if items == [] then []
    else [if items[0].id == id then Item(id, text, done) else items[0]] + Replace(items[1..], id, text, done)
  }

  function Without(items: seq<Item>, id: string): seq<Item> {
    if items == [] then []
    else (if items[0].id == id then [] else [items[0]]) + Without(items[1..], id)
  }

  function Apply(items: seq<Item>, op: Op): seq<Item> {
    match op
    case Create(newId, text) => items + [Item(newId, text, false)]
    case Update(id, text, done) => Replace(items, id, text, done)
    case Delete(id) => Without(items, id)
  }

  function After(items: seq<Item>, ops: seq<Op>): seq<Item>
    decreases ops
  {
    if ops == [] then items else After(Apply(items, ops[0]), ops[1..])
  }

  /** Loading keeps the first item of each non-empty id, in order. */
  function Load(loaded: seq<Option<Item>>): seq<Item> {
    if loaded == [] then []
    else
      var before, last := Load(loaded[..|loaded| - 1]), loaded[|loaded| - 1];
      if last.None? || last.value.id == "" || Has(before, last.value.id) then before else before + [last.value]
  }

  // ---- The list at one position ----

  lemma WithoutFirst(items: seq<Item>, id: string)
    requires items != []
    ensures Without(items, id)
            == if items[0].id == id then Without(items[1..], id) else [items[0]] + Without(items[1..], id)
  {
  }

  lemma {:induction false} IdsAt(items: seq<Item>)
    ensures |Ids(items)| == |items|
    ensures forall i :: 0 <= i < |items| ==> Ids(items)[i] == items[i].id
  {
    if items != [] {
      IdsAt(items[1..]);
    }
  }

  lemma {:induction false} ReplaceAt(items: seq<Item>, id: string, text: string, done: bool)
    ensures |Replace(items, id, text, done)| == |items|
    ensures forall i :: 0 <= i < |items| ==>
              Replace(items, id, text, done)[i] == if items[i].id == id then Item(id, text, done) else items[i]
  {
    if items != [] {
      ReplaceAt(items[1..], id, text, done);
    }
  }

  lemma {:induction false} WithoutAbsent(items: seq<Item>, id: string)
    requires !Has(items, id)
    ensures Without(items, id) == items
  {
    if items != [] {
      assert items[0].id != id;
      assert !Has(items[1..], id) by {
        assert forall i :: 0 <= i < |items[1..]| ==> items[1..][i] == items[i + 1];
      }
      WithoutAbsent(items[1..], id);
    }
  }

  lemma ReplaceAbsent(items: seq<Item>, id: string, text: string, done: bool)
    requires !Has(items, id)
    ensures Replace(items, id, text, done) == items
  {
    ReplaceAt(items, id, text, done);
  }

  /** Deleting from a list without duplicates takes out the one place where the id stands. */
  lemma {:induction false} WithoutAt(items: seq<Item>, k: nat)
    requires WellFormed(items) && k < |items|
    ensures Without(items, items[k].id) == items[..k] + items[k + 1..]
  {
    assert forall i :: 0 <= i < |items[1..]| ==> items[1..][i] == items[i + 1];
    if k == 0 {
      WithoutAbsent(items[1..], items[0].id);
    } else {
      WithoutAt(items[1..], k - 1);
      assert items[1..][..k - 1] == items[1..k] && items[1..][k..] == items[k + 1..];
      assert items[..k] == [items[0]] + items[1..k];
    }
  }

  // ---- Order ----

  /** Every created id is new: not among the ids ever seen, and not empty. */
  ghost predicate FreshIds(seen: set<string>, ops: seq<Op>)
    decreases ops
  {
    ops == [] ||
    match ops[0]
    case Create(newId, _) => newId != "" && newId !in seen && FreshIds(seen + {newId}, ops[1..])
    case _ => FreshIds(seen, ops[1..])
  }

  function CreatedIds(ops: seq<Op>): seq<string> {
    if ops == [] then []
    else (if ops[0].Create? then [ops[0].newId] else []) + CreatedIds(ops[1..])
  }

  /** The ids that a delete has found in the list. */
  function DeletedIds(items: seq<Item>, ops: seq<Op>): set<string>
    decreases ops
  {
    if ops == [] then {}
    else
      (if ops[0].Delete? && Has(items, ops[0].id) then {ops[0].id} else {})
      + DeletedIds(Apply(items, ops[0]), ops[1..])
  }

  function Survivors(ids: seq<string>, gone: set<string>): seq<string> {
    if ids == [] then [] else (if ids[0] in gone then [] else [ids[0]]) + Survivors(ids[1..], gone)
  }

  lemma {:induction false} SurvivorsAppend(ids: seq<string>, more: seq<string>, gone: set<string>)
    ensures Survivors(ids + more, gone) == Survivors(ids, gone) + Survivors(more, gone)
  {
    if ids == [] {
      assert ids + more == more;
    } else {
      assert (ids + more)[1..] == ids[1..] + more;
      SurvivorsAppend(ids[1..], more, gone);
    }
  }

  lemma {:induction false} SurvivorsTwice(ids: seq<string>, gone: set<string>, more: set<string>)
    ensures Survivors(Survivors(ids, gone), more) == Survivors(ids, gone + more)
  {
    if ids != [] {
      SurvivorsTwice(ids[1..], gone, more);
      SurvivorsAppend(if ids[0] in gone then [] else [ids[0]], Survivors(ids[1..], gone), more);
    }
  }

  lemma {:induction false} SurvivorsUnaffected(ids: seq<string>, id: string, gone: set<string>)
    requires id !in ids
    ensures Survivors(ids, {id} + gone) == Survivors(ids, gone)
  {
    if ids != [] {
      assert ids[0] in ids;
      SurvivorsUnaffected(ids[1..], id, gone);
    }
  }

  lemma {:induction false} IdsAppend(items: seq<Item>, item: Item)
    ensures Ids(items + [item]) == Ids(items) + [item.id]
  {
    IdsAt(items);
    IdsAt(items + [item]);
  }

  lemma {:induction false} IdsWithout(items: seq<Item>, id: string)
    ensures Ids(Without(items, id)) == Survivors(Ids(items), {id})
  {
    if items != [] {
      IdsWithout(items[1..], id);
      WithoutFirst(items, id);
      assert [] + Survivors(Ids(items[1..]), {id}) == Survivors(Ids(items[1..]), {id});
      if items[0].id != id {
        assert Without(items, id)[1..] == Without(items[1..], id);
      }
    }
  }

  lemma IdsReplace(items: seq<Item>, id: string, text: string, done: bool)
    ensures Ids(Replace(items, id, text, done)) == Ids(items)
  {
    ReplaceAt(items, id, text, done);
    IdsAt(items);
    IdsAt(Replace(items, id, text, done));
  }

  lemma {:induction false} CreatedAreFresh(seen: set<string>, ops: seq<Op>)
    requires FreshIds(seen, ops)
    ensures forall id :: id in CreatedIds(ops) ==> id !in seen
    decreases ops
  {
    if ops != [] {
      CreatedAreFresh(if ops[0].Create? then seen + {ops[0].newId} else seen, ops[1..]);
    }
  }

  lemma {:induction false} ReplaceKeepsSeen(items: seq<Item>, id: string, text: string, done: bool, seen: set<string>)
    requires forall item :: item in items ==> item.id in seen
    ensures forall item :: item in Replace(items, id, text, done) ==> item.id in seen
  {
    if items != [] {
      assert items[0] in items;
      ReplaceKeepsSeen(items[1..], id, text, done, seen);
    }
  }

  /**
   After any run, the list holds exactly the ids it started with followed by the created ones, in
   that order, less those that were deleted.
   */
  lemma {:induction false} OrderIsCreationOrder(items: seq<Item>, seen: set<string>, ops: seq<Op>)
    requires FreshIds(seen, ops) && (forall item :: item in items ==> item.id in seen)
    ensures Ids(After(items, ops)) == Survivors(Ids(items) + CreatedIds(ops), DeletedIds(items, ops))
    decreases ops, 0
  {
    if ops == [] {
      assert Ids(items) + CreatedIds(ops) == Ids(items);
      NobodyGone(Ids(items));
    } else {
      StepsCompose(items, ops);
      match ops[0]
      case Create(newId, text) => CreateInOrder(items, newId, text, seen, ops[1..]);
      case Update(id, text, done) => UpdateInOrder(items, id, text, done, seen, ops[1..]);
      case Delete(id) => DeleteInOrder(items, id, seen, ops[1..]);
    }
  }

  lemma StepsCompose(items: seq<Item>, ops: seq<Op>)
    requires ops != []
    ensures var op, rest := ops[0], ops[1..];
            && After(items, ops) == After(Apply(items, op), rest)
            && CreatedIds(ops) == (if op.Create? then [op.newId] + CreatedIds(rest) else CreatedIds(rest))
            && DeletedIds(items, ops)
               == (if op.Delete? && Has(items, op.id) then {op.id} + DeletedIds(Apply(items, op), rest)
                   else DeletedIds(Apply(items, op), rest))
  {
    assert [] + CreatedIds(ops[1..]) == CreatedIds(ops[1..]);
    assert {} + DeletedIds(Apply(items, ops[0]), ops[1..]) == DeletedIds(Apply(items, ops[0]), ops[1..]);
  }

  lemma {:induction false} CreateInOrder(items: seq<Item>, newId: string, text: string, seen: set<string>,
                                         rest: seq<Op>)
    requires FreshIds(seen + {newId}, rest) && (forall item :: item in items ==> item.id in seen)
    ensures var items' := Apply(items, Create(newId, text));
            Ids(After(items', rest)) == Survivors(Ids(items) + ([newId] + CreatedIds(rest)), DeletedIds(items', rest))
    decreases rest, 1
  {
    var items' := Apply(items, Create(newId, text));
    IdsAppend(items, Item(newId, text, false));
    OrderIsCreationOrder(items', seen + {newId}, rest);
    assert Ids(items) + ([newId] + CreatedIds(rest)) == Ids(items') + CreatedIds(rest);
  }

  lemma {:induction false} UpdateInOrder(items: seq<Item>, id: string, text: string, done: bool, seen: set<string>,
                                         rest: seq<Op>)
    requires FreshIds(seen, rest) && (forall item :: item in items ==> item.id in seen)
    ensures var items' := Replace(items, id, text, done);
            Ids(After(items', rest)) == Survivors(Ids(items) + CreatedIds(rest), DeletedIds(items', rest))
    decreases rest, 1
  {
    ReplaceKeepsSeen(items, id, text, done, seen);
    IdsReplace(items, id, text, done);
    OrderIsCreationOrder(Replace(items, id, text, done), seen, rest);
  }

  lemma {:induction false} NobodyGone(ids: seq<string>)
    ensures Survivors(ids, {}) == ids
  {
    if ids != [] {
      NobodyGone(ids[1..]);
    }
  }

  lemma {:induction false} WithoutIsPart(items: seq<Item>, id: string)
    ensures forall item :: item in Without(items, id) <==> item in items && item.id != id
  {
    if items != [] {
      WithoutIsPart(items[1..], id);
      WithoutFirst(items, id);
      assert items == [items[0]] + items[1..];
    }
  }

  lemma {:induction false} DeleteInOrder(items: seq<Item>, id: string, seen: set<string>, rest: seq<Op>)
    requires FreshIds(seen, rest) && (forall item :: item in items ==> item.id in seen)
    ensures var items' := Without(items, id);
            Ids(After(items', rest))
            == Survivors(Ids(items) + CreatedIds(rest),
                         (if Has(items, id) then {id} + DeletedIds(items', rest) else DeletedIds(items', rest)))
    decreases rest, 1
  {
    var items', created := Without(items, id), CreatedIds(rest);
    var gone := DeletedIds(items', rest);
    WithoutIsPart(items, id);
    OrderIsCreationOrder(items', seen, rest);
    if Has(items, id) {
      IdsWithout(items, id);
      CreatedAreFresh(seen, rest);
      SurvivorsAppend(Ids(items'), created, gone);
      SurvivorsAppend(Ids(items), created, {id} + gone);
      SurvivorsTwice(Ids(items), {id}, gone);
      SurvivorsUnaffected(created, id, gone);
    } else {
      WithoutAbsent(items, id);
    }
  }

  // ---- Contents ----

  function Lookup(items: seq<Item>, id: string): Option<Item> {
    if items == [] then None else if items[0].id == id then Some(items[0]) else Lookup(items[1..], id)
  }

  /** What one request means for one id, in a store that remembers nothing else. */
  function ApplyToOne(item: Option<Item>, id: string, op: Op): Option<Item> {
    match op
    case Create(newId, text) => if newId == id then Some(Item(id, text, false)) else item
    case Update(updated, text, done) => if updated == id && item.Some? then Some(Item(id, text, done)) else item
    case Delete(deleted) => if deleted == id then None else item
  }

  function AfterForOne(item: Option<Item>, id: string, ops: seq<Op>): Option<Item>
    decreases ops
  {
    if ops == [] then item else AfterForOne(ApplyToOne(item, id, ops[0]), id, ops[1..])
  }

  lemma {:induction false} LookupAppend(items: seq<Item>, item: Item, id: string)
    ensures Lookup(items + [item], id) ==
              if Lookup(items, id).Some? then Lookup(items, id) else if item.id == id then Some(item) else None
  {
    if items == [] {
      assert items + [item] == [item];
    } else {
      assert (items + [item])[1..] == items[1..] + [item];
      LookupAppend(items[1..], item, id);
    }
  }

  lemma {:induction false} LookupReplace(items: seq<Item>, updated: string, text: string, done: bool, id: string)
    ensures Lookup(Replace(items, updated, text, done), id)
            == ApplyToOne(Lookup(items, id), id, Update(updated, text, done))
  {
    if items != [] {
      LookupReplace(items[1..], updated, text, done, id);
    }
  }

  lemma {:induction false} LookupWithout(items: seq<Item>, deleted: string, id: string)
    ensures Lookup(Without(items, deleted), id) == ApplyToOne(Lookup(items, id), id, Delete(deleted))
  {
    if items != [] {
      LookupWithout(items[1..], deleted, id);
      WithoutFirst(items, deleted);
      if items[0].id != deleted {
        assert Without(items, deleted)[1..] == Without(items[1..], deleted);
      }
    }
  }

  lemma {:induction false} LookupFinds(items: seq<Item>, id: string)
    ensures Lookup(items, id).Some? <==> Has(items, id)
    ensures Lookup(items, id).Some? ==> Lookup(items, id).value in items && Lookup(items, id).value.id == id
  {
    if items != [] {
      LookupFinds(items[1..], id);
      assert forall i :: 0 <= i < |items[1..]| ==> items[1..][i] == items[i + 1];
      if Has(items, id) && items[0].id != id {
        var i :| 0 <= i < |items| && items[i].id == id;
        assert items[1..][i - 1].id == id;
      }
    }
  }

  /** Each id evolves on its own: what the list says of it is what its own requests made of it. */
  lemma {:induction false} EachIdOnItsOwn(items: seq<Item>, seen: set<string>, ops: seq<Op>, id: string)
    requires FreshIds(seen, ops) && (forall item :: item in items ==> item.id in seen)
    ensures Lookup(After(items, ops), id) == AfterForOne(Lookup(items, id), id, ops)
    decreases ops
  {
    if ops != [] {
      var op := ops[0];
      match op
      case Create(newId, text) =>
        LookupAppend(items, Item(newId, text, false), id);
        LookupFinds(items, newId);
        EachIdOnItsOwn(Apply(items, op), seen + {newId}, ops[1..], id);
      case Update(updated, text, done) =>
        ReplaceKeepsSeen(items, updated, text, done, seen);
        LookupReplace(items, updated, text, done, id);
        EachIdOnItsOwn(Apply(items, op), seen, ops[1..], id);
      case Delete(deleted) =>
        WithoutIsPart(items, deleted);
        LookupWithout(items, deleted, id);
        EachIdOnItsOwn(Apply(items, op), seen, ops[1..], id);
    }
  }

  lemma {:induction false} WithoutStaysWellFormed(items: seq<Item>, id: string)
    requires WellFormed(items)
    ensures WellFormed(Without(items, id))
  {
    if items != [] {
      WithoutStaysWellFormed(items[1..], id);
      WithoutIsPart(items[1..], id);
      WithoutFirst(items, id);
      assert forall item :: item in items[1..] ==> item.id != items[0].id;
    }
  }

  /** Ids stay unique and non-empty over every run. */
  lemma {:induction false} RunStaysWellFormed(items: seq<Item>, seen: set<string>, ops: seq<Op>)
    requires WellFormed(items) && FreshIds(seen, ops) && (forall item :: item in items ==> item.id in seen)
    ensures WellFormed(After(items, ops))
    decreases ops
  {
    if ops != [] {
      var op := ops[0];
      match op
      case Create(newId, text) =>
        RunStaysWellFormed(Apply(items, op), seen + {newId}, ops[1..]);
      case Update(id, text, done) =>
        ReplaceAt(items, id, text, done);
        ReplaceKeepsSeen(items, id, text, done, seen);
        RunStaysWellFormed(Apply(items, op), seen, ops[1..]);
      case Delete(id) =>
        WithoutIsPart(items, id);
        WithoutStaysWellFormed(items, id);
        RunStaysWellFormed(Apply(items, op), seen, ops[1..]);
    }
  }

  // ---- Loading ----

  lemma {:induction false} LoadIsWellFormed(loaded: seq<Option<Item>>)
    ensures WellFormed(Load(loaded))
  {
    if loaded != [] {
      LoadIsWellFormed(loaded[..|loaded| - 1]);
    }
  }

  /** The first saved item with an id. */
  function FirstLoaded(loaded: seq<Option<Item>>, id: string): Option<Item> {
    if loaded == [] then None
    else if loaded[0].Some? && loaded[0].value.id == id then loaded[0]
    else FirstLoaded(loaded[1..], id)
  }

  lemma {:induction false} FirstLoadedAppend(loaded: seq<Option<Item>>, last: Option<Item>, id: string)
    ensures FirstLoaded(loaded + [last], id)
            == if FirstLoaded(loaded, id).Some? then FirstLoaded(loaded, id)
               else if last.Some? && last.value.id == id then last else None
  {
    if loaded == [] {
      assert loaded + [last] == [last];
    } else {
      assert (loaded + [last])[1..] == loaded[1..] + [last];
      FirstLoadedAppend(loaded[1..], last, id);
    }
  }

  /** Of several saved items with one id the first is kept, and an item without an id is not. */
  lemma {:induction false} LoadKeepsTheFirst(loaded: seq<Option<Item>>, id: string)
    ensures Lookup(Load(loaded), id) == if id == "" then None else FirstLoaded(loaded, id)
  {
    if loaded != [] {
      var n := |loaded| - 1;
      var before, last := Load(loaded[..n]), loaded[n];
      assert loaded[..n] + [last] == loaded;
      LoadKeepsTheFirst(loaded[..n], id);
      FirstLoadedAppend(loaded[..n], last, id);
      LookupFinds(before, id);
      if last.Some? {
        LookupAppend(before, last.value, id);
      }
    }
  }

  /** Loading keeps the saved order: what more is saved only adds at the end. */
  lemma {:induction false} LoadKeepsOrder(loaded: seq<Option<Item>>, n: nat)
    requires n <= |loaded|
    ensures Load(loaded[..n]) <= Load(loaded)
    decreases |loaded|
  {
    if n < |loaded| {
      var last := |loaded| - 1;
      LoadKeepsOrder(loaded[..last], n);
      assert loaded[..last][..n] == loaded[..n];
    } else {
      assert loaded[..n] == loaded;
    }
  }

  function AsLoaded(items: seq<Item>): seq<Option<Item>> {
    seq(|items|, i requires 0 <= i < |items| => Some(items[i]))
  }

  /** Rebuilding a store from a snapshot of it gives the same items in the same order. */
  lemma {:induction false} ReloadIsIdentity(items: seq<Item>)
    requires WellFormed(items)
    ensures Load(AsLoaded(items)) == items
  {
    if items != [] {
      var n := |items| - 1;
      ReloadIsIdentity(items[..n]);
      assert AsLoaded(items)[..n] == AsLoaded(items[..n]);
      assert !Has(items[..n], items[n].id);
      assert items == items[..n] + [items[n]];
    }
  }
}
