/**
 The debouncing worker that saves the todo store. Requests change the store under a write lock and
 leave at most one pending signal; the worker turns signals into snapshots, copied node by node
 under a read lock. The debounce timer may fire at any moment, so the results hold for every delay.
 */
module TodoPersistence {
  import opened Collections
  import opened TodoSpec

  /** Where the holder of the write lock stands. */
  datatype Writer = Free | Holding(op: Op) | Changed(op: Op) | Leaving

  /** What is handed to save: the items, how many changes they include, and the action that is logged. */
  datatype Snapshot = Snapshot(version: nat, items: seq<Item>, action: string)

  datatype Worker = Waiting | Debouncing | WantsSnapshot | Copying(copied: seq<Item>) | Saving(snapshot: Snapshot)

  /** `ops` lists every change that took effect since the store was loaded. */
  datatype State = State(
    loaded: seq<Item>,
    items: seq<Item>,
    ops: seq<Op>,
    writer: Writer,
    readers: nat,
    token: bool,
    action: string,
    worker: Worker,
    saved: seq<Snapshot>)

  function Started(loaded: seq<Item>): State {
    State(loaded, loaded, [], Free, 0, false, "", Waiting, [])
  }

  datatype Action =
    | Lock(op: Op)        // a create, update or delete request gets the write lock
    | Change              // it changes the list and the index, or finds its id missing
    | Signal              // it notes its action and leaves a token unless one is pending
    | Unlock
    | StartListing        // a list request gets a read lock
    | EndListing
    | Wake                // the worker takes the token
    | Rewind              // the worker takes another token and restarts its timer
    | Fire                // the timer runs out
    | LockForCopy
    | CopyOne
    | EndCopy             // the worker reads the action and releases the read lock
    | Save

  /** Updates and deletes of missing ids leave without a signal. */
  predicate TakesEffect(items: seq<Item>, op: Op) {
    match op
    case Create(_, _) => true
    case Update(id, _, _) => Has(items, id)
    case Delete(id) => Has(items, id)
  }

  function NameOf(op: Op): string {
    match op
    case Create(_, _) => "create"
    case Update(_, _, _) => "update"
    case Delete(_) => "delete"
  }

  predicate IsArrival(a: Action) {
    a.Lock? || a.StartListing?
  }

  predicate Enabled(s: State, a: Action) {
    match a
    case Lock(_) => s.writer.Free? && s.readers == 0 && !s.worker.Copying?
    case Change => s.writer.Holding?
    case Signal => s.writer.Changed?
    case Unlock => s.writer.Leaving?
    case StartListing => s.writer.Free?
    case EndListing => s.readers > 0
    case Wake => s.worker.Waiting? && s.token
    case Rewind => s.worker.Debouncing? && s.token
    case Fire => s.worker.Debouncing?
    case LockForCopy => s.worker.WantsSnapshot? && s.writer.Free?
    case CopyOne => s.worker.Copying? && |s.worker.copied| < |s.items|
    case EndCopy => s.worker.Copying? && |s.worker.copied| >= |s.items|
    case Save => s.worker.Saving?
  }

  function Step(s: State, a: Action): State
    requires Enabled(s, a)
  {
    match a
    case Lock(op) => s.(writer := Holding(op))
    case Change =>
      var op := s.writer.op;
      if TakesEffect(s.items, op) then s.(items := Apply(s.items, op), ops := s.ops + [op], writer := Changed(op))
      else s.(writer := Leaving)
    case Signal => s.(action := NameOf(s.writer.op), token := true, writer := Leaving)
    case Unlock => s.(writer := Free)
    case StartListing => s.(readers := s.readers + 1)
    case EndListing => s.(readers := s.readers - 1)
    case Wake => s.(token := false, worker := Debouncing)
    case Rewind => s.(token := false)
    case Fire => s.(worker := WantsSnapshot)
    case LockForCopy => s.(worker := Copying([]))
    case CopyOne => s.(worker := Copying(s.worker.copied + [s.items[|s.worker.copied|]]))
    case EndCopy => s.(worker := Saving(Snapshot(|s.ops|, s.worker.copied, s.action)))
    case Save => s.(saved := s.saved + [s.worker.snapshot], worker := Waiting)
  }

  ghost predicate IsRun(s: State, actions: seq<Action>)
    decreases actions
  {
    actions == [] || (Enabled(s, actions[0]) && IsRun(Step(s, actions[0]), actions[1..]))
  }

  function Reached(s: State, actions: seq<Action>): State
    requires IsRun(s, actions)
    decreases actions
  {
    if actions == [] then s else Reached(Step(s, actions[0]), actions[1..])
  }

  /** The snapshots taken so far, the one being saved included. */
  function Taken(s: State): seq<Snapshot> {
    s.saved + if s.worker.Saving? then [s.worker.snapshot] else []
  }

  function LastVersion(taken: seq<Snapshot>): nat {
    if taken == [] then 0 else taken[|taken| - 1].version
  }

  // ---- What every step keeps ----

  /** Nobody reads while the list changes, and what is copied so far is the front of the list. */
  ghost predicate ReadersExcludeWriters(s: State) {
    && (s.readers > 0 || s.worker.Copying? ==> s.writer.Free?)
    && (s.worker.Copying? ==> s.worker.copied <= s.items)
  }

  /** The store is the loaded list with all changes applied, and the noted action is that of the last one. */
  ghost predicate StoreFollowsOps(s: State) {
    && s.items == After(s.loaded, s.ops)
    && (s.writer.Changed? ==> s.ops != [] && s.ops[|s.ops| - 1] == s.writer.op)
    && (!s.writer.Changed? && s.ops != [] ==> s.action == NameOf(s.ops[|s.ops| - 1]))
  }

  /** A snapshot is the whole store as it stood after some change, named after that change. */
  ghost predicate IsConsistent(snapshot: Snapshot, loaded: seq<Item>, ops: seq<Op>) {
    && 0 < snapshot.version <= |ops|
    && snapshot.items == After(loaded, ops[..snapshot.version])
    && snapshot.action == NameOf(ops[snapshot.version - 1])
  }

  ghost predicate SnapshotsAreConsistent(s: State) {
    forall i :: 0 <= i < |Taken(s)| ==> IsConsistent(Taken(s)[i], s.loaded, s.ops)
  }

  ghost predicate SnapshotsGoForward(s: State) {
    && LastVersion(Taken(s)) <= |s.ops|
    && forall i, j :: 0 <= i < j < |Taken(s)| ==> Taken(s)[i].version <= Taken(s)[j].version
  }

  /** The worker has taken a token and not yet copied the store. */
  predicate SnapshotIsDue(s: State) {
    s.worker.Debouncing? || s.worker.WantsSnapshot? || s.worker.Copying?
  }

  /**
   A change that no snapshot includes has left a token, or the worker is on its way, or its request is
   about to signal.
   */
  ghost predicate NothingForgotten(s: State) {
    LastVersion(Taken(s)) < |s.ops| ==> s.token || SnapshotIsDue(s) || s.writer.Changed?
  }

  /** Each snapshot, taken or due, uses up a change of its own. */
  ghost predicate SavesArePaidFor(s: State) {
    |Taken(s)| + AsCount(SnapshotIsDue(s)) + AsCount(s.token) + AsCount(s.writer.Changed?) <= |s.ops|
  }

  ghost predicate Inv(s: State) {
    && ReadersExcludeWriters(s) && StoreFollowsOps(s)
    && SnapshotsAreConsistent(s) && SnapshotsGoForward(s)
    && NothingForgotten(s) && SavesArePaidFor(s)
  }

  lemma {:induction false} AfterOneMore(items: seq<Item>, ops: seq<Op>, op: Op)
    ensures After(items, ops + [op]) == Apply(After(items, ops), op)
    decreases ops
  {
    if ops == [] {
      assert [op][1..] == [];
      assert ops + [op] == [op];
    } else {
      assert (ops + [op])[1..] == ops[1..] + [op];
      AfterOneMore(Apply(items, ops[0]), ops[1..], op);
    }
  }

  lemma StepKeepsLocks(s: State, a: Action)
    requires Enabled(s, a) && ReadersExcludeWriters(s)
    ensures ReadersExcludeWriters(Step(s, a))
  {
  }

  lemma ChangeFollowsOps(s: State)
    requires Enabled(s, Change) && StoreFollowsOps(s)
    ensures StoreFollowsOps(Step(s, Change))
  {
    AfterOneMore(s.loaded, s.ops, s.writer.op);
  }

  lemma StepFollowsOps(s: State, a: Action)
    requires Enabled(s, a) && StoreFollowsOps(s)
    ensures StoreFollowsOps(Step(s, a))
  {
    if a.Change? {
      ChangeFollowsOps(s);
    }
  }

  /** Which snapshots a step adds, and which changes. */
  lemma StepExtends(s: State, a: Action)
    requires Enabled(s, a)
    ensures var s' := Step(s, a);
            && s'.loaded == s.loaded && s.ops <= s'.ops
            && (if a.EndCopy? then Taken(s') == Taken(s) + [s'.worker.snapshot] else Taken(s') == Taken(s))
  {
    if a.EndCopy? {
      assert s.saved + [] == s.saved;
    }
  }

  lemma ConsistentLater(snapshot: Snapshot, loaded: seq<Item>, ops: seq<Op>, ops': seq<Op>)
    requires IsConsistent(snapshot, loaded, ops) && ops <= ops'
    ensures IsConsistent(snapshot, loaded, ops')
  {
    assert ops'[..snapshot.version] == ops[..snapshot.version];
  }

  lemma NewSnapshotIsConsistent(s: State)
    requires Enabled(s, EndCopy) && ReadersExcludeWriters(s) && StoreFollowsOps(s) && s.ops != []
    ensures IsConsistent(Step(s, EndCopy).worker.snapshot, s.loaded, s.ops)
  {
    assert s.ops[..|s.ops|] == s.ops;
  }

  lemma StepKeepsSnapshots(s: State, a: Action)
    requires Enabled(s, a) && Inv(s)
    ensures SnapshotsAreConsistent(Step(s, a)) && SnapshotsGoForward(Step(s, a))
  {
    var s' := Step(s, a);
    StepExtends(s, a);
    if a.EndCopy? {
      NewSnapshotIsConsistent(s);
      VersionsAreBounded(s);
    }
    forall i | 0 <= i < |Taken(s')|
      ensures IsConsistent(Taken(s')[i], s'.loaded, s'.ops)
    {
      if i < |Taken(s)| {
        assert Taken(s')[i] == Taken(s)[i];
        ConsistentLater(Taken(s)[i], s.loaded, s.ops, s'.ops);
      }
    }
  }

  lemma VersionsAreBounded(s: State)
    requires SnapshotsAreConsistent(s)
    ensures forall i :: 0 <= i < |Taken(s)| ==> Taken(s)[i].version <= |s.ops|
  {
    assert forall i :: 0 <= i < |Taken(s)| ==> IsConsistent(Taken(s)[i], s.loaded, s.ops);
  }

  lemma StepForgetsNothing(s: State, a: Action)
    requires Enabled(s, a) && Inv(s)
    ensures NothingForgotten(Step(s, a)) && SavesArePaidFor(Step(s, a))
  {
    StepExtends(s, a);
  }

  lemma StepKeepsInv(s: State, a: Action)
    requires Enabled(s, a) && Inv(s)
    ensures Inv(Step(s, a))
  {
    StepKeepsLocks(s, a);
    StepFollowsOps(s, a);
    StepKeepsSnapshots(s, a);
    StepForgetsNothing(s, a);
  }

  lemma {:induction false} RunKeepsInv(s: State, actions: seq<Action>)
    requires IsRun(s, actions) && Inv(s)
    ensures Inv(Reached(s, actions))
    decreases actions
  {
    if actions != [] {
      StepKeepsInv(s, actions[0]);
      RunKeepsInv(Step(s, actions[0]), actions[1..]);
    }
  }

  // ---- What the requests asked for ----

  /** The request that a step carries out. */
  function CarriedOut(s: State, a: Action): seq<Op> {
    if a.Change? && s.writer.Holding? then [s.writer.op] else []
  }

  /** Every request that was carried out on a run, in order, whether or not it found its id. */
  function Requested(s: State, actions: seq<Action>): seq<Op>
    requires IsRun(s, actions)
    decreases actions
  {
    if actions == [] then [] else CarriedOut(s, actions[0]) + Requested(Step(s, actions[0]), actions[1..])
  }

  predicate FindsItsId(items: seq<Item>, op: Op) {
    op.Create? || Has(items, op.id)
  }

  /** Those of them that created something or found their id. */
  function Found(s: State, actions: seq<Action>): seq<Op>
    requires IsRun(s, actions)
    decreases actions
  {
    if actions == [] then []
    else
      (if CarriedOut(s, actions[0]) != [] && FindsItsId(s.items, s.writer.op) then [s.writer.op] else [])
      + Found(Step(s, actions[0]), actions[1..])
  }

  lemma MissingIdChangesNothing(items: seq<Item>, op: Op)
    requires !FindsItsId(items, op)
    ensures Apply(items, op) == items
  {
    match op
    case Update(id, text, done) => ReplaceAbsent(items, id, text, done);
    case Delete(id) => WithoutAbsent(items, id);
  }

  lemma StepCarriesOut(s: State, a: Action)
    requires Enabled(s, a)
    ensures Step(s, a).items == (if a.Change? then Apply(s.items, s.writer.op) else s.items)
    ensures Step(s, a).ops == (if a.Change? && FindsItsId(s.items, s.writer.op) then s.ops + [s.writer.op] else s.ops)
  {
    if a.Change? && !FindsItsId(s.items, s.writer.op) {
      MissingIdChangesNothing(s.items, s.writer.op);
    }
  }

  /** The store is what the requests ask for, all of them in order. */
  lemma {:induction false} StoreFollowsRequests(s: State, actions: seq<Action>)
    requires IsRun(s, actions)
    ensures Reached(s, actions).items == After(s.items, Requested(s, actions))
    decreases actions
  {
    if actions != [] {
      var a, s' := actions[0], Step(s, actions[0]);
      StepCarriesOut(s, a);
      StoreFollowsRequests(s', actions[1..]);
      AfterAtMostOne(s.items, CarriedOut(s, a), Requested(s', actions[1..]));
    }
  }

  lemma {:induction false} OpsAreThoseFound(s: State, actions: seq<Action>)
    requires IsRun(s, actions)
    ensures Reached(s, actions).ops == s.ops + Found(s, actions)
    decreases actions
  {
    if actions != [] {
      StepCarriesOut(s, actions[0]);
      OpsAreThoseFound(Step(s, actions[0]), actions[1..]);
    }
  }

  /** What the first few requests that found their ids make of the store is what the first few requests make of it. */
  lemma {:induction false} FoundArePrefixes(s: State, actions: seq<Action>, v: nat) returns (k: nat)
    requires IsRun(s, actions) && v <= |Found(s, actions)|
    ensures k <= |Requested(s, actions)|
    ensures After(s.items, Requested(s, actions)[..k]) == After(s.items, Found(s, actions)[..v])
    decreases actions
  {
    if v == 0 {
      k := 0;
    } else {
      var a, s' := actions[0], Step(s, actions[0]);
      var carried, rest := CarriedOut(s, a), Requested(s', actions[1..]);
      var found := if carried != [] && FindsItsId(s.items, s.writer.op) then carried else [];
      StepCarriesOut(s, a);
      var k' := FoundArePrefixes(s', actions[1..], v - |found|);
      k := k' + |carried|;
      assert Requested(s, actions)[..k] == carried + rest[..k'];
      assert Found(s, actions)[..v] == found + Found(s', actions[1..])[..v - |found|];
      AfterAtMostOne(s.items, carried, rest[..k']);
      AfterAtMostOne(s.items, found, Found(s', actions[1..])[..v - |found|]);
    }
  }

  lemma AfterAtMostOne(items: seq<Item>, first: seq<Op>, rest: seq<Op>)
    requires |first| <= 1
    ensures After(items, first + rest) == After(if first == [] then items else Apply(items, first[0]), rest)
  {
    if first == [] {
      assert first + rest == rest;
    } else {
      assert (first + rest)[1..] == rest;
    }
  }

  // ---- What holds in every reachable state ----

  /** What was last handed to the worker to save, or was loaded. */
  function LastItems(s: State): seq<Item> {
    var taken := Taken(s);
    if taken == [] then s.loaded else taken[|taken| - 1].items
  }

  lemma LastVersionDecides(s: State)
    requires StoreFollowsOps(s) && SnapshotsAreConsistent(s) && LastVersion(Taken(s)) >= |s.ops|
    ensures LastItems(s) == s.items
  {
    var taken := Taken(s);
    assert s.ops[..|s.ops|] == s.ops;
    if taken != [] {
      var last := taken[|taken| - 1];
      assert IsConsistent(last, s.loaded, s.ops);
      assert last.version == |s.ops|;
    }
  }

  /**
   No request is ever forgotten: in every reachable state in which the store, which is what all requests
   asked for, is not what the last snapshot says, another snapshot is coming.
   */
  lemma NoMutationIsForgotten(loaded: seq<Item>, actions: seq<Action>)
    requires IsRun(Started(loaded), actions)
    ensures var s := Reached(Started(loaded), actions);
            && s.items == After(loaded, Requested(Started(loaded), actions))
            && (LastItems(s) != s.items ==> s.token || SnapshotIsDue(s) || s.writer.Changed?)
            && (s.writer.Changed? ==> Enabled(s, Signal) && Step(s, Signal).token)
  {
    assert Inv(Started(loaded));
    RunKeepsInv(Started(loaded), actions);
    StoreFollowsRequests(Started(loaded), actions);
    var s := Reached(Started(loaded), actions);
    if LastVersion(Taken(s)) >= |s.ops| {
      LastVersionDecides(s);
    }
  }

  /** The action that is logged with a snapshot. */
  ghost predicate Names(action: string, op: Op) {
    && (op.Create? ==> action == "create")
    && (op.Update? ==> action == "update")
    && (op.Delete? ==> action == "delete")
  }

  lemma SnapshotNames(s: State, i: nat)
    requires SnapshotsAreConsistent(s) && i < |s.saved|
    ensures IsConsistent(s.saved[i], s.loaded, s.ops)
    ensures Names(s.saved[i].action, s.ops[s.saved[i].version - 1])
  {
    assert s.saved[i] == Taken(s)[i];
  }

  lemma SavedInOrder(s: State)
    requires SnapshotsGoForward(s) && SavesArePaidFor(s)
    ensures |s.saved| <= |s.ops|
    ensures forall i, j :: 0 <= i < j < |s.saved| ==> s.saved[i].version <= s.saved[j].version
  {
    assert forall i :: 0 <= i < |s.saved| ==> s.saved[i] == Taken(s)[i];
  }

  /**
   Every snapshot handed to save is the whole store as it stood after some of the requests that created
   something or found their id, the last of which it is logged under; later snapshots are never older,
   and there are no more snapshots than such requests.
   */
  lemma SavedStatesAreRealStates(loaded: seq<Item>, actions: seq<Action>)
    requires IsRun(Started(loaded), actions)
    ensures var s, found := Reached(Started(loaded), actions), Found(Started(loaded), actions);
            && |s.saved| <= |found|
            && (forall i :: 0 <= i < |s.saved| ==>
                  && 0 < s.saved[i].version <= |found| && s.saved[i].items == After(loaded, found[..s.saved[i].version])
                  && Names(s.saved[i].action, found[s.saved[i].version - 1]))
            && (forall i, j :: 0 <= i < j < |s.saved| ==> s.saved[i].version <= s.saved[j].version)
  {
    var s := Reached(Started(loaded), actions);
    ReachedInv(loaded, actions);
    assert s.ops == Found(Started(loaded), actions);
    forall i | 0 <= i < |s.saved|
      ensures IsConsistent(s.saved[i], loaded, s.ops) && Names(s.saved[i].action, s.ops[s.saved[i].version - 1])
    {
      SnapshotNames(s, i);
    }
    SavedInOrder(s);
  }

  lemma ReachedInv(loaded: seq<Item>, actions: seq<Action>)
    requires IsRun(Started(loaded), actions)
    ensures var s := Reached(Started(loaded), actions);
            && SnapshotsAreConsistent(s) && SnapshotsGoForward(s) && SavesArePaidFor(s)
            && s.loaded == loaded && s.ops == Found(Started(loaded), actions)
  {
    assert Inv(Started(loaded));
    RunKeepsInv(Started(loaded), actions);
    LoadedStays(Started(loaded), actions);
    OpsAreThoseFound(Started(loaded), actions);
  }

  /** So each of them is the store as it stood after the first few of all requests. */
  lemma SavedStatesFollowRequests(loaded: seq<Item>, actions: seq<Action>, i: nat) returns (k: nat)
    requires IsRun(Started(loaded), actions) && i < |Reached(Started(loaded), actions).saved|
    ensures k <= |Requested(Started(loaded), actions)|
    ensures Reached(Started(loaded), actions).saved[i].items
            == After(loaded, Requested(Started(loaded), actions)[..k])
  {
    SavedStatesAreRealStates(loaded, actions);
    k := FoundArePrefixes(Started(loaded), actions, Reached(Started(loaded), actions).saved[i].version);
  }

  // ---- What happens once requests stop ----

  /** Nobody holds the lock, nothing is signalled, and the worker sleeps. */
  predicate IsQuiet(s: State) {
    s.writer.Free? && s.readers == 0 && !s.token && s.worker.Waiting?
  }

  /** In a quiet state the last snapshot handed to save is the final store; with no snapshot, nothing ever changed. */
  lemma QuietMeansSaved(loaded: seq<Item>, actions: seq<Action>)
    requires IsRun(Started(loaded), actions) && IsQuiet(Reached(Started(loaded), actions))
    ensures var s := Reached(Started(loaded), actions);
            && (if s.saved == [] then s.ops == [] && s.items == loaded
                else s.saved[|s.saved| - 1].items == s.items && s.saved[|s.saved| - 1].version == |s.ops|)
  {
    assert Inv(Started(loaded));
    RunKeepsInv(Started(loaded), actions);
    LoadedStays(Started(loaded), actions);
    var s := Reached(Started(loaded), actions);
    assert Taken(s) == s.saved;
    if s.saved != [] {
      assert IsConsistent(Taken(s)[|s.saved| - 1], s.loaded, s.ops);
      assert s.ops[..|s.ops|] == s.ops;
    }
  }

  lemma {:induction false} LoadedStays(s: State, actions: seq<Action>)
    requires IsRun(s, actions)
    ensures Reached(s, actions).loaded == s.loaded
    decreases actions
  {
    if actions != [] {
      LoadedStays(Step(s, actions[0]), actions[1..]);
    }
  }

  /** The longest the list can be when the worker gets to copy it, if no more requests come. */
  function ListBound(s: State): nat {
    |s.items| + AsCount(s.writer.Holding?)
  }

  /** How many more steps the requests and the worker can take by themselves. */
  function StepsLeft(s: State): nat
    requires ReadersExcludeWriters(s)
  {
    var n := ListBound(s);
    (match s.writer
     case Free => 0
     case Holding(_) => n + 9
     case Changed(_) => n + 8
     case Leaving => 1)
    + s.readers
    + (if s.token then n + 6 else 0)
    + (match s.worker
     case Waiting => 0
     case Debouncing => n + 5
     case WantsSnapshot => n + 4
     case Copying(copied) => n - |copied| + 2
     case Saving(_) => 1)
  }

  lemma StepUsesUp(s: State, a: Action)
    requires Enabled(s, a) && !IsArrival(a) && ReadersExcludeWriters(s)
    ensures ReadersExcludeWriters(Step(s, a)) && StepsLeft(Step(s, a)) < StepsLeft(s)
  {
    StepKeepsLocks(s, a);
    if a.Change? && TakesEffect(s.items, s.writer.op) {
      ApplyGrowsByOne(s.items, s.writer.op);
    }
  }

  lemma ApplyGrowsByOne(items: seq<Item>, op: Op)
    ensures |Apply(items, op)| <= |items| + 1
  {
    match op
    case Create(_, _) =>
    case Update(id, text, done) => ReplaceAt(items, id, text, done);
    case Delete(id) => WithoutIsShorter(items, id);
  }

  lemma {:induction false} WithoutIsShorter(items: seq<Item>, id: string)
    ensures |Without(items, id)| <= |items|
  {
    if items != [] {
      WithoutIsShorter(items[1..], id);
    }
  }

  /** A step that some request or the worker can take whenever the state is not quiet. */
  function NextStep(s: State): (a: Action)
    requires ReadersExcludeWriters(s) && !IsQuiet(s)
    ensures Enabled(s, a) && !IsArrival(a)
  {
    match s.writer
    case Holding(_) => Change
    case Changed(_) => Signal
    case Leaving => Unlock
    case Free =>
      if s.readers > 0 then EndListing
      else
        match s.worker
        case Waiting => Wake
        case Debouncing => Fire
        case WantsSnapshot => LockForCopy
        case Copying(copied) => if |copied| < |s.items| then CopyOne else EndCopy
        case Saving(_) => Save
  }

  /** Once no more requests arrive, every run is short. */
  lemma {:induction false} RunsWithoutArrivalsEnd(s: State, actions: seq<Action>)
    requires IsRun(s, actions) && ReadersExcludeWriters(s)
    requires forall i :: 0 <= i < |actions| ==> !IsArrival(actions[i])
    ensures |actions| <= StepsLeft(s)
    decreases actions
  {
    if actions != [] {
      assert !IsArrival(actions[0]);
      StepUsesUp(s, actions[0]);
      RunsWithoutArrivalsEnd(Step(s, actions[0]), actions[1..]);
    }
  }

  lemma {:induction false} RunsCompose(s: State, first: seq<Action>, second: seq<Action>)
    requires IsRun(s, first) && IsRun(Reached(s, first), second)
    ensures IsRun(s, first + second) && Reached(s, first + second) == Reached(Reached(s, first), second)
    decreases first
  {
    if first == [] {
      assert first + second == second;
    } else {
      assert (first + second)[1..] == first[1..] + second;
      RunsCompose(Step(s, first[0]), first[1..], second);
    }
  }

  lemma {:induction false} RequestsCompose(s: State, first: seq<Action>, second: seq<Action>)
    requires IsRun(s, first) && IsRun(Reached(s, first), second) && IsRun(s, first + second)
    ensures Requested(s, first + second) == Requested(s, first) + Requested(Reached(s, first), second)
    decreases first
  {
    if first == [] {
      assert first + second == second;
    } else {
      assert (first + second)[1..] == first[1..] + second;
      RequestsCompose(Step(s, first[0]), first[1..], second);
    }
  }

  ghost predicate CannotGoOn(s: State) {
    forall a :: Enabled(s, a) ==> IsArrival(a)
  }

  lemma StoppedMeansQuiet(s: State)
    requires ReadersExcludeWriters(s) && CannotGoOn(s)
    ensures IsQuiet(s)
  {
    assert !IsQuiet(s) ==> Enabled(s, NextStep(s));
  }

  /**
   However the requests and the worker interleave after the last arrival, they go on for a bounded
   number of steps only, and where they stop the last snapshot handed to save is what all the requests,
   carried out in their order, make of the store that was loaded; without any snapshot, that is the
   loaded store itself.
   */
  lemma EveryMutationIsSaved(loaded: seq<Item>, before: seq<Action>, after: seq<Action>)
    requires IsRun(Started(loaded), before) && IsRun(Reached(Started(loaded), before), after)
    requires forall i :: 0 <= i < |after| ==> !IsArrival(after[i])
    ensures var s, last := Reached(Started(loaded), before), Reached(Reached(Started(loaded), before), after);
            && ReadersExcludeWriters(s) && |after| <= StepsLeft(s)
            && (CannotGoOn(last) ==>
                  (if last.saved == [] then loaded else last.saved[|last.saved| - 1].items)
                  == After(loaded, Requested(Started(loaded), before) + Requested(s, after)))
  {
    assert Inv(Started(loaded));
    RunKeepsInv(Started(loaded), before);
    RunsWithoutArrivalsEnd(Reached(Started(loaded), before), after);
    RunsCompose(Started(loaded), before, after);
    RunKeepsInv(Started(loaded), before + after);
    if CannotGoOn(Reached(Started(loaded), before + after)) {
      StoppedMeansQuiet(Reached(Started(loaded), before + after));
      QuietMeansSaved(loaded, before + after);
      StoreFollowsRequests(Started(loaded), before + after);
      RequestsCompose(Started(loaded), before, after);
    }
  }
}
