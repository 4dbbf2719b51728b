/**
 What the concurrent upgrade handler keeps in every reachable state: slots are conserved, caps
 hold, every resource is released exactly once and in the reverse order of its acquisition.
 */
module HandlerSafety {
  import opened Collections
  import opened AbuseGuard
  import opened BridgeHandler

  // ---- Who holds what ----

  ghost function Holding(requests: map<nat, Request>, release: Event): set<nat> {
    set id | id in requests && release in requests[id].defers
  }

  ghost function SlotsOf(requests: map<nat, Request>, key: string): set<nat> {
    set id | id in requests && SLOT_RELEASED in requests[id].defers && requests[id].key == key
  }

  /** The guard's counters are exactly the numbers of requests between reserve and deferred clear. */
  ghost predicate GuardMatches(g: GuardState, requests: map<nat, Request>) {
    && g.active == |Holding(requests, SLOT_RELEASED)|
    && (forall key :: ConnectionsOf(g.clients, key) == |SlotsOf(requests, key)|)
    && (forall key :: key in g.clients ==> g.clients[key] >= 1)
  }

  ghost predicate CapsHold(limits: Limits, g: GuardState) {
    && (limits.maxActive > 0 ==> g.active <= limits.maxActive)
    && (limits.maxPerClient > 0 ==> forall key :: key in g.clients ==> g.clients[key] <= limits.maxPerClient)
  }

  // ---- What one request looks like ----

  /** The statement a return belongs to. */
  function Origin(exit: Exit): (pc: Pc)
    ensures !pc.Unwinding? && !pc.Finished?
  {
    match exit
    case Forbidden => Authorizing
    case TooManyRequests => Reserving
    case UpgradeFailed => Upgrading
    case SetupFailed => ApplyingSettings
    case Undelivered => Delivering
    case Served => Serving
  }

  /** Every release a request can have registered, in the order of registration. */
  const STACK: seq<Event> := [REQUEST_SPAN_ENDED, SLOT_RELEASED, METRIC_LOWERED, SESSION_SPAN_ENDED, SOCKET_CLOSED,
                              KEEPALIVE_STOPPED, DISCONNECT_HOOK_RAN, CONN_CLOSED, LIFETIME_TIMER_STOPPED]

  /** How many of them are registered by the time a request is about to run the statement at `pc`. */
  function Depth(cfg: Config, pc: Pc): (depth: nat)
    requires !pc.Unwinding? && !pc.Finished?
    ensures depth <= |STACK|
  {
    match pc
    case Authorizing | Reserving => 1
    case Upgrading | RaisingMetric => 2
    case StartingSpan => 3
    case ApplyingSettings => 5
    case Connecting => 6
    case Wrapping => 7
    case ArmingTimer => 8
    case Delivering | Serving => if cfg.hasLifetime then 9 else 8
  }

  function Registered(cfg: Config, pc: Pc): seq<Event>
    requires !pc.Unwinding? && !pc.Finished?
  {
    STACK[..Depth(cfg, pc)]
  }

  /** What a request has done by the time it is about to run the statement at `pc`. */
  function Done(cfg: Config, pc: Pc): seq<Event>
    requires !pc.Unwinding? && !pc.Finished?
  {
    match pc
    case Authorizing | Reserving => []
    case Upgrading => [ACCEPTED]
    case RaisingMetric => [ACCEPTED, SOCKET_OPENED]
    case StartingSpan => [ACCEPTED, SOCKET_OPENED, METRIC_RAISED]
    case ApplyingSettings => [ACCEPTED, SOCKET_OPENED, METRIC_RAISED, SESSION_SPAN_STARTED]
    case Connecting => [ACCEPTED, SOCKET_OPENED, METRIC_RAISED, SESSION_SPAN_STARTED, KEEPALIVE_STARTED]
    case Wrapping => DoneByConnect(cfg)
    case ArmingTimer => DoneByConnect(cfg) + [CONN_WRAPPED]
    case Delivering | Serving =>
      DoneByConnect(cfg) + [CONN_WRAPPED] + (if cfg.hasLifetime then [LIFETIME_TIMER_ARMED] else [])
  }

  function DoneByConnect(cfg: Config): seq<Event> {
    [ACCEPTED, SOCKET_OPENED, METRIC_RAISED, SESSION_SPAN_STARTED, KEEPALIVE_STARTED]
    + (if cfg.hasOnConnect then [CONNECT_HOOK_RAN] else [])
  }

  /** What running the registered releases from the top down to position `k` does. */
  function Unwound(cfg: Config, registered: seq<Event>, k: nat): seq<Event>
    requires k <= |registered|
    decreases |registered| - k
  {
    if k == |registered| then []
    else
      Unwound(cfg, registered, k + 1) + Released(cfg, registered[k])
  }

  ghost predicate WellFormed(cfg: Config, r: Request) {
    match r.pc
    case Unwinding(exit) =>
      var all := Registered(cfg, Origin(exit));
      && r.defers <= all
      && r.log == Done(cfg, Origin(exit)) + Unwound(cfg, all, |r.defers|)
    case Finished(exit) =>
      && r.defers == []
      && r.log == Done(cfg, Origin(exit)) + Unwound(cfg, Registered(cfg, Origin(exit)), 0)
    case _ =>
      r.defers == Registered(cfg, r.pc) && r.log == Done(cfg, r.pc)
  }

  predicate MayHaveSocket(r: Request) {
    r.pc.RaisingMetric? || r.pc.StartingSpan? || SOCKET_CLOSED in r.defers
  }

  ghost predicate RequestsWellFormed(cfg: Config, requests: map<nat, Request>) {
    forall id :: id in requests ==> WellFormed(cfg, requests[id])
  }

  ghost predicate SocketsOwned(s: System) {
    forall id :: id in s.sockets ==> id in s.requests && MayHaveSocket(s.requests[id])
  }

  ghost predicate Inv(cfg: Config, s: System) {
    && RequestsWellFormed(cfg, s.requests)
    && GuardMatches(s.guard, s.requests)
    && CapsHold(cfg.limits, s.guard)
    && s.metric == |Holding(s.requests, METRIC_LOWERED)|
    && SocketsOwned(s)
  }

  // ---- What one action does to one request ----

  lemma NextStatementIsWellFormed(cfg: Config, r: Request, ok: bool)
    requires !r.pc.Unwinding? && !r.pc.Finished? && WellFormed(cfg, r)
    ensures WellFormed(cfg, NextStatement(cfg, r, ok))
  {
    if r.pc.Connecting? {
      assert r.log == [ACCEPTED, SOCKET_OPENED, METRIC_RAISED, SESSION_SPAN_STARTED, KEEPALIVE_STARTED];
    }
  }

  lemma AdvanceOneRequest(cfg: Config, r: Request, ok: bool)
    requires !r.pc.Unwinding? && !r.pc.Finished? && WellFormed(cfg, r)
    ensures var r' := NextStatement(cfg, r, ok);
            && r'.key == r.key
            && (METRIC_LOWERED in r'.defers <==> METRIC_LOWERED in r.defers || r.pc.RaisingMetric?)
            && (r.pc.RaisingMetric? ==> METRIC_LOWERED !in r.defers)
            && (SLOT_RELEASED in r'.defers <==> SLOT_RELEASED in r.defers || (r.pc.Reserving? && ok))
            && (r.pc.Reserving? ==> SLOT_RELEASED !in r.defers)
            && (MayHaveSocket(r) || (r.pc.Upgrading? && ok) ==> MayHaveSocket(r'))
  {
  }

  /** The stack has no duplicates, so popping an entry removes it and nothing else. */
  lemma PopRemovesTop(cfg: Config, pc: Pc, defers: seq<Event>)
    requires !pc.Unwinding? && !pc.Finished? && defers <= Registered(cfg, pc) && defers != []
    ensures var top, rest := defers[|defers| - 1], defers[..|defers| - 1];
            forall e :: e in rest <==> e in defers && e != top
  {
  }

  /** A pop takes the top entry away, and with it the slot or the raised metric exactly when it is the top. */
  ghost predicate PopsExactly(r: Request, r': Request)
    requires r.defers != []
  {
    var top := r.defers[|r.defers| - 1];
    && (SLOT_RELEASED in r'.defers <==> SLOT_RELEASED in r.defers && top != SLOT_RELEASED)
    && (METRIC_LOWERED in r'.defers <==> METRIC_LOWERED in r.defers && top != METRIC_LOWERED)
    && (MayHaveSocket(r) && top != SOCKET_CLOSED && top != CONN_CLOSED ==> MayHaveSocket(r'))
  }

  lemma UnwindOneRequest(cfg: Config, r: Request)
    requires r.pc.Unwinding? && WellFormed(cfg, r)
    ensures var r' := PopDeferred(cfg, r);
            && WellFormed(cfg, r') && r'.key == r.key
            && if r.defers == [] then r'.defers == []
               else
                 PopsExactly(r, r')
  {
    if r.defers != [] {
      var all := Registered(cfg, Origin(r.pc.exit));
      PopRemovesTop(cfg, Origin(r.pc.exit), r.defers);
      assert all[|r.defers| - 1] == r.defers[|r.defers| - 1];
    }
  }

  // ---- What one action does to the counts ----

  predicate Holds(requests: map<nat, Request>, id: nat, release: Event) {
    id in requests && release in requests[id].defers
  }

  lemma HoldersCount(requests: map<nat, Request>, id: nat, r: Request, release: Event)
    ensures |Holding(requests[id := r], release)|
         == |Holding(requests, release)| + AsCount(release in r.defers) - AsCount(Holds(requests, id, release))
  {
    var before, after := Holding(requests, release), Holding(requests[id := r], release);
    SizesAround(before, after, id);
    assert id in before <==> Holds(requests, id, release);
    assert id in after <==> release in r.defers;
  }

  lemma SlotsCount(requests: map<nat, Request>, id: nat, r: Request, key: string)
    requires id in requests ==> requests[id].key == r.key
    ensures |SlotsOf(requests[id := r], key)| == |SlotsOf(requests, key)|
         + (if r.key == key then AsCount(SLOT_RELEASED in r.defers) - AsCount(Holds(requests, id, SLOT_RELEASED))
            else 0)
  {
    var before, after := SlotsOf(requests, key), SlotsOf(requests[id := r], key);
    SizesAround(before, after, id);
    assert id in before <==> Holds(requests, id, SLOT_RELEASED) && r.key == key;
    assert id in after <==> SLOT_RELEASED in r.defers && r.key == key;
  }

  /** One request changes; the guard must move its counters by exactly what that request gained or gave back. */
  lemma GuardFollows(g: GuardState, g': GuardState, requests: map<nat, Request>, id: nat, r: Request)
    requires GuardMatches(g, requests)
    requires id in requests ==> requests[id].key == r.key
    requires var change := AsCount(SLOT_RELEASED in r.defers) - AsCount(Holds(requests, id, SLOT_RELEASED));
             && g'.active == g.active + change
             && (forall key :: ConnectionsOf(g'.clients, key)
                               == ConnectionsOf(g.clients, key) + if key == r.key then change else 0)
    requires forall key :: key in g'.clients ==> g'.clients[key] >= 1
    ensures GuardMatches(g', requests[id := r])
  {
    HoldersCount(requests, id, r, SLOT_RELEASED);
    forall key
      ensures ConnectionsOf(g'.clients, key) == |SlotsOf(requests[id := r], key)|
    {
      SlotsCount(requests, id, r, key);
    }
  }

  /** A deferred clear always finds its own slot counted, so the guard against underflow never acts. */
  lemma OwnSlotIsCounted(g: GuardState, requests: map<nat, Request>, id: nat)
    requires GuardMatches(g, requests) && Holds(requests, id, SLOT_RELEASED)
    ensures g.active > 0 && requests[id].key in g.clients && g.clients[requests[id].key] >= 1
  {
    assert id in Holding(requests, SLOT_RELEASED) && id in SlotsOf(requests, requests[id].key);
  }

  lemma AttemptTouchesOnlyWindows(limits: Limits, g: GuardState, key: string, now: int)
    requires CapsHold(limits, g)
    ensures var (g', outcome) := SweptAttempt(limits, g, key, now);
            && CapsHold(limits, g')
            && if outcome == Reserved then
                 g'.active == g.active + 1 && g'.clients == g.clients[key := ConnectionsOf(g.clients, key) + 1]
               else
                 g'.active == g.active && g'.clients == g.clients
  {
  }

  // ---- Every action keeps the invariant ----

  lemma AdvanceKeepsGuard(cfg: Config, s: System, id: nat, now: int, ok: bool)
    requires Enabled(s, Advance(id, now, ok)) && WellFormed(cfg, s.requests[id])
    requires GuardMatches(s.guard, s.requests) && CapsHold(cfg.limits, s.guard)
    ensures var s' := AdvanceRequest(cfg, s, id, now, ok);
            GuardMatches(s'.guard, s'.requests) && CapsHold(cfg.limits, s'.guard)
  {
    var r, s' := s.requests[id], AdvanceRequest(cfg, s, id, now, ok);
    if r.pc.Reserving? {
      AttemptTouchesOnlyWindows(cfg.limits, s.guard, r.key, now);
    }
    AdvanceOneRequest(cfg, r, Answer(cfg, s, id, now, ok));
    GuardFollows(s.guard, s'.guard, s.requests, id, s'.requests[id]);
  }

  /** What the statement is answered: by the guard, by the done signal of its session, or by the outside world. */
  function Answer(cfg: Config, s: System, id: nat, now: int, ok: bool): bool
    requires id in s.requests
  {
    match s.requests[id].pc
    case Reserving => SweptAttempt(cfg.limits, s.guard, s.requests[id].key, now).1 == Reserved
    case Serving => id in s.sessionsDone
    case _ => ok
  }

  lemma AdvanceKeepsRequest(cfg: Config, s: System, id: nat, now: int, ok: bool)
    requires Enabled(s, Advance(id, now, ok)) && WellFormed(cfg, s.requests[id])
    ensures var s' := AdvanceRequest(cfg, s, id, now, ok);
            && s'.requests == s.requests[id := NextStatement(cfg, s.requests[id], Answer(cfg, s, id, now, ok))]
            && WellFormed(cfg, s'.requests[id])
  {
    NextStatementIsWellFormed(cfg, s.requests[id], Answer(cfg, s, id, now, ok));
  }

  lemma AdvanceKeepsTheRest(cfg: Config, s: System, id: nat, now: int, ok: bool)
    requires Enabled(s, Advance(id, now, ok)) && WellFormed(cfg, s.requests[id])
    requires s.metric == |Holding(s.requests, METRIC_LOWERED)| && SocketsOwned(s)
    ensures var s' := AdvanceRequest(cfg, s, id, now, ok);
            && WellFormed(cfg, s'.requests[id])
            && s'.requests == s.requests[id := s'.requests[id]]
            && s'.metric == |Holding(s'.requests, METRIC_LOWERED)| && SocketsOwned(s')
  {
    var s' := AdvanceRequest(cfg, s, id, now, ok);
    AdvanceKeepsRequest(cfg, s, id, now, ok);
    AdvanceOneRequest(cfg, s.requests[id], Answer(cfg, s, id, now, ok));
    HoldersCount(s.requests, id, s'.requests[id], METRIC_LOWERED);
  }

  lemma UnwindKeepsGuard(cfg: Config, s: System, id: nat)
    requires Enabled(s, RunDeferred(id)) && WellFormed(cfg, s.requests[id])
    requires GuardMatches(s.guard, s.requests) && CapsHold(cfg.limits, s.guard)
    ensures var s' := UnwindRequest(cfg, s, id);
            GuardMatches(s'.guard, s'.requests) && CapsHold(cfg.limits, s'.guard)
  {
    var r, s' := s.requests[id], UnwindRequest(cfg, s, id);
    UnwindOneRequest(cfg, r);
    if r.defers != [] && r.defers[|r.defers| - 1] == SLOT_RELEASED {
      OwnSlotIsCounted(s.guard, s.requests, id);
    }
    GuardFollows(s.guard, s'.guard, s.requests, id, s'.requests[id]);
  }

  lemma UnwindKeepsMetricAndSockets(cfg: Config, s: System, id: nat)
    requires Enabled(s, RunDeferred(id))
    requires s.requests[id].defers != [] ==> PopsExactly(s.requests[id], PopDeferred(cfg, s.requests[id]))
    requires s.metric == |Holding(s.requests, METRIC_LOWERED)| && SocketsOwned(s)
    ensures var s' := UnwindRequest(cfg, s, id);
            s'.metric == |Holding(s'.requests, METRIC_LOWERED)| && SocketsOwned(s')
  {
    var r' := PopDeferred(cfg, s.requests[id]);
    HoldersCount(s.requests, id, r', METRIC_LOWERED);
  }

  lemma UnwindKeepsInv(cfg: Config, s: System, id: nat)
    requires Inv(cfg, s) && Enabled(s, RunDeferred(id))
    ensures Inv(cfg, UnwindRequest(cfg, s, id))
  {
    var s' := UnwindRequest(cfg, s, id);
    assert s'.requests == s.requests[id := PopDeferred(cfg, s.requests[id])];
    UnwindOneRequest(cfg, s.requests[id]);
    UnwindKeepsGuard(cfg, s, id);
    UnwindKeepsMetricAndSockets(cfg, s, id);
  }

  lemma ArriveKeepsInv(cfg: Config, s: System, id: nat, key: string)
    requires Inv(cfg, s) && Enabled(s, Arrive(id, key))
    ensures Inv(cfg, Step(cfg, s, Arrive(id, key)))
  {
    var s' := Step(cfg, s, Arrive(id, key));
    GuardFollows(s.guard, s'.guard, s.requests, id, s'.requests[id]);
    HoldersCount(s.requests, id, s'.requests[id], METRIC_LOWERED);
  }

  lemma StepKeepsInv(cfg: Config, s: System, a: Action)
    requires Inv(cfg, s) && Enabled(s, a)
    ensures Inv(cfg, Step(cfg, s, a))
  {
    match a
    case Arrive(id, key) => ArriveKeepsInv(cfg, s, id, key);
    case Advance(id, now, ok) =>
      AdvanceKeepsGuard(cfg, s, id, now, ok);
      AdvanceKeepsTheRest(cfg, s, id, now, ok);
    case RunDeferred(id) =>
      UnwindKeepsInv(cfg, s, id);
    case LoseSocket(_) =>
    case CloseSession(_) =>
  }

  lemma {:induction false} RunKeepsInv(cfg: Config, s: System, actions: seq<Action>)
    requires Inv(cfg, s) && IsRun(cfg, s, actions)
    ensures Inv(cfg, After(cfg, s, actions))
    decreases actions
  {
    if actions != [] {
      StepKeepsInv(cfg, s, actions[0]);
      RunKeepsInv(cfg, Step(cfg, s, actions[0]), actions[1..]);
    }
  }

  // ---- Conservation ----

  ghost function Among(holders: set<nat>, requests: map<nat, Request>, key: string): set<nat>
    requires holders <= requests.Keys
  {
    set id | id in holders && requests[id].key == key
  }

  lemma AmongOthers(holders: set<nat>, requests: map<nat, Request>, key: string, other: string)
    requires holders <= requests.Keys
    ensures Among(holders - Among(holders, requests, key), requests, other)
         == if other == key then {} else Among(holders, requests, other)
  {
  }

  lemma {:induction false} SumIsNumberOfSlots(clients: map<string, int>, requests: map<nat, Request>, holders: set<nat>)
    requires holders <= requests.Keys
    requires forall key :: ConnectionsOf(clients, key) == |Among(holders, requests, key)|
    requires forall key :: key in clients ==> clients[key] >= 1
    ensures SumOfValues(clients) == |holders|
    decreases |clients|
  {
    if clients == map[] {
      assert forall id :: id in holders ==> id in Among(holders, requests, requests[id].key);
      assert forall key :: ConnectionsOf(clients, key) == 0;
      assert holders == {};
    } else {
      var key :| key in clients;
      var mine := Among(holders, requests, key);
      assert |mine| == ConnectionsOf(clients, key) == clients[key];
      SumOfValuesTakeOut(clients, key);
      forall other
        ensures ConnectionsOf(clients - {key}, other) == |Among(holders - mine, requests, other)|
      {
        assert ConnectionsOf(clients, other) == |Among(holders, requests, other)|;
        AmongOthers(holders, requests, key, other);
      }
      SumIsNumberOfSlots(clients - {key}, requests, holders - mine);
      assert holders == mine + (holders - mine);
    }
  }

  ghost predicate AllFinished(s: System) {
    forall id :: id in s.requests ==> s.requests[id].pc.Finished?
  }

  /** Only requests that hold a slot ever raise the metric or own an open websocket. */
  lemma OthersHoldNothing(cfg: Config, s: System)
    requires Inv(cfg, s)
    ensures Holding(s.requests, METRIC_LOWERED) <= Holding(s.requests, SLOT_RELEASED)
    ensures s.sockets <= Holding(s.requests, SLOT_RELEASED)
  {
    forall id | id in s.requests && (METRIC_LOWERED in s.requests[id].defers || MayHaveSocket(s.requests[id]))
      ensures SLOT_RELEASED in s.requests[id].defers
    {
      LaterReleasesSitOnTheSlot(cfg, s.requests[id]);
    }
  }

  lemma LaterReleasesSitOnTheSlot(cfg: Config, r: Request)
    requires WellFormed(cfg, r) && (METRIC_LOWERED in r.defers || MayHaveSocket(r))
    ensures SLOT_RELEASED in r.defers
  {
    if r.pc.Unwinding? {
      assert |r.defers| >= 2;
      assert r.defers[1] == STACK[1];
    } else {
      assert |r.defers| >= 2 ==> r.defers[1] == STACK[1];
    }
  }

  lemma InitiallyInv(cfg: Config)
    ensures Inv(cfg, INITIAL)
  {
    assert Holding(INITIAL.requests, SLOT_RELEASED) == {} && Holding(INITIAL.requests, METRIC_LOWERED) == {};
    assert forall key :: SlotsOf(INITIAL.requests, key) == {};
  }

  /**
   After any interleaving of any requests: the guard's total is the number of requests between
   reserve and deferred clear, and is the sum of the per-client counts; the configured caps hold;
   open websockets and the active-connections metric stay within the reserved slots.
   */
  lemma SlotsAreConserved(cfg: Config, actions: seq<Action>)
    requires IsRun(cfg, INITIAL, actions)
    ensures var s := After(cfg, INITIAL, actions);
            && s.guard.active == |Holding(s.requests, SLOT_RELEASED)| == SumOfValues(s.guard.clients)
            && (forall key :: key in s.guard.clients ==> 1 <= s.guard.clients[key] == |SlotsOf(s.requests, key)|)
            && CapsHold(cfg.limits, s.guard)
            && |s.sockets| <= s.guard.active && 0 <= s.metric <= s.guard.active
  {
    var s := After(cfg, INITIAL, actions);
    InitiallyInv(cfg);
    RunKeepsInv(cfg, INITIAL, actions);
    var holders := Holding(s.requests, SLOT_RELEASED);
    forall key
      ensures ConnectionsOf(s.guard.clients, key) == |Among(holders, s.requests, key)|
    {
      assert SlotsOf(s.requests, key) == Among(holders, s.requests, key);
    }
    SumIsNumberOfSlots(s.guard.clients, s.requests, holders);
    OthersHoldNothing(cfg, s);
    SubsetIsNoLarger(s.sockets, holders);
    SubsetIsNoLarger(Holding(s.requests, METRIC_LOWERED), holders);
    assert forall key :: key in s.guard.clients ==> ConnectionsOf(s.guard.clients, key) == s.guard.clients[key];
  }

  /** When every request has returned, by whichever exits, nothing is left behind. */
  lemma NothingLeaks(cfg: Config, actions: seq<Action>)
    requires IsRun(cfg, INITIAL, actions) && AllFinished(After(cfg, INITIAL, actions))
    ensures var s := After(cfg, INITIAL, actions);
            s.guard.active == 0 && s.guard.clients == map[] && s.metric == 0 && s.sockets == {}
  {
    var s := After(cfg, INITIAL, actions);
    InitiallyInv(cfg);
    RunKeepsInv(cfg, INITIAL, actions);
    OthersHoldNothing(cfg, s);
    forall id | id in s.requests
      ensures s.requests[id].defers == []
    {
      assert WellFormed(cfg, s.requests[id]);
    }
    FinishedHoldNothing(s);
  }

  lemma FinishedHoldNothing(s: System)
    requires GuardMatches(s.guard, s.requests)
    requires forall id :: id in s.requests ==> s.requests[id].defers == []
    ensures s.guard.active == 0 && s.guard.clients == map[]
    ensures Holding(s.requests, SLOT_RELEASED) == {} && Holding(s.requests, METRIC_LOWERED) == {}
  {
    assert Holding(s.requests, SLOT_RELEASED) == {} && Holding(s.requests, METRIC_LOWERED) == {};
    forall key
      ensures key !in s.guard.clients
    {
      assert SlotsOf(s.requests, key) == {};
      assert ConnectionsOf(s.guard.clients, key) == 0;
    }
  }

  /** In every run, a deferred clear takes exactly one from both counters. */
  lemma UnderflowGuardNeverActs(cfg: Config, actions: seq<Action>, id: nat)
    requires IsRun(cfg, INITIAL, actions)
    requires var s := After(cfg, INITIAL, actions);
             && Enabled(s, RunDeferred(id)) && s.requests[id].defers != []
             && s.requests[id].defers[|s.requests[id].defers| - 1] == SLOT_RELEASED
    ensures var s := After(cfg, INITIAL, actions);
            var g, g', key := s.guard, Step(cfg, s, RunDeferred(id)).guard, s.requests[id].key;
            && g.active >= 1 && g'.active == g.active - 1
            && key in g.clients && g.clients[key] >= 1
            && ConnectionsOf(g'.clients, key) == g.clients[key] - 1
  {
    var s := After(cfg, INITIAL, actions);
    InitiallyInv(cfg);
    RunKeepsInv(cfg, INITIAL, actions);
    OwnSlotIsCounted(s.guard, s.requests, id);
  }

  /**
   In every reachable state the caps decide by the requests that hold a slot at that moment: an
   attempt that passes the rate check is turned away exactly when as many requests hold slots as
   the cap allows, of all clients or of its own, and is given a slot otherwise.
   */
  lemma CapsDecideByTheHolders(cfg: Config, actions: seq<Action>, key: string, now: int)
    requires IsRun(cfg, INITIAL, actions)
    requires SweptAttempt(cfg.limits, After(cfg, INITIAL, actions).guard, key, now).1.PassesRateCheck()
    ensures var s, limits := After(cfg, INITIAL, actions), cfg.limits;
            var outcome := SweptAttempt(limits, s.guard, key, now).1;
            var isFull := limits.maxActive > 0 && |Holding(s.requests, SLOT_RELEASED)| == limits.maxActive;
            var isClientFull := limits.maxPerClient > 0 && |SlotsOf(s.requests, key)| == limits.maxPerClient;
            && (outcome == ActiveCapExceeded <==> isFull)
            && (outcome == ClientCapExceeded <==> !isFull && isClientFull)
            && (outcome == Reserved <==> !isFull && !isClientFull)
  {
    InitiallyInv(cfg);
    RunKeepsInv(cfg, INITIAL, actions);
    var g := After(cfg, INITIAL, actions).guard;
    assert key in g.clients ==> ConnectionsOf(g.clients, key) == g.clients[key];
  }
}
