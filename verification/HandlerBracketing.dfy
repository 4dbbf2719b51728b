/**
 The order in which one request of the concurrent handler does things. Because deferred releases
 run last in, first out, everything a request does falls in one fixed order, nothing happens
 twice, and each acquisition is undone exactly once by the time the request has returned.
 */
module HandlerBracketing {
  import opened BridgeHandler
  import opened HandlerSafety

  /** Strictly increasing: no event happens twice, and any two happen in event order. */
  ghost predicate InOrder(log: seq<Event>) {
    forall i, j :: 0 <= i < j < |log| ==> log[i] < log[j]
  }

  /** The release that undoes an acquisition. */
  ghost predicate Undoes(release: Event, acquisition: Event) {
    acquisition < FIRST_RELEASE &&
    release == (
      if acquisition == ACCEPTED then SLOT_RELEASED
      else if acquisition == SOCKET_OPENED then SOCKET_CLOSED
      else if acquisition == METRIC_RAISED then METRIC_LOWERED
      else if acquisition == SESSION_SPAN_STARTED then SESSION_SPAN_ENDED
      else if acquisition == KEEPALIVE_STARTED then KEEPALIVE_STOPPED
      else if acquisition == CONNECT_HOOK_RAN then DISCONNECT_HOOK_RAN
      else if acquisition == CONN_WRAPPED then CONN_CLOSED
      else LIFETIME_TIMER_STOPPED)
  }

  /** Everything from here on undoes something. */
  const FIRST_RELEASE: Event := LIFETIME_TIMER_STOPPED

  ghost predicate Descends(registered: seq<Event>) {
    && (forall i, j :: 0 <= i < j < |registered| ==> registered[i] > registered[j])
    && (forall e :: e in registered ==> e >= FIRST_RELEASE)
  }

  // ---- Stacks and logs ----

  /** Unwinding a stack from the top down to position `k` runs its upper entries in event order. */
  lemma {:induction false} UnwoundEvents(cfg: Config, all: seq<Event>, k: nat)
    requires k <= |all| && Descends(all)
    ensures InOrder(Unwound(cfg, all, k))
    ensures forall e :: e in Unwound(cfg, all, k) <==> e in all[k..] && Released(cfg, e) == [e]
    decreases |all| - k
  {
    if k < |all| {
      UnwoundEvents(cfg, all, k + 1);
      assert all[k..] == [all[k]] + all[k + 1..];
      var upper := Unwound(cfg, all, k + 1);
      forall i | 0 <= i < |upper|
        ensures upper[i] < all[k]
      {
        assert upper[i] in all[k + 1..];
      }
    }
  }

  lemma LogInOrder(cfg: Config, done: seq<Event>, all: seq<Event>, k: nat)
    requires k <= |all| && Descends(all)
    requires InOrder(done) && forall e :: e in done ==> e < FIRST_RELEASE
    ensures var log := done + Unwound(cfg, all, k);
            && InOrder(log)
            && (forall e :: e in log <==> e in done || (e in all[k..] && Released(cfg, e) == [e]))
  {
    UnwoundEvents(cfg, all, k);
    var log, tail := done + Unwound(cfg, all, k), Unwound(cfg, all, k);
    forall i, j | 0 <= i < j < |log|
      ensures log[i] < log[j]
    {
      if i < |done| <= j {
        assert log[i] in done && log[j] in tail;
        assert log[j] in all;
      }
    }
  }

  /** What lies above an entry of the stack is unwound before it. */
  lemma UnwoundEarlier(all: seq<Event>, k: nat, later: Event, earlier: Event)
    requires k <= |all| && Descends(all)
    requires later in all[k..] && earlier in all && earlier < later
    ensures earlier in all[k..]
  {
    var i :| 0 <= i < |all| && all[i] == earlier;
    var j :| 0 <= j < |all[k..]| && all[k..][j] == later;
    assert all[k + j] == later && i > k + j;
    assert all[k..][i - k] == earlier;
  }

  // ---- One request ----

  lemma RegisteredDescends(cfg: Config, pc: Pc)
    requires !pc.Unwinding? && !pc.Finished?
    ensures Descends(Registered(cfg, pc))
  {
  }

  lemma DoneInOrder(cfg: Config, pc: Pc)
    requires !pc.Unwinding? && !pc.Finished?
    ensures InOrder(Done(cfg, pc)) && forall e :: e in Done(cfg, pc) ==> e < FIRST_RELEASE
  {
  }

  /** A release is registered exactly when the stack is deep enough to hold it. */
  lemma RegisteredByDepth(cfg: Config, pc: Pc, release: Event)
    requires !pc.Unwinding? && !pc.Finished? && FIRST_RELEASE <= release <= REQUEST_SPAN_ENDED
    ensures release in Registered(cfg, pc) <==> REQUEST_SPAN_ENDED - release < Depth(cfg, pc)
  {
    var position := REQUEST_SPAN_ENDED - release;
    assert STACK[position] == release;
    if position < Depth(cfg, pc) {
      assert Registered(cfg, pc)[position] == release;
    }
  }

  /** What is registered undoes what was done. */
  lemma RegisteredUndoesDone(cfg: Config, exit: Exit, acquisition: Event, release: Event)
    requires Undoes(release, acquisition)
    requires acquisition != CONNECT_HOOK_RAN || cfg.hasOnConnect
    ensures acquisition in Done(cfg, Origin(exit)) <==> release in Registered(cfg, Origin(exit))
  {
    RegisteredByDepth(cfg, Origin(exit), release);
  }

  predicate IsReturning(r: Request) {
    r.pc.Unwinding? || r.pc.Finished?
  }

  /** What a request has done: its acquisitions, then the part of its stack that is already unwound. */
  ghost predicate LogIs(cfg: Config, r: Request, done: seq<Event>, all: seq<Event>) {
    && |r.defers| <= |all| && Descends(all) && InOrder(r.log)
    && (forall e :: e in done ==> e < FIRST_RELEASE)
    && (forall e :: e in r.log <==> e in done || (e in all[|r.defers|..] && Released(cfg, e) == [e]))
    && (r.pc.Finished? ==> r.defers == [])
  }

  lemma ReturningLog(cfg: Config, r: Request) returns (done: seq<Event>, all: seq<Event>)
    requires WellFormed(cfg, r) && IsReturning(r)
    ensures LogIs(cfg, r, done, all)
    ensures done == Done(cfg, Origin(r.pc.exit)) && all == Registered(cfg, Origin(r.pc.exit))
  {
    var pc := Origin(r.pc.exit);
    done, all := Done(cfg, pc), Registered(cfg, pc);
    DoneInOrder(cfg, pc);
    RegisteredDescends(cfg, pc);
    LogInOrder(cfg, done, all, |r.defers|);
  }

  lemma RunningLog(cfg: Config, r: Request)
    requires WellFormed(cfg, r) && !IsReturning(r)
    ensures InOrder(r.log) && forall e :: e in r.log ==> e < FIRST_RELEASE
  {
    DoneInOrder(cfg, r.pc);
  }

  lemma ReturnedPair(cfg: Config, r: Request, acquisition: Event, release: Event)
    requires WellFormed(cfg, r) && IsReturning(r) && Undoes(release, acquisition)
    requires acquisition == CONNECT_HOOK_RAN ==> cfg.hasOnConnect && cfg.hasOnDisconnect
    ensures InOrder(r.log)
    ensures release in r.log ==> acquisition in r.log
    ensures r.pc.Finished? ==> (acquisition in r.log <==> release in r.log)
  {
    var done, all := ReturningLog(cfg, r);
    RegisteredUndoesDone(cfg, r.pc.exit, acquisition, release);
    UndoesRanges(acquisition, release);
    ReleasedOnlyIfAcquired(cfg, r, done, all, acquisition, release);
  }

  lemma UndoesRanges(acquisition: Event, release: Event)
    requires Undoes(release, acquisition)
    ensures acquisition < FIRST_RELEASE <= release
    ensures release == DISCONNECT_HOOK_RAN <==> acquisition == CONNECT_HOOK_RAN
  {
  }

  lemma ReleasedOnlyIfAcquired(cfg: Config, r: Request, done: seq<Event>, all: seq<Event>, acquisition: Event,
                               release: Event)
    requires LogIs(cfg, r, done, all)
    requires acquisition < FIRST_RELEASE <= release && Released(cfg, release) == [release]
    requires acquisition in done <==> release in all
    ensures release in r.log ==> acquisition in r.log
    ensures r.pc.Finished? ==> (acquisition in r.log <==> release in r.log)
  {
    assert forall e :: e in all[|r.defers|..] ==> e in all;
    assert r.pc.Finished? ==> all[|r.defers|..] == all;
  }

  lemma HooksInBetween(cfg: Config, r: Request, done: seq<Event>, all: seq<Event>)
    requires LogIs(cfg, r, done, all) && cfg.hasOnDisconnect
    requires DISCONNECT_HOOK_RAN in all ==> CONN_CLOSED in all
    requires CONNECT_HOOK_RAN in done <==> DISCONNECT_HOOK_RAN in all
    ensures DISCONNECT_HOOK_RAN in r.log ==> CONN_CLOSED in r.log
    ensures SLOT_RELEASED in r.log && CONNECT_HOOK_RAN in r.log ==> DISCONNECT_HOOK_RAN in r.log
  {
    var k := |r.defers|;
    if DISCONNECT_HOOK_RAN in r.log {
      UnwoundEarlier(all, k, DISCONNECT_HOOK_RAN, CONN_CLOSED);
    }
    if SLOT_RELEASED in r.log && CONNECT_HOOK_RAN in r.log {
      assert forall e :: e in all[k..] ==> e in all;
      UnwoundEarlier(all, k, SLOT_RELEASED, DISCONNECT_HOOK_RAN);
    }
  }

  /** The exits at which a request has run its connect hook, had one been configured. */
  predicate WasConnected(exit: Exit) {
    exit.Undelivered? || exit.Served?
  }

  lemma ConnectedAt(cfg: Config, exit: Exit)
    requires cfg.hasOnConnect
    ensures CONNECT_HOOK_RAN in Done(cfg, Origin(exit)) <==> WasConnected(exit)
    ensures DISCONNECT_HOOK_RAN in Registered(cfg, Origin(exit)) ==> CONN_CLOSED in Registered(cfg, Origin(exit))
  {
    RegisteredByDepth(cfg, Origin(exit), DISCONNECT_HOOK_RAN);
    RegisteredByDepth(cfg, Origin(exit), CONN_CLOSED);
  }

  // ---- Every reachable state ----

  lemma ReachableRequest(cfg: Config, actions: seq<Action>, id: nat)
    requires IsRun(cfg, INITIAL, actions) && id in After(cfg, INITIAL, actions).requests
    ensures WellFormed(cfg, After(cfg, INITIAL, actions).requests[id])
  {
    InitiallyInv(cfg);
    RunKeepsInv(cfg, INITIAL, actions);
  }

  /**
   In every reachable state every request has done each thing at most once and in the one fixed
   order, and has undone nothing it did not do. Once it has returned, it has undone all it did.
   */
  lemma EverythingOnceAndInOrder(cfg: Config, actions: seq<Action>, id: nat, acquisition: Event, release: Event)
    requires IsRun(cfg, INITIAL, actions) && id in After(cfg, INITIAL, actions).requests
    requires Undoes(release, acquisition)
    requires acquisition == CONNECT_HOOK_RAN ==> cfg.hasOnConnect && cfg.hasOnDisconnect
    ensures var r := After(cfg, INITIAL, actions).requests[id];
            && InOrder(r.log)
            && (release in r.log ==> acquisition in r.log)
            && (r.pc.Finished? ==> (acquisition in r.log <==> release in r.log))
  {
    ReachableRequest(cfg, actions, id);
    var r := After(cfg, INITIAL, actions).requests[id];
    if IsReturning(r) {
      ReturnedPair(cfg, r, acquisition, release);
    } else {
      RunningLog(cfg, r);
      UndoesRanges(acquisition, release);
    }
  }

  lemma DisconnectAfterClose(cfg: Config, r: Request)
    requires cfg.hasOnConnect && cfg.hasOnDisconnect && WellFormed(cfg, r)
    ensures DISCONNECT_HOOK_RAN in r.log ==> CONN_CLOSED in r.log
    ensures SLOT_RELEASED in r.log && CONNECT_HOOK_RAN in r.log ==> DISCONNECT_HOOK_RAN in r.log
    ensures r.pc.Finished? ==> (CONNECT_HOOK_RAN in r.log <==> WasConnected(r.pc.exit))
  {
    if IsReturning(r) {
      var done, all := ReturningLog(cfg, r);
      RegisteredUndoesDone(cfg, r.pc.exit, CONNECT_HOOK_RAN, DISCONNECT_HOOK_RAN);
      ConnectedAt(cfg, r.pc.exit);
      HooksInBetween(cfg, r, done, all);
      ReleasedOnlyIfAcquired(cfg, r, done, all, CONNECT_HOOK_RAN, DISCONNECT_HOOK_RAN);
    } else {
      RunningLog(cfg, r);
    }
  }

  lemma InOrderComesBefore(log: seq<Event>, first: Event, j: nat)
    requires InOrder(log) && j < |log| && first in log && first < log[j]
    ensures first in log[..j]
  {
    var i :| 0 <= i < |log| && log[i] == first;
    assert i < j;
    assert log[..j][i] == first;
  }

  /**
   The disconnect hook runs exactly once if the connect hook ran, and not otherwise; it runs after
   the connection is closed and before the slot is released.
   */
  lemma DisconnectIffConnect(cfg: Config, actions: seq<Action>, id: nat)
    requires cfg.hasOnConnect && cfg.hasOnDisconnect
    requires IsRun(cfg, INITIAL, actions) && id in After(cfg, INITIAL, actions).requests
    ensures var r := After(cfg, INITIAL, actions).requests[id];
            && (forall i, j :: 0 <= i < j < |r.log| ==> r.log[i] != r.log[j])
            && (r.pc.Finished? ==>
                  && (DISCONNECT_HOOK_RAN in r.log <==> CONNECT_HOOK_RAN in r.log)
                  && (CONNECT_HOOK_RAN in r.log <==> WasConnected(r.pc.exit)))
            && (forall j :: 0 <= j < |r.log| && r.log[j] == DISCONNECT_HOOK_RAN ==>
                  && CONNECT_HOOK_RAN in r.log[..j] && CONN_CLOSED in r.log[..j] && SLOT_RELEASED !in r.log[..j])
            && (SLOT_RELEASED in r.log && CONNECT_HOOK_RAN in r.log ==> DISCONNECT_HOOK_RAN in r.log)
  {
    var r := After(cfg, INITIAL, actions).requests[id];
    ReachableRequest(cfg, actions, id);
    EverythingOnceAndInOrder(cfg, actions, id, CONNECT_HOOK_RAN, DISCONNECT_HOOK_RAN);
    DisconnectAfterClose(cfg, r);
    forall j | 0 <= j < |r.log| && r.log[j] == DISCONNECT_HOOK_RAN
      ensures CONNECT_HOOK_RAN in r.log[..j] && CONN_CLOSED in r.log[..j] && SLOT_RELEASED !in r.log[..j]
    {
      InOrderComesBefore(r.log, CONNECT_HOOK_RAN, j);
      InOrderComesBefore(r.log, CONN_CLOSED, j);
    }
  }

  // ---- A returning request finishes ----

  /** How often a request runs its next deferred release, or finds none left. */
  function Releases(actions: seq<Action>, id: nat): nat {
    if actions == [] then 0
    else (if actions[0] == RunDeferred(id) then 1 else 0) + Releases(actions[1..], id)
  }

  lemma OneRelease(cfg: Config, s: System, a: Action, id: nat)
    requires Enabled(s, a) && id in s.requests && s.requests[id].pc.Unwinding?
    ensures id in Step(cfg, s, a).requests
    ensures var r, r' := s.requests[id], Step(cfg, s, a).requests[id];
            if a == RunDeferred(id) then
              if r.defers == [] then r'.pc == Finished(r.pc.exit)
              else r'.pc == r.pc && |r'.defers| == |r.defers| - 1
            else r' == r
  {
  }

  lemma {:induction false} FinishedStays(cfg: Config, s: System, actions: seq<Action>, id: nat)
    requires IsRun(cfg, s, actions) && id in s.requests && s.requests[id].pc.Finished?
    ensures id in After(cfg, s, actions).requests && After(cfg, s, actions).requests[id] == s.requests[id]
    ensures Releases(actions, id) == 0
    decreases actions
  {
    if actions != [] {
      FinishedStays(cfg, Step(cfg, s, actions[0]), actions[1..], id);
    }
  }

  /**
   Whatever the others do, a request that returns can always run its next release, and has finished,
   with the exit it returned from, exactly after one step for each release it had registered and one more.
   */
  lemma {:induction false} ReturningRequestsFinish(cfg: Config, s: System, actions: seq<Action>, id: nat)
    requires IsRun(cfg, s, actions) && id in s.requests && s.requests[id].pc.Unwinding?
    ensures id in After(cfg, s, actions).requests
    ensures var r, r', n := s.requests[id], After(cfg, s, actions).requests[id], Releases(actions, id);
            && n <= |r.defers| + 1
            && (r'.pc == Finished(r.pc.exit) <==> n == |r.defers| + 1)
            && (n <= |r.defers| ==> r'.pc == r.pc && Enabled(After(cfg, s, actions), RunDeferred(id)))
    decreases actions
  {
    if actions != [] {
      var a, s' := actions[0], Step(cfg, s, actions[0]);
      OneRelease(cfg, s, a, id);
      if s'.requests[id].pc.Unwinding? {
        ReturningRequestsFinish(cfg, s', actions[1..], id);
      } else {
        FinishedStays(cfg, s', actions[1..], id);
      }
    }
  }

  // ---- Native sessions ----

  /** The request has handed its session to the native transport. */
  predicate WasDelivered(r: Request) {
    r.pc.Serving? || (IsReturning(r) && r.pc.exit.Served?)
  }

  /** A request that returns from a native session does so because the transport has closed it. */
  ghost predicate ReturnsAreSignalled(cfg: Config, s: System) {
    forall id :: id in s.requests && IsReturning(s.requests[id]) && s.requests[id].pc.exit.Served? && cfg.isNative ==>
      id in s.sessionsDone
  }

  lemma StepKeepsSignalled(cfg: Config, s: System, a: Action)
    requires Enabled(s, a) && ReturnsAreSignalled(cfg, s)
    ensures ReturnsAreSignalled(cfg, Step(cfg, s, a))
  {
  }

  lemma {:induction false} RunKeepsSignalled(cfg: Config, s: System, actions: seq<Action>)
    requires IsRun(cfg, s, actions) && ReturnsAreSignalled(cfg, s)
    ensures ReturnsAreSignalled(cfg, After(cfg, s, actions))
    decreases actions
  {
    if actions != [] {
      StepKeepsSignalled(cfg, s, actions[0]);
      RunKeepsSignalled(cfg, Step(cfg, s, actions[0]), actions[1..]);
    }
  }

  /**
   In native mode the end of a session is its true end: as long as the transport has not closed a
   session it was given, nothing of that request has been released, no disconnect hook has run, and
   its slot and the metric are still held.
   */
  lemma NothingReleasedBeforeTheTransportCloses(cfg: Config, actions: seq<Action>, id: nat)
    requires cfg.isNative && IsRun(cfg, INITIAL, actions) && id in After(cfg, INITIAL, actions).requests
    requires WasDelivered(After(cfg, INITIAL, actions).requests[id])
    requires id !in After(cfg, INITIAL, actions).sessionsDone
    ensures var s := After(cfg, INITIAL, actions);
            && (forall release :: release >= FIRST_RELEASE ==> release !in s.requests[id].log)
            && id in Holding(s.requests, SLOT_RELEASED) && id in Holding(s.requests, METRIC_LOWERED)
  {
    RunKeepsSignalled(cfg, INITIAL, actions);
    ReachableRequest(cfg, actions, id);
    var r := After(cfg, INITIAL, actions).requests[id];
    RunningLog(cfg, r);
    RegisteredByDepth(cfg, r.pc, SLOT_RELEASED);
    RegisteredByDepth(cfg, r.pc, METRIC_LOWERED);
  }
}
