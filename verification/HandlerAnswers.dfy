/**
 What a request is answered decides how it goes: which statement it returns from, what it has acquired
 by then, and when its websocket is open. Answers are read off the run, statement by statement.
 */
module HandlerAnswers {
  import opened Collections
  import opened AbuseGuard
  import opened BridgeHandler
  import opened HandlerBracketing
  import opened HandlerSafety

  // ---- The answers on a run ----

  /** The client key a request came with. */
  function ArrivedKey(actions: seq<Action>, id: nat): string {
    if actions == [] then ""
    else if actions[0].Arrive? && actions[0].id == id then actions[0].key
    else ArrivedKey(actions[1..], id)
  }

  predicate IsStatementOf(a: Action, id: nat) {
    a.Advance? && a.id == id
  }

  /** The answer to statement `n` of a request: the guard's when it reserves, the outside world's otherwise. */
  function AnswerTo(cfg: Config, s: System, a: Action, key: string, n: nat): bool
    requires a.Advance?
  {
    if n == 1 then SweptAttempt(cfg.limits, s.guard, key, a.now).1.Reserved? else a.ok
  }

  /** The answers to one request's statements, from statement `n` on. */
  function AnswersTo(cfg: Config, s: System, actions: seq<Action>, id: nat, key: string, n: nat): seq<bool>
    requires IsRun(cfg, s, actions)
    decreases actions
  {
    if actions == [] then []
    else if IsStatementOf(actions[0], id) then
      [AnswerTo(cfg, s, actions[0], key, n)] + AnswersTo(cfg, Step(cfg, s, actions[0]), actions[1..], id, key, n + 1)
    else
      AnswersTo(cfg, Step(cfg, s, actions[0]), actions[1..], id, key, n)
  }

  function AllAnswersTo(cfg: Config, actions: seq<Action>, id: nat): seq<bool>
    requires IsRun(cfg, INITIAL, actions)
  {
    AnswersTo(cfg, INITIAL, actions, id, ArrivedKey(actions, id), 0)
  }

  /**
   The refusal a request runs into. The statements are: authorize, reserve, upgrade, raise the metric,
   start the span, apply the settings, connect, wrap, arm the timer, deliver, and then serve.
   */
  function Refusal(cfg: Config, answers: seq<bool>): Option<Exit> {
    if |answers| > 0 && !answers[0] && cfg.hasAuthorize then Some(Forbidden)
    else if |answers| > 1 && !answers[1] then Some(TooManyRequests)
    else if |answers| > 2 && !answers[2] then Some(UpgradeFailed)
    else if |answers| > 5 && !answers[5] then Some(SetupFailed)
    else if |answers| > 9 && !answers[9] && cfg.isNative then Some(Undelivered)
    else None
  }

  // ---- Where a request stands ----

  /** The statements a request has behind it when it is about to run the one at `pc`. */
  function Position(pc: Pc): nat
    requires !pc.Unwinding? && !pc.Finished?
  {
    match pc
    case Authorizing => 0
    case Reserving => 1
    case Upgrading => 2
    case RaisingMetric => 3
    case StartingSpan => 4
    case ApplyingSettings => 5
    case Connecting => 6
    case Wrapping => 7
    case ArmingTimer => 8
    case Delivering => 9
    case Serving => 10
  }

  ghost predicate Stands(cfg: Config, r: Request, answers: seq<bool>) {
    if IsReturning(r) then
      if r.pc.exit.Served? then |answers| > 10 && Refusal(cfg, answers) == None
      else |answers| == Position(Origin(r.pc.exit)) + 1 && Refusal(cfg, answers) == Some(r.pc.exit)
    else
      && Refusal(cfg, answers) == None
      && (if r.pc.Serving? then |answers| >= 10 else |answers| == Position(r.pc))
  }

  lemma NextStatementStands(cfg: Config, r: Request, answers: seq<bool>, ok: bool, answer: bool)
    requires !IsReturning(r) && Stands(cfg, r, answers) && (!r.pc.Serving? ==> ok == answer)
    ensures Stands(cfg, NextStatement(cfg, r, ok), answers + [answer])
  {
    var all := answers + [answer];
    assert forall i :: 0 <= i < |answers| ==> all[i] == answers[i];
  }

  lemma {:induction false} RunStands(cfg: Config, s: System, actions: seq<Action>, id: nat, key: string,
                                     answers: seq<bool>)
    requires IsRun(cfg, s, actions)
    requires if id in s.requests then s.requests[id].key == key && Stands(cfg, s.requests[id], answers)
             else answers == [] && key == ArrivedKey(actions, id)
    ensures var s' := After(cfg, s, actions);
            id in s'.requests ==>
              && s'.requests[id].key == key
              && Stands(cfg, s'.requests[id], answers + AnswersTo(cfg, s, actions, id, key, |answers|))
    decreases actions
  {
    if actions == [] {
      assert answers + [] == answers;
    } else {
      var a, s' := actions[0], Step(cfg, s, actions[0]);
      if IsStatementOf(a, id) {
        var answer := AnswerTo(cfg, s, a, key, |answers|);
        StatementStands(cfg, s, a, key, answers);
        RunStands(cfg, s', actions[1..], id, key, answers + [answer]);
        assert (answers + [answer]) + AnswersTo(cfg, s', actions[1..], id, key, |answers| + 1)
            == answers + AnswersTo(cfg, s, actions, id, key, |answers|);
      } else {
        OthersLeaveStanding(cfg, s, a, id, answers);
        RunStands(cfg, s', actions[1..], id, key, answers);
      }
    }
  }

  lemma StatementStands(cfg: Config, s: System, a: Action, key: string, answers: seq<bool>)
    requires a.Advance? && Enabled(s, a) && s.requests[a.id].key == key && Stands(cfg, s.requests[a.id], answers)
    ensures var r' := Step(cfg, s, a).requests[a.id];
            r'.key == key && Stands(cfg, r', answers + [AnswerTo(cfg, s, a, key, |answers|)])
  {
    var r, answer := s.requests[a.id], AnswerTo(cfg, s, a, key, |answers|);
    NextStatementStands(cfg, r, answers, Answer(cfg, s, a.id, a.now, a.ok), answer);
  }

  lemma OthersLeaveStanding(cfg: Config, s: System, a: Action, id: nat, answers: seq<bool>)
    requires Enabled(s, a) && !IsStatementOf(a, id)
    requires if id in s.requests then Stands(cfg, s.requests[id], answers) else answers == []
    ensures var s' := Step(cfg, s, a);
            && (id in s.requests ==> id in s'.requests && s'.requests[id].key == s.requests[id].key)
            && (id in s'.requests ==> Stands(cfg, s'.requests[id], answers))
            && (id !in s.requests && id in s'.requests ==> a.Arrive? && a.id == id && s'.requests[id].key == a.key)
            && (id !in s.requests && id !in s'.requests ==> !(a.Arrive? && a.id == id))
  {
  }

  lemma ReachedStands(cfg: Config, actions: seq<Action>, id: nat)
    requires IsRun(cfg, INITIAL, actions) && id in After(cfg, INITIAL, actions).requests
    ensures After(cfg, INITIAL, actions).requests[id].key == ArrivedKey(actions, id)
    ensures Stands(cfg, After(cfg, INITIAL, actions).requests[id], AllAnswersTo(cfg, actions, id))
  {
    RunStands(cfg, INITIAL, actions, id, ArrivedKey(actions, id), []);
    assert [] + AllAnswersTo(cfg, actions, id) == AllAnswersTo(cfg, actions, id);
  }

  /**
   On every run, a request returns from exactly the statement that was refused: Forbidden if and only if
   an authorization hook said no, TooManyRequests if and only if the guard did not give it a slot at
   that moment, and likewise for the upgrade, the settings and a native delivery. Any other request is
   still running or has been served.
   */
  lemma ExitsFollowAnswers(cfg: Config, actions: seq<Action>, id: nat)
    requires IsRun(cfg, INITIAL, actions) && id in After(cfg, INITIAL, actions).requests
    ensures var r, answers := After(cfg, INITIAL, actions).requests[id], AllAnswersTo(cfg, actions, id);
            && r.key == ArrivedKey(actions, id)
            && (forall exit: Exit :: !exit.Served? ==>
                  (IsReturning(r) && r.pc.exit == exit <==> Refusal(cfg, answers) == Some(exit)))
            && (IsReturning(r) && r.pc.exit.Served? ==> Refusal(cfg, answers) == None && |answers| > 10)
            && (!IsReturning(r) ==> Refusal(cfg, answers) == None)
  {
    ReachedStands(cfg, actions, id);
  }

  // ---- What a request has acquired ----

  predicate IsConfigured(cfg: Config, e: Event) {
    (e == CONNECT_HOOK_RAN ==> cfg.hasOnConnect) && (e == LIFETIME_TIMER_ARMED ==> cfg.hasLifetime)
  }

  /** Acquisition `e` is the work of statement `e + 1`. */
  lemma DoneByPosition(cfg: Config, pc: Pc, e: Event)
    requires !pc.Unwinding? && !pc.Finished? && e < FIRST_RELEASE
    ensures e in Done(cfg, pc) <==> IsConfigured(cfg, e) && e + 2 <= Position(pc)
  {
  }

  lemma RefusalComesLast(cfg: Config, answers: seq<bool>, n: nat)
    requires n <= |answers|
    ensures Refusal(cfg, answers) == None ==> Refusal(cfg, answers[..n]) == None
    ensures Refusal(cfg, answers).Some? && |answers| == Position(Origin(Refusal(cfg, answers).value)) + 1 ==>
              (Refusal(cfg, answers[..n]) == None <==> n < |answers|)
  {
    assert n == |answers| ==> answers[..n] == answers;
  }

  /** The statement that a request is about to run, or returns from. */
  function Reaches(r: Request): (pc: Pc)
    ensures !pc.Unwinding? && !pc.Finished?
  {
    if r.pc.Unwinding? || r.pc.Finished? then Origin(r.pc.exit) else r.pc
  }

  /** Releases aside, the log is what was done by the statement that the request reaches. */
  lemma LogIsDone(cfg: Config, r: Request, e: Event)
    requires WellFormed(cfg, r) && e < FIRST_RELEASE
    ensures e in r.log <==> e in Done(cfg, Reaches(r))
  {
    if IsReturning(r) {
      var done, all := ReturningLog(cfg, r);
    }
  }

  lemma LogByPosition(cfg: Config, r: Request, e: Event)
    requires WellFormed(cfg, r) && e < FIRST_RELEASE
    ensures e in r.log <==> IsConfigured(cfg, e) && e + 2 <= Position(Reaches(r))
  {
    LogIsDone(cfg, r, e);
    DoneByPosition(cfg, Reaches(r), e);
  }

  lemma PositionByAnswers(cfg: Config, r: Request, answers: seq<bool>, n: nat)
    requires Stands(cfg, r, answers) && n <= 10
    ensures n <= Position(Reaches(r)) <==> |answers| >= n && Refusal(cfg, answers[..n]) == None
  {
    if |answers| >= n {
      RefusalComesLast(cfg, answers, n);
    }
  }

  /**
   On every run, a request has acquired exactly what its answers let it: the slot once it was authorized
   and given one, the websocket once the upgrade succeeded too, and so on down to the lifetime timer.
   */
  lemma AcquisitionsFollowAnswers(cfg: Config, actions: seq<Action>, id: nat, e: Event)
    requires IsRun(cfg, INITIAL, actions) && id in After(cfg, INITIAL, actions).requests && e < FIRST_RELEASE
    ensures var r, answers := After(cfg, INITIAL, actions).requests[id], AllAnswersTo(cfg, actions, id);
            e in r.log <==> IsConfigured(cfg, e) && |answers| >= e + 2 && Refusal(cfg, answers[..e + 2]) == None
  {
    ReachedStands(cfg, actions, id);
    ReachableRequest(cfg, actions, id);
    LogByPosition(cfg, After(cfg, INITIAL, actions).requests[id], e);
    PositionByAnswers(cfg, After(cfg, INITIAL, actions).requests[id], AllAnswersTo(cfg, actions, id), e + 2);
  }

  /** A request that was refused by its authorization or by the guard never has a slot or an open websocket. */
  lemma RefusedHoldNothing(cfg: Config, actions: seq<Action>, id: nat)
    requires IsRun(cfg, INITIAL, actions) && id in After(cfg, INITIAL, actions).requests
    requires var refusal := Refusal(cfg, AllAnswersTo(cfg, actions, id));
             refusal == Some(Forbidden) || refusal == Some(TooManyRequests)
    ensures var s := After(cfg, INITIAL, actions);
            && ACCEPTED !in s.requests[id].log && SOCKET_OPENED !in s.requests[id].log
            && id !in Holding(s.requests, SLOT_RELEASED) && id !in s.sockets
  {
    InitiallyInv(cfg);
    RunKeepsInv(cfg, INITIAL, actions);
    ReachedStands(cfg, actions, id);
    AcquisitionsFollowAnswers(cfg, actions, id, ACCEPTED);
    AcquisitionsFollowAnswers(cfg, actions, id, SOCKET_OPENED);
    RefusalComesLast(cfg, AllAnswersTo(cfg, actions, id), |AllAnswersTo(cfg, actions, id)|);
    var r := After(cfg, INITIAL, actions).requests[id];
    assert WellFormed(cfg, r);
    RegisteredByDepth(cfg, Origin(r.pc.exit), SLOT_RELEASED);
    RegisteredByDepth(cfg, Origin(r.pc.exit), SOCKET_CLOSED);
    assert forall e :: e in r.defers ==> e in Registered(cfg, Origin(r.pc.exit));
  }

  // ---- When a websocket is open ----

  /** Whose websocket was closed from outside the request. */
  function Lost(actions: seq<Action>): set<nat> {
    if actions == [] then {}
    else LostBy(actions[0]) + Lost(actions[1..])
  }

  function LostBy(a: Action): set<nat> {
    match a
    case LoseSocket(id) => {id}
    case CloseSession(id) => {id}
    case _ => {}
  }

  predicate HasOpenSocket(r: Request) {
    SOCKET_OPENED in r.log && SOCKET_CLOSED !in r.log && CONN_CLOSED !in r.log
  }

  ghost predicate SocketsFollowLogs(s: System, lost: set<nat>) {
    && (forall id :: id in s.sockets <==> id in s.requests && HasOpenSocket(s.requests[id]) && id !in lost)
    && (forall id :: id in lost ==> id in s.requests && SOCKET_OPENED in s.requests[id].log)
  }

  lemma StatementAndSocket(cfg: Config, r: Request, ok: bool)
    requires !IsReturning(r) && WellFormed(cfg, r)
    ensures var r' := NextStatement(cfg, r, ok);
            && (HasOpenSocket(r') <==> HasOpenSocket(r) || (r.pc.Upgrading? && ok))
            && (SOCKET_OPENED in r.log ==> SOCKET_OPENED in r'.log)
            && (r.pc.Upgrading? ==> SOCKET_OPENED !in r.log)
  {
    DoneInOrder(cfg, r.pc);
    DoneByPosition(cfg, r.pc, SOCKET_OPENED);
    assert forall e :: e in r.log ==> e < FIRST_RELEASE;
  }

  lemma OneRequestMoves(s: System, s': System, id: nat, r': Request, isOpened: bool, lost: set<nat>)
    requires SocketsFollowLogs(s, lost) && id in s.requests && s'.requests == s.requests[id := r']
    requires s'.sockets == if isOpened then s.sockets + {id} else s.sockets
    requires HasOpenSocket(r') <==> HasOpenSocket(s.requests[id]) || isOpened
    requires SOCKET_OPENED in s.requests[id].log ==> SOCKET_OPENED in r'.log
    requires isOpened ==> SOCKET_OPENED !in s.requests[id].log
    ensures SocketsFollowLogs(s', lost)
  {
  }

  lemma AdvanceOpens(cfg: Config, s: System, id: nat, now: int, ok: bool)
    requires Enabled(s, Advance(id, now, ok))
    ensures Step(cfg, s, Advance(id, now, ok)).sockets
            == if s.requests[id].pc.Upgrading? && ok then s.sockets + {id} else s.sockets
  {
  }

  lemma AdvanceKeepsSockets(cfg: Config, s: System, id: nat, now: int, ok: bool, lost: set<nat>)
    requires Enabled(s, Advance(id, now, ok)) && WellFormed(cfg, s.requests[id]) && SocketsFollowLogs(s, lost)
    ensures SocketsFollowLogs(Step(cfg, s, Advance(id, now, ok)), lost)
  {
    var r, s' := s.requests[id], Step(cfg, s, Advance(id, now, ok));
    var answer := Answer(cfg, s, id, now, ok);
    StatementAndSocket(cfg, r, answer);
    AdvanceKeepsRequest(cfg, s, id, now, ok);
    AdvanceOpens(cfg, s, id, now, ok);
    OneRequestMoves(s, s', id, NextStatement(cfg, r, answer), r.pc.Upgrading? && ok, lost);
  }

  lemma PopAndSocket(cfg: Config, r: Request)
    requires r.pc.Unwinding? && r.defers != []
    ensures var r', top := PopDeferred(cfg, r), r.defers[|r.defers| - 1];
            && (SOCKET_OPENED in r.log ==> SOCKET_OPENED in r'.log)
            && (top >= FIRST_RELEASE ==>
                  (HasOpenSocket(r') <==> HasOpenSocket(r) && top != SOCKET_CLOSED && top != CONN_CLOSED))
  {
  }

  lemma OneRequestCloses(s: System, s': System, id: nat, r': Request, isClosed: bool, lost: set<nat>)
    requires SocketsFollowLogs(s, lost) && id in s.requests && s'.requests == s.requests[id := r']
    requires s'.sockets == if isClosed then s.sockets - {id} else s.sockets
    requires HasOpenSocket(r') <==> HasOpenSocket(s.requests[id]) && !isClosed
    requires SOCKET_OPENED in s.requests[id].log ==> SOCKET_OPENED in r'.log
    ensures SocketsFollowLogs(s', lost)
  {
  }

  predicate ClosesSocket(r: Request) {
    r.defers != [] && r.defers[|r.defers| - 1] in [SOCKET_CLOSED, CONN_CLOSED]
  }

  lemma UnwindCloses(cfg: Config, s: System, id: nat)
    requires Enabled(s, RunDeferred(id))
    ensures var s' := UnwindRequest(cfg, s, id);
            && s'.requests == s.requests[id := PopDeferred(cfg, s.requests[id])]
            && s'.sockets == if ClosesSocket(s.requests[id]) then s.sockets - {id} else s.sockets
  {
  }

  lemma TopIsRelease(cfg: Config, r: Request)
    requires WellFormed(cfg, r) && r.pc.Unwinding? && r.defers != []
    ensures r.defers[|r.defers| - 1] >= FIRST_RELEASE
  {
    RegisteredDescends(cfg, Origin(r.pc.exit));
    assert r.defers[|r.defers| - 1] in Registered(cfg, Origin(r.pc.exit));
  }

  lemma UnwindKeepsSockets(cfg: Config, s: System, id: nat, lost: set<nat>)
    requires Enabled(s, RunDeferred(id)) && WellFormed(cfg, s.requests[id]) && SocketsFollowLogs(s, lost)
    ensures SocketsFollowLogs(Step(cfg, s, RunDeferred(id)), lost)
  {
    var r := s.requests[id];
    UnwindCloses(cfg, s, id);
    if r.defers != [] {
      TopIsRelease(cfg, r);
      PopAndSocket(cfg, r);
    }
    OneRequestCloses(s, UnwindRequest(cfg, s, id), id, PopDeferred(cfg, r), ClosesSocket(r), lost);
  }

  lemma StepKeepsSockets(cfg: Config, s: System, a: Action, lost: set<nat>)
    requires Enabled(s, a) && RequestsWellFormed(cfg, s.requests) && SocketsFollowLogs(s, lost)
    ensures SocketsFollowLogs(Step(cfg, s, a), lost + LostBy(a))
  {
    assert lost + {} == lost;
    match a
    case Arrive(_, _) =>
    case Advance(id, now, ok) => AdvanceKeepsSockets(cfg, s, id, now, ok, lost);
    case RunDeferred(id) => UnwindKeepsSockets(cfg, s, id, lost);
    case LoseSocket(_) =>
    case CloseSession(id) => LogByPosition(cfg, s.requests[id], SOCKET_OPENED);
  }

  lemma LastAction(cfg: Config, s: System, actions: seq<Action>)
    requires actions != [] && IsRun(cfg, s, actions)
    ensures var n := |actions| - 1;
            && IsRun(cfg, s, actions[..n]) && Enabled(After(cfg, s, actions[..n]), actions[n])
            && After(cfg, s, actions) == Step(cfg, After(cfg, s, actions[..n]), actions[n])
    decreases actions
  {
    var n := |actions| - 1;
    if n > 0 {
      LastAction(cfg, Step(cfg, s, actions[0]), actions[1..]);
      assert actions[1..][..n - 1] == actions[..n][1..];
    } else {
      assert actions[1..] == [] && actions[..0] == [];
    }
  }

  lemma {:induction false} LostSoFar(actions: seq<Action>)
    requires actions != []
    ensures Lost(actions) == Lost(actions[..|actions| - 1]) + LostBy(actions[|actions| - 1])
  {
    var n := |actions| - 1;
    if n > 0 {
      LostSoFar(actions[1..]);
      assert actions[1..][..n - 1] == actions[..n][1..];
    } else {
      assert actions[1..] == [];
    }
  }

  lemma {:induction false} ReachedSockets(cfg: Config, actions: seq<Action>)
    requires IsRun(cfg, INITIAL, actions)
    ensures SocketsFollowLogs(After(cfg, INITIAL, actions), Lost(actions))
    decreases |actions|
  {
    if actions != [] {
      var n := |actions| - 1;
      LastAction(cfg, INITIAL, actions);
      LostSoFar(actions);
      ReachedSockets(cfg, actions[..n]);
      ReachedWellFormed(cfg, actions[..n]);
      StepKeepsSockets(cfg, After(cfg, INITIAL, actions[..n]), actions[n], Lost(actions[..n]));
    }
  }

  lemma ReachedWellFormed(cfg: Config, actions: seq<Action>)
    requires IsRun(cfg, INITIAL, actions)
    ensures RequestsWellFormed(cfg, After(cfg, INITIAL, actions).requests)
  {
    InitiallyInv(cfg);
    RunKeepsInv(cfg, INITIAL, actions);
  }

  /** On every run, a websocket is open exactly from its upgrade until it is closed, by its request or from outside. */
  lemma SocketsAreOpenInBetween(cfg: Config, actions: seq<Action>, id: nat)
    requires IsRun(cfg, INITIAL, actions)
    ensures var s := After(cfg, INITIAL, actions);
            id in s.sockets <==> id in s.requests && HasOpenSocket(s.requests[id]) && id !in Lost(actions)
  {
    ReachedSockets(cfg, actions);
  }
}
