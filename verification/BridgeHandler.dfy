/**
 The upgrade handler: any number of requests run concurrently against one abuse guard. Each
 request acquires resources one statement at a time, registers a deferred release for each, and
 on whatever exit it takes runs the deferred releases last in, first out.

 One action is one statement of one request; actions of different requests interleave freely.
 */
module BridgeHandler {
  import opened AbuseGuard

  datatype Config = Config(
    limits: Limits,
    hasAuthorize: bool,
    hasOnConnect: bool,
    hasOnDisconnect: bool,
    hasLifetime: bool,
    isNative: bool)

  /** The things a request does, numbered in the one order in which they can happen. */
  type Event = nat

  const ACCEPTED: Event := 0
  const SOCKET_OPENED: Event := 1
  const METRIC_RAISED: Event := 2
  const SESSION_SPAN_STARTED: Event := 3
  const KEEPALIVE_STARTED: Event := 4
  const CONNECT_HOOK_RAN: Event := 5
  const CONN_WRAPPED: Event := 6
  const LIFETIME_TIMER_ARMED: Event := 7
  const LIFETIME_TIMER_STOPPED: Event := 8
  const CONN_CLOSED: Event := 9
  const DISCONNECT_HOOK_RAN: Event := 10
  const KEEPALIVE_STOPPED: Event := 11
  const SOCKET_CLOSED: Event := 12
  const SESSION_SPAN_ENDED: Event := 13
  const METRIC_LOWERED: Event := 14
  const SLOT_RELEASED: Event := 15
  const REQUEST_SPAN_ENDED: Event := 16

  /** What the request's return statement was reached from. */
  datatype Exit = Forbidden | TooManyRequests | UpgradeFailed | SetupFailed | Undelivered | Served

  datatype Pc =
    | Authorizing
    | Reserving
    | Upgrading
    | RaisingMetric
    | StartingSpan
    | ApplyingSettings
    | Connecting
    | Wrapping
    | ArmingTimer
    | Delivering
    | Serving
    | Unwinding(exit: Exit)
    | Finished(exit: Exit)

  datatype Request = Request(key: string, pc: Pc, defers: seq<Event>, log: seq<Event>)

  /**
   The whole system: the guard, the active-connections metric, the requests whose websocket is
   open, those whose native session the transport has closed, and every request that ever arrived.
   */
  datatype System = System(
    guard: GuardState,
    metric: int,
    sockets: set<nat>,
    sessionsDone: set<nat>,
    requests: map<nat, Request>)

  const INITIAL := System(EMPTY_GUARD, 0, {}, {}, map[])

  datatype Action =
    | Arrive(id: nat, key: string)
    | Advance(id: nat, now: int, ok: bool)  // the next statement; `ok` is what the outside world answers
    | RunDeferred(id: nat)                  // the top of the defer stack
    | LoseSocket(id: nat)                   // the peer, the watchdog or the lifetime timer closes the websocket
    | CloseSession(id: nat)                 // the native transport closes the session it was given

  predicate Enabled(s: System, a: Action) {
    match a
    case Arrive(id, _) => id !in s.requests
    case Advance(id, _, _) => id in s.requests && !s.requests[id].pc.Unwinding? && !s.requests[id].pc.Finished?
    case RunDeferred(id) => id in s.requests && s.requests[id].pc.Unwinding?
    case LoseSocket(id) => id in s.sockets
    case CloseSession(id) => id in s.requests && s.requests[id].pc.Serving?
  }

  function Step(cfg: Config, s: System, a: Action): System
    requires Enabled(s, a)
  {
    match a
    case Arrive(id, key) =>
      s.(requests := s.requests[id := Request(key, Authorizing, [REQUEST_SPAN_ENDED], [])])
    case Advance(id, now, ok) =>
      AdvanceRequest(cfg, s, id, now, ok)
    case RunDeferred(id) =>
      UnwindRequest(cfg, s, id)
    case LoseSocket(id) =>
      s.(sockets := s.sockets - {id})
    case CloseSession(id) =>
      s.(sockets := s.sockets - {id}, sessionsDone := s.sessionsDone + {id})
  }

  /** The next statement of a request, and what it does to the state all requests share. */
  function AdvanceRequest(cfg: Config, s: System, id: nat, now: int, ok: bool): System
    requires Enabled(s, Advance(id, now, ok))
  {
    var r := s.requests[id];
    match r.pc
    case Reserving =>
      var (guard, outcome) := SweptAttempt(cfg.limits, s.guard, r.key, now);
      s.(guard := guard, requests := s.requests[id := NextStatement(cfg, r, outcome == Reserved)])
    case Upgrading =>
      s.(sockets := if ok then s.sockets + {id} else s.sockets,
         requests := s.requests[id := NextStatement(cfg, r, ok)])
    case RaisingMetric =>
      s.(metric := s.metric + 1, requests := s.requests[id := NextStatement(cfg, r, ok)])
    case Serving =>
      s.(requests := s.requests[id := NextStatement(cfg, r, id in s.sessionsDone)])
    case _ =>
      s.(requests := s.requests[id := NextStatement(cfg, r, ok)])
  }

  function NextStatement(cfg: Config, r: Request, ok: bool): Request
    requires !r.pc.Unwinding? && !r.pc.Finished?
  {
    match r.pc
    case Authorizing =>
      if cfg.hasAuthorize && !ok then r.(pc := Unwinding(Forbidden)) else r.(pc := Reserving)
    case Reserving =>
      if ok then Acquire(r, Upgrading, [ACCEPTED], [SLOT_RELEASED]) else r.(pc := Unwinding(TooManyRequests))
    case Upgrading =>
      if ok then Acquire(r, RaisingMetric, [SOCKET_OPENED], []) else r.(pc := Unwinding(UpgradeFailed))
    case RaisingMetric =>
      Acquire(r, StartingSpan, [METRIC_RAISED], [METRIC_LOWERED])
    case StartingSpan =>
      Acquire(r, ApplyingSettings, [SESSION_SPAN_STARTED], [SESSION_SPAN_ENDED, SOCKET_CLOSED])
    case ApplyingSettings =>
      if ok then Acquire(r, Connecting, [KEEPALIVE_STARTED], [KEEPALIVE_STOPPED]) else r.(pc := Unwinding(SetupFailed))
    case Connecting =>
      Acquire(r, Wrapping, if cfg.hasOnConnect then [CONNECT_HOOK_RAN] else [], [DISCONNECT_HOOK_RAN])
    case Wrapping =>
      Acquire(r, ArmingTimer, [CONN_WRAPPED], [CONN_CLOSED])
    case ArmingTimer =>
      if cfg.hasLifetime then Acquire(r, Delivering, [LIFETIME_TIMER_ARMED], [LIFETIME_TIMER_STOPPED])
      else r.(pc := Delivering)
    case Delivering =>
      if cfg.isNative && !ok then r.(pc := Unwinding(Undelivered)) else r.(pc := Serving)
    case Serving =>
      // a native session waits for its done signal, one over HTTP/2 ends when it ends
      if cfg.isNative && !ok then r else r.(pc := Unwinding(Served))
  }

  /** Move on, record what just happened and register what must happen on the way out. */
  function Acquire(r: Request, pc: Pc, happened: seq<Event>, deferred: seq<Event>): Request {
    Request(r.key, pc, r.defers + deferred, r.log + happened)
  }

  /** Run the top of the defer stack, or return when nothing is left. */
  function UnwindRequest(cfg: Config, s: System, id: nat): System
    requires Enabled(s, RunDeferred(id))
  {
    var r := s.requests[id];
    var s' := s.(requests := s.requests[id := PopDeferred(cfg, r)]);
    if r.defers == [] then s'
    else
      var top := r.defers[|r.defers| - 1];
      if top == SLOT_RELEASED then s'.(guard := Release(s.guard, r.key))
      else if top == METRIC_LOWERED then s'.(metric := s.metric - 1)
      else if top == SOCKET_CLOSED || top == CONN_CLOSED then s'.(sockets := s.sockets - {id})
      else s'
  }

  function PopDeferred(cfg: Config, r: Request): Request
    requires r.pc.Unwinding?
  {
    if r.defers == [] then r.(pc := Finished(r.pc.exit))
    else
      var top := r.defers[|r.defers| - 1];
      r.(defers := r.defers[..|r.defers| - 1], log := r.log + Released(cfg, top))
  }

  /** What running one deferred release does; the disconnect hook is optional. */
  function Released(cfg: Config, deferred: Event): seq<Event> {
    if deferred == DISCONNECT_HOOK_RAN && !cfg.hasOnDisconnect then [] else [deferred]
  }

  /** A run is a sequence of actions, each enabled in the state it is taken in. */
  ghost predicate IsRun(cfg: Config, s: System, actions: seq<Action>)
    decreases actions
  {
    actions == [] || (Enabled(s, actions[0]) && IsRun(cfg, Step(cfg, s, actions[0]), actions[1..]))
  }

  function After(cfg: Config, s: System, actions: seq<Action>): System
    requires IsRun(cfg, s, actions)
    decreases actions
  {
    if actions == [] then s else After(cfg, Step(cfg, s, actions[0]), actions[1..])
  }
}
