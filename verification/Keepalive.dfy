/**
 Keepalive of one tunnel: what a configuration must satisfy, the defaults it is given, and the
 watchdog that closes a peer whose pongs have stopped. Durations and times are nanoseconds.
 */
module Keepalive {
  import opened Collections

  const SECOND: int := 1_000_000_000
  const DEFAULT_PING_INTERVAL: int := 30 * SECOND
  const DEFAULT_IDLE_TIMEOUT: int := 120 * SECOND

  datatype BridgeConfig = BridgeConfig(
    readBufferSize: int,
    writeBufferSize: int,
    readLimitBytes: int,
    shouldDisableReadLimit: bool,
    pingInterval: int,
    idleTimeout: int,
    shouldDisableKeepalive: bool,
    sessionMaxLifetime: int,
    maxActiveConnections: int,
    maxConnectionsPerClient: int,
    maxUpgradesPerClientPerMinute: int)

  datatype ConfigError =
    | NegativeReadBufferSize
    | NegativeWriteBufferSize
    | NegativeReadLimit
    | ReadLimitSetWhileDisabled
    | NegativePingInterval
    | NegativeIdleTimeout
    | IdleTimeoutWithoutPing
    | PingNotBelowIdleTimeout
    | KeepaliveSetWhileDisabled
    | NegativeSessionLifetime
    | NegativeActiveCap
    | NegativeClientCap
    | NegativeUpgradeCap

  /** The first thing wrong with a configuration, in the order the checks are made. */
  function GetBridgeConfigError(cfg: BridgeConfig): Option<ConfigError> {
    if cfg.readBufferSize < 0 then Some(NegativeReadBufferSize)
    else if cfg.writeBufferSize < 0 then Some(NegativeWriteBufferSize)
    else if cfg.readLimitBytes < 0 then Some(NegativeReadLimit)
    else if cfg.shouldDisableReadLimit && cfg.readLimitBytes > 0 then Some(ReadLimitSetWhileDisabled)
    else if cfg.pingInterval < 0 then Some(NegativePingInterval)
    else if cfg.idleTimeout < 0 then Some(NegativeIdleTimeout)
    else if cfg.idleTimeout > 0 && cfg.pingInterval <= 0 then Some(IdleTimeoutWithoutPing)
    else if cfg.idleTimeout > 0 && cfg.pingInterval >= cfg.idleTimeout then Some(PingNotBelowIdleTimeout)
    else if cfg.shouldDisableKeepalive && (cfg.pingInterval > 0 || cfg.idleTimeout > 0) then
      Some(KeepaliveSetWhileDisabled)
    else if cfg.sessionMaxLifetime < 0 then Some(NegativeSessionLifetime)
    else if cfg.maxActiveConnections < 0 then Some(NegativeActiveCap)
    else if cfg.maxConnectionsPerClient < 0 then Some(NegativeClientCap)
    else if cfg.maxUpgradesPerClientPerMinute < 0 then Some(NegativeUpgradeCap)
    else None
  }

  /** What a caller has to get right, all at once. */
  predicate IsSound(cfg: BridgeConfig) {
    && cfg.readBufferSize >= 0 && cfg.writeBufferSize >= 0 && cfg.readLimitBytes >= 0
    && cfg.pingInterval >= 0 && cfg.idleTimeout >= 0 && cfg.sessionMaxLifetime >= 0
    && cfg.maxActiveConnections >= 0 && cfg.maxConnectionsPerClient >= 0 && cfg.maxUpgradesPerClientPerMinute >= 0
    && (cfg.readLimitBytes > 0 ==> !cfg.shouldDisableReadLimit)
    && (cfg.idleTimeout > 0 ==> 0 < cfg.pingInterval < cfg.idleTimeout)
    && (cfg.shouldDisableKeepalive ==> cfg.pingInterval == 0 && cfg.idleTimeout == 0)
  }

  /** The defect that an error names. */
  predicate HasDefect(cfg: BridgeConfig, error: ConfigError) {
    match error
    case NegativeReadBufferSize => cfg.readBufferSize < 0
    case NegativeWriteBufferSize => cfg.writeBufferSize < 0
    case NegativeReadLimit => cfg.readLimitBytes < 0
    case ReadLimitSetWhileDisabled => cfg.readLimitBytes > 0 && cfg.shouldDisableReadLimit
    case NegativePingInterval => cfg.pingInterval < 0
    case NegativeIdleTimeout => cfg.idleTimeout < 0
    case IdleTimeoutWithoutPing => cfg.idleTimeout > 0 && cfg.pingInterval == 0
    case PingNotBelowIdleTimeout => 0 < cfg.idleTimeout <= cfg.pingInterval
    case KeepaliveSetWhileDisabled => cfg.shouldDisableKeepalive && !(cfg.pingInterval == cfg.idleTimeout == 0)
    case NegativeSessionLifetime => cfg.sessionMaxLifetime < 0
    case NegativeActiveCap => cfg.maxActiveConnections < 0
    case NegativeClientCap => cfg.maxConnectionsPerClient < 0
    case NegativeUpgradeCap => cfg.maxUpgradesPerClientPerMinute < 0
  }

  /** A configuration is accepted exactly if it is sound, and an error names a defect that is there. */
  lemma ErrorsAreExact(cfg: BridgeConfig)
    ensures GetBridgeConfigError(cfg) == None <==> IsSound(cfg)
    ensures GetBridgeConfigError(cfg).Some? ==> HasDefect(cfg, GetBridgeConfigError(cfg).value)
    ensures IsSound(cfg) <==> forall error: ConfigError :: !HasDefect(cfg, error)
  {
    if !IsSound(cfg) {
      assert HasDefect(cfg, GetBridgeConfigError(cfg).value);
    }
  }

  function ApplyKeepaliveDefaults(cfg: BridgeConfig): BridgeConfig {
    if cfg.shouldDisableKeepalive || cfg.pingInterval > 0 || cfg.idleTimeout > 0 then cfg
    else cfg.(pingInterval := DEFAULT_PING_INTERVAL, idleTimeout := DEFAULT_IDLE_TIMEOUT)
  }

  /** The defaults come as a pair, 30 and 120 seconds, only where nothing is given; whatever is given is kept. */
  lemma DefaultsFillNothingGiven(cfg: BridgeConfig)
    requires IsSound(cfg)
    ensures var running := ApplyKeepaliveDefaults(cfg);
            && running == cfg.(pingInterval := running.pingInterval, idleTimeout := running.idleTimeout)
            && (cfg.pingInterval == cfg.idleTimeout == 0 && !cfg.shouldDisableKeepalive ==>
                  running.pingInterval == 30_000_000_000 && running.idleTimeout == 120_000_000_000)
            && (cfg.pingInterval > 0 || cfg.idleTimeout > 0 || cfg.shouldDisableKeepalive ==>
                  running.pingInterval == cfg.pingInterval && running.idleTimeout == cfg.idleTimeout)
  {
  }

  /** The configuration a handler runs with. */
  ghost predicate Runs(cfg: BridgeConfig) {
    exists given: BridgeConfig :: GetBridgeConfigError(given) == None && cfg == ApplyKeepaliveDefaults(given)
  }

  /**
   A handler only ever runs with a configuration that is itself valid, to which the defaults add
   nothing, and in which a watchdog leaves room for a ping. Without a watchdog there are either no
   pings because keepalive is off, or pings the caller asked for.
   */
  lemma RunningConfigs(cfg: BridgeConfig)
    requires Runs(cfg)
    ensures GetBridgeConfigError(cfg) == None && ApplyKeepaliveDefaults(cfg) == cfg
    ensures cfg.idleTimeout > 0 ==> 0 < cfg.pingInterval < cfg.idleTimeout
    ensures cfg.idleTimeout == 0 ==> (cfg.pingInterval == 0 <==> cfg.shouldDisableKeepalive)
  {
    var given: BridgeConfig :| GetBridgeConfigError(given) == None && cfg == ApplyKeepaliveDefaults(given);
  }

  // ---- The watchdog ----

  datatype CloseReason = Idle | PingFailed

  datatype Phase =
    | Watching
    | Closed(reason: CloseReason, at: int)
    | Stopped

  /**
   `due` is when the idle timer fires next; `readDeadline` is the deadline that stands on the socket,
   if any; `rearms` counts how often the timer was set again.
   */
  datatype Watch = Watch(lastPong: int, readDeadline: Option<int>, due: int, rearms: nat, phase: Phase)

  /** What happens to one connection, in the order it happens. */
  datatype Wake =
    | Pong(at: int)                                // the pong handler, on the reading goroutine
    | Activity(at: int)                            // the peer sends anything else
    | DeadlineSet(at: int, deadline: Option<int>)  // the transport replaces or clears the read deadline
    | PingTick(at: int, sent: bool)                // the ping ticker; `sent` is whether writing the ping succeeded
    | IdleTimer(at: int)
    | Stop(at: int)

  /** The peer connects at `connectedAt`; the watchdog goroutine starts its timer at `armedAt`. */
  function Start(idleTimeout: int, connectedAt: int, armedAt: int): Watch {
    Watch(connectedAt, Some(connectedAt + idleTimeout), armedAt + idleTimeout, 0, Watching)
  }

  /** The pong handler and the transport act on the connection even after the watchdog has ended. */
  function Step(idleTimeout: int, w: Watch, wake: Wake): Watch {
    match wake
    case Pong(at) => w.(lastPong := at, readDeadline := Some(at + idleTimeout))
    case Activity(_) => w
    case DeadlineSet(_, deadline) => w.(readDeadline := deadline)
    case _ => if w.phase.Watching? then Watched(idleTimeout, w, wake) else w
  }

  /** What the watchdog's own goroutine does. */
  function Watched(idleTimeout: int, w: Watch, wake: Wake): Watch {
    match wake
    case PingTick(at, sent) => if sent then w else w.(phase := Closed(PingFailed, at))
    case IdleTimer(at) =>
      var remaining := idleTimeout - (at - w.lastPong);
      if remaining <= 0 then w.(phase := Closed(Idle, at))
      else w.(due := at + remaining, rearms := w.rearms + 1)
    case Stop(_) => w.(phase := Stopped)
    case _ => w
  }

  function After(idleTimeout: int, w: Watch, wakes: seq<Wake>): Watch
    decreases wakes
  {
    if wakes == [] then w else After(idleTimeout, Step(idleTimeout, w, wakes[0]), wakes[1..])
  }

  /** The watchdog of one connection. */
  class Watchdog {
    const idleTimeout: int
    var lastPong: int
    var readDeadline: Option<int>
    var due: int
    var rearms: nat
    var phase: Phase

    ghost function State(): Watch
      reads this
    {
      Watch(lastPong, readDeadline, due, rearms, phase)
    }

    constructor (idleTimeout: int, connectedAt: int, armedAt: int)
      ensures this.idleTimeout == idleTimeout && State() == Start(idleTimeout, connectedAt, armedAt)
    {
      this.idleTimeout := idleTimeout;
      lastPong := connectedAt;
      readDeadline := Some(connectedAt + idleTimeout);
      due := armedAt + idleTimeout;
      rearms, phase := 0, Watching;
    }

    method HandlePong(at: int)
      modifies this
      ensures State() == Step(idleTimeout, old(State()), Pong(at))
    {
      lastPong := at;
      readDeadline := Some(at + idleTimeout);
    }

    method SetReadDeadline(at: int, deadline: Option<int>)
      modifies this
      ensures State() == Step(idleTimeout, old(State()), DeadlineSet(at, deadline))
    {
      readDeadline := deadline;
    }

    /** One round of the watchdog's loop, which ends when it closes the connection or is stopped. */
    method WatchRound(wake: Wake)
      requires phase.Watching? && !wake.Pong? && !wake.DeadlineSet? && !wake.Activity?
      modifies this
      ensures State() == Step(idleTimeout, old(State()), wake)
    {
      match wake {
        case PingTick(at, sent) =>
          if !sent {
            phase := Closed(PingFailed, at);
          }
        case IdleTimer(at) =>
          var remaining := idleTimeout - (at - lastPong);
          if remaining <= 0 {
            phase := Closed(Idle, at);
            return;
          }
          due := at + remaining;
          rearms := rearms + 1;
        case Stop(_) =>
          phase := Stopped;
      }
    }

    /** A whole connection: the pong handler, the transport and the watchdog's loop, in the order things happen. */
    method Run(wakes: seq<Wake>)
      modifies this
      ensures State() == After(idleTimeout, old(State()), wakes)
    {
      var next := 0;
      while next < |wakes|
        invariant 0 <= next <= |wakes|
        invariant After(idleTimeout, State(), wakes[next..]) == After(idleTimeout, old(State()), wakes)
      {
        var wake := wakes[next];
        assert wakes[next..][1..] == wakes[next + 1..];
        next := next + 1;
        match wake {
          case Pong(at) =>
            HandlePong(at);
          case DeadlineSet(at, deadline) =>
            SetReadDeadline(at, deadline);
          case Activity(_) =>
          case _ =>
            if phase.Watching? {
              WatchRound(wake);
            }
        }
      }
    }
  }

  // ---- How a watchdog ends ----

  function NextPong(last: int, wake: Wake): int {
    if wake.Pong? then wake.at else last
  }

  /** After the end of the watchdog its verdict stands. */
  lemma {:induction false} VerdictStands(idleTimeout: int, w: Watch, wakes: seq<Wake>)
    requires !w.phase.Watching?
    ensures After(idleTimeout, w, wakes).phase == w.phase
    decreases wakes
  {
    if wakes != [] {
      VerdictStands(idleTimeout, Step(idleTimeout, w, wakes[0]), wakes[1..]);
    }
  }

  /** The wakes that end a watchdog: it is stopped, it cannot send a ping, or its timer finds no recent pong. */
  predicate Ends(idleTimeout: int, last: int, wake: Wake) {
    || wake.Stop?
    || (wake.PingTick? && !wake.sent)
    || (wake.IdleTimer? && wake.at >= last + idleTimeout)
  }

  function FirstEnd(idleTimeout: int, last: int, wakes: seq<Wake>): Option<Wake>
    decreases wakes
  {
    if wakes == [] then None
    else if Ends(idleTimeout, last, wakes[0]) then Some(wakes[0])
    else FirstEnd(idleTimeout, NextPong(last, wakes[0]), wakes[1..])
  }

  /**
   Whatever happens, the first wake that ends the watchdog decides how: a failed ping and a timer that
   finds no pong close the connection at that moment, each for its own reason, and a stop stops it.
   Without any, it is watching.
   */
  lemma {:induction false} FirstEndDecides(idleTimeout: int, w: Watch, wakes: seq<Wake>)
    requires w.phase.Watching?
    ensures var end, phase := FirstEnd(idleTimeout, w.lastPong, wakes), After(idleTimeout, w, wakes).phase;
            && (phase.Watching? <==> end.None?)
            && (phase.Stopped? <==> end.Some? && end.value.Stop?)
            && (forall at :: phase == Closed(PingFailed, at) <==> end == Some(PingTick(at, false)))
            && (forall at :: phase == Closed(Idle, at) <==> end == Some(IdleTimer(at)))
    decreases wakes
  {
    if wakes != [] {
      var w' := Step(idleTimeout, w, wakes[0]);
      if w'.phase.Watching? {
        FirstEndDecides(idleTimeout, w', wakes[1..]);
      } else {
        VerdictStands(idleTimeout, w', wakes[1..]);
      }
    }
  }

  /** The firings of the timer before the watchdog ends. */
  function Firings(idleTimeout: int, last: int, wakes: seq<Wake>): nat
    decreases wakes
  {
    if wakes == [] || Ends(idleTimeout, last, wakes[0]) then 0
    else (if wakes[0].IdleTimer? then 1 else 0) + Firings(idleTimeout, NextPong(last, wakes[0]), wakes[1..])
  }

  lemma {:induction false} EndedRearmsNoMore(idleTimeout: int, w: Watch, wakes: seq<Wake>)
    requires !w.phase.Watching?
    ensures After(idleTimeout, w, wakes).rearms == w.rearms
    decreases wakes
  {
    if wakes != [] {
      EndedRearmsNoMore(idleTimeout, Step(idleTimeout, w, wakes[0]), wakes[1..]);
    }
  }

  /** Every firing that does not close re-arms. */
  lemma {:induction false} FiringsRearm(idleTimeout: int, w: Watch, wakes: seq<Wake>)
    requires w.phase.Watching?
    ensures After(idleTimeout, w, wakes).rearms == w.rearms + Firings(idleTimeout, w.lastPong, wakes)
    decreases wakes
  {
    if wakes != [] {
      var w' := Step(idleTimeout, w, wakes[0]);
      if w'.phase.Watching? {
        FiringsRearm(idleTimeout, w', wakes[1..]);
      } else {
        EndedRearmsNoMore(idleTimeout, w', wakes[1..]);
      }
    }
  }

  /** The deadline that the last pong or the transport has set. */
  function LastDeadline(idleTimeout: int, deadline: Option<int>, wakes: seq<Wake>): Option<int>
    decreases wakes
  {
    if wakes == [] then deadline
    else
      var last := wakes[|wakes| - 1];
      if last.Pong? then Some(last.at + idleTimeout)
      else if last.DeadlineSet? then last.deadline
      else LastDeadline(idleTimeout, deadline, wakes[..|wakes| - 1])
  }

  lemma {:induction false} OneMoreWake(idleTimeout: int, w: Watch, wakes: seq<Wake>, wake: Wake)
    ensures After(idleTimeout, w, wakes + [wake]) == Step(idleTimeout, After(idleTimeout, w, wakes), wake)
    decreases wakes
  {
    if wakes == [] {
      assert wakes + [wake] == [wake] && [wake][1..] == [];
    } else {
      assert (wakes + [wake])[1..] == wakes[1..] + [wake];
      OneMoreWake(idleTimeout, Step(idleTimeout, w, wakes[0]), wakes[1..], wake);
    }
  }

  /** Pongs and the transport overwrite each other's read deadline, whatever has become of the watchdog. */
  lemma {:induction false} LastDeadlineStands(idleTimeout: int, w: Watch, wakes: seq<Wake>)
    ensures After(idleTimeout, w, wakes).readDeadline == LastDeadline(idleTimeout, w.readDeadline, wakes)
    decreases wakes
  {
    if wakes != [] {
      var n := |wakes| - 1;
      LastDeadlineStands(idleTimeout, w, wakes[..n]);
      OneMoreWake(idleTimeout, w, wakes[..n], wakes[n]);
      assert wakes[..n] + [wakes[n]] == wakes;
    }
  }

  // ---- Timelines ----

  /**
   A possible timeline: the clock does not go backwards and the idle timer never fires early. When
   `punctual`, nothing happens after the timer is due before it has fired.
   */
  ghost predicate Timeline(idleTimeout: int, w: Watch, now: int, wakes: seq<Wake>, punctual: bool)
    decreases wakes
  {
    wakes == [] ||
    (&& Possible(w, now, wakes[0], punctual)
     && Timeline(idleTimeout, Step(idleTimeout, w, wakes[0]), wakes[0].at, wakes[1..], punctual))
  }

  ghost predicate Possible(w: Watch, now: int, wake: Wake, punctual: bool) {
    && now <= wake.at
    && (w.phase.Watching? && wake.IdleTimer? ==> w.due <= wake.at)
    && (w.phase.Watching? && punctual ==> wake.at <= w.due)
  }

  function TimeAfter(now: int, wakes: seq<Wake>): int {
    if wakes == [] then now else wakes[|wakes| - 1].at
  }

  function Pongs(wakes: seq<Wake>): nat {
    if wakes == [] then 0 else (if wakes[0].Pong? then 1 else 0) + Pongs(wakes[1..])
  }

  function Max(a: int, b: int): int {
    if a < b then b else a
  }

  /** The timer is due one idle timeout after the arming or after some pong that was the last when it was set. */
  ghost predicate Armed(idleTimeout: int, armedAt: int, w: Watch, now: int) {
    && w.lastPong <= now && armedAt <= now
    && (w.phase.Watching? ==> armedAt + idleTimeout <= w.due <= Max(w.lastPong, armedAt) + idleTimeout)
  }

  /** When the timer is punctual, it has always fired by the time it is due. */
  ghost predicate OnTime(w: Watch, now: int) {
    w.phase.Watching? ==> now <= w.due
  }

  lemma StepKeepsArmed(idleTimeout: int, armedAt: int, w: Watch, now: int, wake: Wake, punctual: bool)
    requires idleTimeout > 0 && Armed(idleTimeout, armedAt, w, now) && Possible(w, now, wake, punctual)
    requires punctual ==> OnTime(w, now)
    ensures Armed(idleTimeout, armedAt, Step(idleTimeout, w, wake), wake.at)
    ensures punctual ==> OnTime(Step(idleTimeout, w, wake), wake.at)
  {
  }

  /** Every wake of a timeline is possible in the state that the wakes before it leave. */
  lemma {:induction false} TimelineAt(idleTimeout: int, armedAt: int, w: Watch, now: int, wakes: seq<Wake>,
                                      punctual: bool, i: nat)
    requires idleTimeout > 0 && Timeline(idleTimeout, w, now, wakes, punctual) && Armed(idleTimeout, armedAt, w, now)
    requires (punctual ==> OnTime(w, now)) && i <= |wakes|
    ensures var before, time := After(idleTimeout, w, wakes[..i]), TimeAfter(now, wakes[..i]);
            && Armed(idleTimeout, armedAt, before, time) && (punctual ==> OnTime(before, time))
            && (i < |wakes| ==> Possible(before, time, wakes[i], punctual))
            && After(idleTimeout, w, wakes) == After(idleTimeout, before, wakes[i..])
    decreases i
  {
    if i > 0 {
      StepKeepsArmed(idleTimeout, armedAt, w, now, wakes[0], punctual);
      TimelineAt(idleTimeout, armedAt, Step(idleTimeout, w, wakes[0]), wakes[0].at, wakes[1..], punctual, i - 1);
      assert wakes[..i][1..] == wakes[1..][..i - 1] && wakes[1..][i - 1..] == wakes[i..];
    }
  }

  /** The idle timer's wake `i` is the one at which the watchdog closed the connection. */
  ghost predicate ClosedBy(idleTimeout: int, w: Watch, wakes: seq<Wake>, i: int) {
    && 0 <= i < |wakes| && After(idleTimeout, w, wakes[..i]).phase.Watching?
    && After(idleTimeout, w, wakes).phase == Closed(Idle, wakes[i].at)
    && wakes[i].IdleTimer? && wakes[i].at - After(idleTimeout, w, wakes[..i]).lastPong >= idleTimeout
  }

  predicate IsIdleClose(phase: Phase) {
    phase.Closed? && phase.reason.Idle?
  }

  lemma {:induction false} ClosingWake(idleTimeout: int, w: Watch, wakes: seq<Wake>) returns (i: nat)
    requires w.phase.Watching? && IsIdleClose(After(idleTimeout, w, wakes).phase)
    ensures ClosedBy(idleTimeout, w, wakes, i)
    decreases wakes
  {
    var w' := Step(idleTimeout, w, wakes[0]);
    if w'.phase.Watching? {
      var i' := ClosingWake(idleTimeout, w', wakes[1..]);
      i := i' + 1;
      assert wakes[..i][1..] == wakes[1..][..i'];
    } else {
      VerdictStands(idleTimeout, w', wakes[1..]);
      i := 0;
    }
  }

  /** The connection knows its last pong: none that came before is later. */
  lemma {:induction false} PongsAreSeen(idleTimeout: int, w: Watch, now: int, wakes: seq<Wake>, punctual: bool)
    requires Timeline(idleTimeout, w, now, wakes, punctual) && w.lastPong <= now
    ensures w.lastPong <= After(idleTimeout, w, wakes).lastPong
    ensures forall j :: 0 <= j < |wakes| && wakes[j].Pong? ==> wakes[j].at <= After(idleTimeout, w, wakes).lastPong
    decreases wakes
  {
    if wakes != [] {
      PongsAreSeen(idleTimeout, Step(idleTimeout, w, wakes[0]), wakes[0].at, wakes[1..], punctual);
      assert forall j :: 0 < j < |wakes| ==> wakes[j] == wakes[1..][j - 1];
    }
  }

  lemma {:induction false} PrefixIsTimeline(idleTimeout: int, w: Watch, now: int, wakes: seq<Wake>, punctual: bool,
                                            i: nat)
    requires Timeline(idleTimeout, w, now, wakes, punctual) && i <= |wakes|
    ensures Timeline(idleTimeout, w, now, wakes[..i], punctual)
    decreases i
  {
    if i > 0 {
      PrefixIsTimeline(idleTimeout, Step(idleTimeout, w, wakes[0]), wakes[0].at, wakes[1..], punctual, i - 1);
      assert wakes[..i][1..] == wakes[1..][..i - 1];
    }
  }

  /**
   Whatever the transport does to the read deadline and however late the idle timer fires: when the
   watchdog closes a peer, it has watched it for the whole idle timeout, and every pong that came
   before is at least that old.
   */
  lemma NeverClosesEarly(idleTimeout: int, connectedAt: int, armedAt: int, wakes: seq<Wake>, punctual: bool)
    requires idleTimeout > 0 && connectedAt <= armedAt
    requires Timeline(idleTimeout, Start(idleTimeout, connectedAt, armedAt), armedAt, wakes, punctual)
    ensures var start := Start(idleTimeout, connectedAt, armedAt);
            IsIdleClose(After(idleTimeout, start, wakes).phase) ==>
              exists i :: ClosedBy(idleTimeout, start, wakes, i)
                          && wakes[i].at - armedAt >= idleTimeout
                          && forall j :: 0 <= j < i && wakes[j].Pong? ==> wakes[i].at - wakes[j].at >= idleTimeout
  {
    var start := Start(idleTimeout, connectedAt, armedAt);
    if IsIdleClose(After(idleTimeout, start, wakes).phase) {
      var i := ClosingWake(idleTimeout, start, wakes);
      TimelineAt(idleTimeout, armedAt, start, armedAt, wakes, punctual, i);
      PrefixIsTimeline(idleTimeout, start, armedAt, wakes, punctual, i);
      PongsAreSeen(idleTimeout, start, armedAt, wakes[..i], punctual);
      assert forall j :: 0 <= j < i ==> wakes[..i][j] == wakes[j];
    }
  }

  /**
   With a punctual timer the watchdog closes at exactly one instant, whatever stands on the socket as
   its read deadline: one idle timeout after the last pong, or after the arming if the last pong is
   older. Until then it is still watching.
   */
  lemma ClosesExactlyOnTime(idleTimeout: int, connectedAt: int, armedAt: int, wakes: seq<Wake>)
    requires idleTimeout > 0 && connectedAt <= armedAt
    requires Timeline(idleTimeout, Start(idleTimeout, connectedAt, armedAt), armedAt, wakes, true)
    ensures var start := Start(idleTimeout, connectedAt, armedAt);
            var w := After(idleTimeout, start, wakes);
            var deadline := Max(w.lastPong, armedAt) + idleTimeout;
            && (IsIdleClose(w.phase) ==>
                  exists i :: ClosedBy(idleTimeout, start, wakes, i)
                              && wakes[i].at == Max(After(idleTimeout, start, wakes[..i]).lastPong, armedAt)
                                 + idleTimeout)
            && (w.phase.Watching? ==> TimeAfter(armedAt, wakes) <= w.due <= deadline)
            && (w.phase.Watching? && w.due == deadline ==>
                  Step(idleTimeout, w, IdleTimer(w.due)).phase == Closed(Idle, deadline))
            && (w.phase.Watching? && w.due < deadline ==>
                  Step(idleTimeout, w, IdleTimer(w.due)) == w.(due := deadline, rearms := w.rearms + 1))
  {
    var start := Start(idleTimeout, connectedAt, armedAt);
    TimelineAt(idleTimeout, armedAt, start, armedAt, wakes, true, |wakes|);
    assert wakes[..|wakes|] == wakes;
    if IsIdleClose(After(idleTimeout, start, wakes).phase) {
      var i := ClosingWake(idleTimeout, start, wakes);
      TimelineAt(idleTimeout, armedAt, start, armedAt, wakes, true, i);
    }
  }

  lemma {:induction false} RearmsFrom(idleTimeout: int, armedAt: int, w: Watch, now: int, wakes: seq<Wake>, pongs: nat)
    requires idleTimeout > 0 && Timeline(idleTimeout, w, now, wakes, false) && Armed(idleTimeout, armedAt, w, now)
    requires w.rearms + (if w.lastPong + idleTimeout > w.due then 1 else 0) <= pongs
    ensures After(idleTimeout, w, wakes).rearms <= pongs + Pongs(wakes)
    decreases wakes
  {
    if wakes != [] {
      var w' := Step(idleTimeout, w, wakes[0]);
      var pongs' := pongs + if wakes[0].Pong? then 1 else 0;
      StepKeepsArmed(idleTimeout, armedAt, w, now, wakes[0], false);
      RearmsFrom(idleTimeout, armedAt, w', wakes[0].at, wakes[1..], pongs');
    }
  }

  /** Every re-arming was earned by a pong that the previous arming had not seen. */
  lemma RearmsNeedPongs(idleTimeout: int, connectedAt: int, armedAt: int, wakes: seq<Wake>)
    requires idleTimeout > 0 && connectedAt <= armedAt
    requires Timeline(idleTimeout, Start(idleTimeout, connectedAt, armedAt), armedAt, wakes, false)
    ensures After(idleTimeout, Start(idleTimeout, connectedAt, armedAt), wakes).rearms <= Pongs(wakes)
  {
    RearmsFrom(idleTimeout, armedAt, Start(idleTimeout, connectedAt, armedAt), armedAt, wakes, 0);
  }
}
