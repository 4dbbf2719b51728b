/**
 Which peers the watchdog keeps. Only pongs count: neither other traffic nor what the transport does
 to the read deadline makes a difference. A peer that answers its pings in time is kept under every
 configuration, and the time it is given cannot be made any longer.
 */
module LivePeers {
  import opened Collections
  import opened Keepalive

  // ---- Only pongs count ----

  /** The wakes without other traffic and without changes to the read deadline. */
  function Essential(wakes: seq<Wake>): seq<Wake> {
    if wakes == [] then []
    else (if wakes[0].Activity? || wakes[0].DeadlineSet? then [] else [wakes[0]]) + Essential(wakes[1..])
  }

  lemma {:induction false} DeadlinesDoNotMatterFrom(idleTimeout: int, w: Watch, readDeadline: Option<int>,
          wakes: seq<Wake>)
    ensures After(idleTimeout, w.(readDeadline := readDeadline), Essential(wakes)).phase
            == After(idleTimeout, w, wakes).phase
    ensures After(idleTimeout, w.(readDeadline := readDeadline), Essential(wakes)).due
            == After(idleTimeout, w, wakes).due
    decreases wakes
  {
    if wakes != [] {
      var w', v := Step(idleTimeout, w, wakes[0]), w.(readDeadline := readDeadline);
      if wakes[0].Activity? || wakes[0].DeadlineSet? {
        assert Essential(wakes) == Essential(wakes[1..]);
        assert w'.(readDeadline := readDeadline) == v;
        DeadlinesDoNotMatterFrom(idleTimeout, w', readDeadline, wakes[1..]);
      } else {
        var v' := Step(idleTimeout, v, wakes[0]);
        assert Essential(wakes)[1..] == Essential(wakes[1..]);
        assert v' == w'.(readDeadline := v'.readDeadline);
        DeadlinesDoNotMatterFrom(idleTimeout, w', v'.readDeadline, wakes[1..]);
      }
    }
  }

  /** Other traffic, and whatever becomes of the read deadline, changes neither the watchdog's verdict nor its timer. */
  lemma OnlyPongsCount(idleTimeout: int, w: Watch, wakes: seq<Wake>)
    ensures After(idleTimeout, w, Essential(wakes)).phase == After(idleTimeout, w, wakes).phase
    ensures After(idleTimeout, w, Essential(wakes)).due == After(idleTimeout, w, wakes).due
  {
    DeadlinesDoNotMatterFrom(idleTimeout, w, w.readDeadline, wakes);
  }

  /** Whatever happens, less than the idle timeout has passed since the peer last sent anything. */
  predicate ActiveThroughout(idleTimeout: int, last: int, wakes: seq<Wake>)
    decreases wakes
  {
    wakes == [] ||
    (wakes[0].at < last + idleTimeout
     && ActiveThroughout(idleTimeout, if wakes[0].Activity? || wakes[0].Pong? then wakes[0].at else last, wakes[1..]))
  }

  /** The goroutine is neither stopped nor finds the socket broken. */
  predicate LeftAlone(wakes: seq<Wake>) {
    forall i :: 0 <= i < |wakes| ==> !wakes[i].Stop? && (wakes[i].PingTick? ==> wakes[i].sent)
  }

  /** Whenever the idle timer fires, less than the idle timeout has passed since the last pong. */
  predicate FiringsFindPongs(idleTimeout: int, last: int, wakes: seq<Wake>)
    decreases wakes
  {
    wakes == [] ||
    ((wakes[0].IdleTimer? ==> wakes[0].at < last + idleTimeout)
     && FiringsFindPongs(idleTimeout, NextPong(last, wakes[0]), wakes[1..]))
  }

  /** Whatever happens, less than the idle timeout has passed since the last pong. */
  predicate PongGapsBelow(idleTimeout: int, last: int, wakes: seq<Wake>)
    decreases wakes
  {
    wakes == [] ||
    (wakes[0].at < last + idleTimeout && PongGapsBelow(idleTimeout, NextPong(last, wakes[0]), wakes[1..]))
  }

  /** At the instant at which it is due, the timer fires before anything else happens. */
  ghost predicate TimerGoesFirst(idleTimeout: int, w: Watch, wakes: seq<Wake>)
    decreases wakes
  {
    wakes == [] ||
    ((w.phase.Watching? && wakes[0].at == w.due ==> wakes[0].IdleTimer?)
     && TimerGoesFirst(idleTimeout, Step(idleTimeout, w, wakes[0]), wakes[1..]))
  }

  lemma LastPongMoves(idleTimeout: int, armedAt: int, w: Watch, now: int, wake: Wake)
    requires Armed(idleTimeout, armedAt, w, now) && now <= wake.at
    ensures Max(Step(idleTimeout, w, wake).lastPong, armedAt) == NextPong(Max(w.lastPong, armedAt), wake)
  {
  }

  lemma {:induction false} KeptFrom(idleTimeout: int, armedAt: int, w: Watch, now: int, wakes: seq<Wake>,
                                    punctual: bool)
    requires idleTimeout > 0 && w.phase.Watching? && LeftAlone(wakes)
    requires Timeline(idleTimeout, w, now, wakes, punctual) && Armed(idleTimeout, armedAt, w, now)
             && (punctual ==> OnTime(w, now))
    ensures var isKept := After(idleTimeout, w, wakes).phase.Watching?;
            && (isKept <==> FiringsFindPongs(idleTimeout, Max(w.lastPong, armedAt), wakes))
            && (punctual && TimerGoesFirst(idleTimeout, w, wakes) ==>
                  (isKept <==> PongGapsBelow(idleTimeout, Max(w.lastPong, armedAt), wakes)))
    decreases wakes
  {
    if wakes != [] {
      var wake, w' := wakes[0], Step(idleTimeout, w, wakes[0]);
      LastPongMoves(idleTimeout, armedAt, w, now, wake);
      StepKeepsArmed(idleTimeout, armedAt, w, now, wake, punctual);
      assert !wakes[0].Stop?;
      assert forall i :: 0 <= i < |wakes[1..]| ==> wakes[1..][i] == wakes[i + 1];
      if w'.phase.Watching? {
        KeptFrom(idleTimeout, armedAt, w', wake.at, wakes[1..], punctual);
      } else {
        VerdictStands(idleTimeout, w', wakes[1..]);
      }
    }
  }

  /**
   On every timeline, however late the timer fires, a connection that is left alone is kept exactly
   when each firing of the timer finds a pong, or the arming, within the idle timeout.
   */
  lemma KeptIffFiringsFindPongs(idleTimeout: int, connectedAt: int, armedAt: int, wakes: seq<Wake>)
    requires idleTimeout > 0 && connectedAt <= armedAt && LeftAlone(wakes)
    requires Timeline(idleTimeout, Start(idleTimeout, connectedAt, armedAt), armedAt, wakes, false)
    ensures After(idleTimeout, Start(idleTimeout, connectedAt, armedAt), wakes).phase.Watching?
            <==> FiringsFindPongs(idleTimeout, armedAt, wakes)
  {
    KeptFrom(idleTimeout, armedAt, Start(idleTimeout, connectedAt, armedAt), armedAt, wakes, false);
  }

  /**
   With a punctual timer, a peer is kept exactly as long as the gaps between its pongs stay below the
   idle timeout, however active it is otherwise.
   */
  lemma KeptIffPongGapsBelow(idleTimeout: int, connectedAt: int, armedAt: int, wakes: seq<Wake>)
    requires idleTimeout > 0 && connectedAt <= armedAt && LeftAlone(wakes)
    requires Timeline(idleTimeout, Start(idleTimeout, connectedAt, armedAt), armedAt, wakes, true)
    requires TimerGoesFirst(idleTimeout, Start(idleTimeout, connectedAt, armedAt), wakes)
    ensures After(idleTimeout, Start(idleTimeout, connectedAt, armedAt), wakes).phase.Watching?
            <==> PongGapsBelow(idleTimeout, armedAt, wakes)
  {
    KeptFrom(idleTimeout, armedAt, Start(idleTimeout, connectedAt, armedAt), armedAt, wakes, true);
  }

  // ---- A peer that answers its pings ----

  /** Pings follow each other, and the start, at most `gap` apart, up to the end of the timeline. */
  predicate PingsOnTime(gap: int, lastPing: int, wakes: seq<Wake>)
    decreases wakes
  {
    wakes == [] ||
    (wakes[0].at <= lastPing + gap
     && PingsOnTime(gap, if wakes[0].PingTick? then wakes[0].at else lastPing, wakes[1..]))
  }

  /** The first ping not yet answered; a pong answers every ping before it. */
  function NextUnanswered(unanswered: Option<int>, wake: Wake): Option<int> {
    match wake
    case PingTick(at, sent) => if sent && unanswered.None? then Some(at) else unanswered
    case Pong(_) => None
    case _ => unanswered
  }

  /** Nothing happens more than `delay` after a ping before a pong has come. */
  predicate AnswersPings(delay: int, unanswered: Option<int>, wakes: seq<Wake>)
    decreases wakes
  {
    wakes == [] ||
    ((unanswered.Some? ==> wakes[0].at <= unanswered.value + delay)
     && AnswersPings(delay, NextUnanswered(unanswered, wakes[0]), wakes[1..]))
  }

  predicate PingsAllSent(wakes: seq<Wake>) {
    forall i :: 0 <= i < |wakes| && wakes[i].PingTick? ==> wakes[i].sent
  }

  // ---- Being active is not enough ----

  /** Pings go out on time until `end`, and the peer answers each at once, but with anything other than a pong. */
  function ActivePeer(pingInterval: int, nextPing: int, end: int): seq<Wake>
    requires pingInterval > 0
    decreases end - nextPing
  {
    if nextPing < end then
      [PingTick(nextPing, true)] + ([Activity(nextPing)] + ActivePeer(pingInterval, nextPing + pingInterval, end))
    else [IdleTimer(end)]
  }

  lemma {:induction false} ActivePeerFrom(idleTimeout: int, pingInterval: int, w: Watch, now: int, nextPing: int,
                                          end: int)
    requires 0 < pingInterval < idleTimeout && w.phase.Watching? && w.due == end == w.lastPong + idleTimeout
    requires now <= nextPing && now <= end
    ensures var wakes := ActivePeer(pingInterval, nextPing, end);
            && Timeline(idleTimeout, w, now, wakes, true)
            && PingsAllSent(wakes) && PingsOnTime(pingInterval, nextPing - pingInterval, wakes)
            && ActiveThroughout(idleTimeout, nextPing - pingInterval, wakes) && Pongs(wakes) == 0
            && After(idleTimeout, w, wakes).phase == Closed(Idle, end)
    decreases end - nextPing
  {
    var wakes := ActivePeer(pingInterval, nextPing, end);
    if nextPing < end {
      var rest := ActivePeer(pingInterval, nextPing + pingInterval, end);
      ActivePeerFrom(idleTimeout, pingInterval, w, nextPing, nextPing + pingInterval, end);
      var tail := [Activity(nextPing)] + rest;
      assert wakes[1..] == tail && tail[1..] == rest;
      assert Timeline(idleTimeout, w, nextPing, tail, true);
      assert PingsOnTime(pingInterval, nextPing, tail) && ActiveThroughout(idleTimeout, nextPing - pingInterval, tail);
      assert Pongs(tail) == 0 && After(idleTimeout, w, tail) == After(idleTimeout, w, rest);
      assert forall i :: 2 <= i < |wakes| ==> wakes[i] == rest[i - 2];
    } else {
      assert wakes[1..] == [];
    }
  }

  /**
   Being active is not enough: a peer that is pinged on time and never silent for an idle timeout,
   but sends no pong, is closed all the same.
   */
  lemma ActivePeerIsClosed(cfg: BridgeConfig, startedAt: int)
    requires Runs(cfg) && cfg.idleTimeout > 0
    ensures exists wakes: seq<Wake> ::
              && Timeline(cfg.idleTimeout, Start(cfg.idleTimeout, startedAt, startedAt), startedAt, wakes, true)
              && PingsAllSent(wakes) && PingsOnTime(cfg.pingInterval, startedAt, wakes)
              && ActiveThroughout(cfg.idleTimeout, startedAt, wakes) && Pongs(wakes) == 0
              && After(cfg.idleTimeout, Start(cfg.idleTimeout, startedAt, startedAt), wakes).phase
                 == Closed(Idle, startedAt + cfg.idleTimeout)
  {
    RunningConfigs(cfg);
    ActivePeerFrom(cfg.idleTimeout, cfg.pingInterval, Start(cfg.idleTimeout, startedAt, startedAt), startedAt,
                   startedAt + cfg.pingInterval, startedAt + cfg.idleTimeout);
  }

  // ---- Answering in time is enough ----

  /**
   How pings and pongs stand: with every ping answered the last ping is no later than the last pong;
   otherwise the first open one came soon after it.
   */
  ghost predicate PingsAndPongs(gap: int, last: int, lastPing: int, unanswered: Option<int>) {
    if unanswered.None? then lastPing <= last else unanswered.value <= last + gap
  }

  /** Every wake comes within `gap + delay` of the last pong before it, or of the start. */
  lemma {:induction false} WakesFollowPongs(idleTimeout: int, gap: int, delay: int, startedAt: int, w: Watch, now: int,
                                            lastPing: int, unanswered: Option<int>, wakes: seq<Wake>, i: nat)
    requires idleTimeout > 0 && gap > 0 && delay >= 0 && i < |wakes| && PingsAllSent(wakes)
    requires Timeline(idleTimeout, w, now, wakes, false) && Armed(idleTimeout, startedAt, w, now) && lastPing <= now
    requires PingsOnTime(gap, lastPing, wakes) && AnswersPings(delay, unanswered, wakes)
    requires PingsAndPongs(gap, Max(w.lastPong, startedAt), lastPing, unanswered)
    ensures wakes[i].at <= Max(After(idleTimeout, w, wakes[..i]).lastPong, startedAt) + gap + delay
    decreases wakes
  {
    if i > 0 {
      var wake, w' := wakes[0], Step(idleTimeout, w, wakes[0]);
      StepKeepsArmed(idleTimeout, startedAt, w, now, wake, false);
      LastPongMoves(idleTimeout, startedAt, w, now, wake);
      assert forall j :: 0 <= j < |wakes[1..]| ==> wakes[1..][j] == wakes[j + 1];
      assert wakes[..i][1..] == wakes[1..][..i - 1];
      WakesFollowPongs(idleTimeout, gap, delay, startedAt, w', wake.at, if wake.PingTick? then wake.at else lastPing,
                       NextUnanswered(unanswered, wake), wakes[1..], i - 1);
    }
  }

  /** The peer answers the pings that this connection really sends, from the start on. */
  ghost predicate IsAnswering(gap: int, delay: int, startedAt: int, wakes: seq<Wake>) {
    PingsAllSent(wakes) && PingsOnTime(gap, startedAt, wakes) && AnswersPings(delay, None, wakes)
  }

  /** A peer that is closed for idleness was at some point at least this slow to answer. */
  lemma ClosedPeerWasSlow(idleTimeout: int, gap: int, delay: int, connectedAt: int, startedAt: int, wakes: seq<Wake>)
    requires 0 < gap && 0 < idleTimeout && 0 <= delay && connectedAt <= startedAt
    requires Timeline(idleTimeout, Start(idleTimeout, connectedAt, startedAt), startedAt, wakes, false)
    requires IsAnswering(gap, delay, startedAt, wakes)
    requires IsIdleClose(After(idleTimeout, Start(idleTimeout, connectedAt, startedAt), wakes).phase)
    ensures delay >= idleTimeout - gap
  {
    var start := Start(idleTimeout, connectedAt, startedAt);
    var i := ClosingWake(idleTimeout, start, wakes);
    TimelineAt(idleTimeout, startedAt, start, startedAt, wakes, false, i);
    WakesFollowPongs(idleTimeout, gap, delay, startedAt, start, startedAt, startedAt, None, wakes, i);
  }

  /**
   Under every configuration a handler can run with, a peer that answers each ping within any
   delay below the idle timeout less the ping interval is never closed for idleness, on any
   timeline, whatever else it sends and whatever becomes of the read deadline.
   */
  lemma LivePeerIsNeverClosed(cfg: BridgeConfig, delay: int, connectedAt: int, startedAt: int, wakes: seq<Wake>)
    requires Runs(cfg) && cfg.idleTimeout > 0 && connectedAt <= startedAt
    requires 0 <= delay < cfg.idleTimeout - cfg.pingInterval
    requires Timeline(cfg.idleTimeout, Start(cfg.idleTimeout, connectedAt, startedAt), startedAt, wakes, false)
    requires IsAnswering(cfg.pingInterval, delay, startedAt, wakes)
    ensures !IsIdleClose(After(cfg.idleTimeout, Start(cfg.idleTimeout, connectedAt, startedAt), wakes).phase)
  {
    RunningConfigs(cfg);
    if IsIdleClose(After(cfg.idleTimeout, Start(cfg.idleTimeout, connectedAt, startedAt), wakes).phase) {
      ClosedPeerWasSlow(cfg.idleTimeout, cfg.pingInterval, delay, connectedAt, startedAt, wakes);
    }
  }

  /** Where the transport leaves the read deadline alone, it lies one idle timeout after the last pong. */
  lemma {:induction false} DeadlineFollowsPongs(idleTimeout: int, w: Watch, wakes: seq<Wake>)
    requires w.readDeadline == Some(w.lastPong + idleTimeout) && forall i :: 0 <= i < |wakes| ==> !wakes[i].DeadlineSet?
    ensures After(idleTimeout, w, wakes).readDeadline == Some(After(idleTimeout, w, wakes).lastPong + idleTimeout)
    decreases wakes
  {
    if wakes != [] {
      assert !wakes[0].DeadlineSet?;
      DeadlineFollowsPongs(idleTimeout, Step(idleTimeout, w, wakes[0]), wakes[1..]);
    }
  }

  /**
   The read deadline is a second way to lose such a peer, and it does not strike either: as long as
   the transport has left the deadline alone, everything that happens, happens before it. The only
   slack is the time between connecting and arming, and only until the first pong.
   */
  lemma LivePeerBeatsTheReadDeadline(cfg: BridgeConfig, delay: int, connectedAt: int, startedAt: int,
                                     wakes: seq<Wake>, i: nat)
    requires Runs(cfg) && cfg.idleTimeout > 0 && connectedAt <= startedAt && i < |wakes|
    requires 0 <= delay < cfg.idleTimeout - cfg.pingInterval
    requires Timeline(cfg.idleTimeout, Start(cfg.idleTimeout, connectedAt, startedAt), startedAt, wakes, false)
    requires IsAnswering(cfg.pingInterval, delay, startedAt, wakes)
    requires forall j :: 0 <= j < i ==> !wakes[j].DeadlineSet?
    ensures var before := After(cfg.idleTimeout, Start(cfg.idleTimeout, connectedAt, startedAt), wakes[..i]);
            && before.readDeadline == Some(before.lastPong + cfg.idleTimeout)
            && wakes[i].at < before.readDeadline.value + (startedAt - connectedAt)
            && (before.lastPong >= startedAt ==> wakes[i].at < before.readDeadline.value)
  {
    RunningConfigs(cfg);
    var start := Start(cfg.idleTimeout, connectedAt, startedAt);
    WakesFollowPongs(cfg.idleTimeout, cfg.pingInterval, delay, startedAt, start, startedAt, startedAt, None, wakes, i);
    DeadlineFollowsPongs(cfg.idleTimeout, start, wakes[..i]);
    NeverBeforeConnecting(cfg.idleTimeout, connectedAt, startedAt, wakes, i);
  }

  lemma NeverBeforeConnecting(idleTimeout: int, connectedAt: int, startedAt: int, wakes: seq<Wake>, i: nat)
    requires connectedAt <= startedAt && i <= |wakes|
    requires Timeline(idleTimeout, Start(idleTimeout, connectedAt, startedAt), startedAt, wakes, false)
    ensures connectedAt <= After(idleTimeout, Start(idleTimeout, connectedAt, startedAt), wakes[..i]).lastPong
  {
    var start := Start(idleTimeout, connectedAt, startedAt);
    PrefixIsTimeline(idleTimeout, start, startedAt, wakes, false, i);
    PongsAreSeen(idleTimeout, start, startedAt, wakes[..i], false);
  }

  // ---- The bound is the largest ----

  /** Pings go out and no pong comes; the idle timer fires when it is due, the last time at `end`. */
  function Unanswered(pingInterval: int, nextPing: int, due: int, end: int): (wakes: seq<Wake>)
    requires pingInterval > 0 && due <= end
    decreases if due < end then 1 else 0, end + 1 - nextPing
  {
    if nextPing <= due then [PingTick(nextPing, true)] + Unanswered(pingInterval, nextPing + pingInterval, due, end)
    else if due < end then [IdleTimer(due)] + Unanswered(pingInterval, nextPing, end, end)
    else [IdleTimer(end)]
  }

  lemma {:induction false} UnansweredIsClosed(idleTimeout: int, pingInterval: int, w: Watch, now: int, nextPing: int,
                                              end: int)
    requires pingInterval > 0 && idleTimeout > 0 && w.phase.Watching? && w.lastPong + idleTimeout == end && w.due <= end
    requires now <= nextPing && now <= w.due
    ensures var wakes := Unanswered(pingInterval, nextPing, w.due, end);
            && Timeline(idleTimeout, w, now, wakes, true)
            && After(idleTimeout, w, wakes).phase == Closed(Idle, end)
    decreases if w.due < end then 1 else 0, end + 1 - nextPing
  {
    var wakes := Unanswered(pingInterval, nextPing, w.due, end);
    var w' := Step(idleTimeout, w, wakes[0]);
    if nextPing <= w.due {
      UnansweredIsClosed(idleTimeout, pingInterval, w', nextPing, nextPing + pingInterval, end);
      assert wakes[1..] == Unanswered(pingInterval, nextPing + pingInterval, w.due, end);
    } else if w.due < end {
      UnansweredIsClosed(idleTimeout, pingInterval, w', w.due, nextPing, end);
      assert wakes[1..] == Unanswered(pingInterval, nextPing, end, end);
    } else {
      assert wakes[1..] == [];
    }
  }

  lemma {:induction false} UnansweredIsStillInTime(pingInterval: int, delay: int, nextPing: int, due: int, end: int,
          unanswered: Option<int>)
    requires pingInterval > 0 && due <= end <= nextPing + delay
             && (unanswered.Some? ==> end <= unanswered.value + delay)
    ensures var wakes := Unanswered(pingInterval, nextPing, due, end);
            && PingsAllSent(wakes) && PingsOnTime(pingInterval, nextPing - pingInterval, wakes)
            && AnswersPings(delay, unanswered, wakes)
    decreases if due < end then 1 else 0, end + 1 - nextPing
  {
    var wakes := Unanswered(pingInterval, nextPing, due, end);
    if nextPing <= due {
      UnansweredIsStillInTime(pingInterval, delay, nextPing + pingInterval, due, end,
                              NextUnanswered(unanswered, wakes[0]));
      assert wakes[1..] == Unanswered(pingInterval, nextPing + pingInterval, due, end);
    } else if due < end {
      UnansweredIsStillInTime(pingInterval, delay, nextPing, end, end, unanswered);
      assert wakes[1..] == Unanswered(pingInterval, nextPing, end, end);
    } else {
      assert wakes[1..] == [];
    }
    assert forall i :: 0 < i < |wakes| ==> wakes[i] == wakes[1..][i - 1];
  }

  /** The peer answers the first ping at once and would answer the second exactly when the timer closes it. */
  function SlowPeer(pingInterval: int, idleTimeout: int, startedAt: int): seq<Wake>
    requires pingInterval > 0
  {
    [PingTick(startedAt + pingInterval, true)] + ([Pong(startedAt + pingInterval)]
      + Unanswered(pingInterval, startedAt + 2 * pingInterval,
                   startedAt + idleTimeout, startedAt + pingInterval + idleTimeout))
  }

  lemma SlowPeerAnswers(pingInterval: int, idleTimeout: int, startedAt: int)
    requires 0 < pingInterval < idleTimeout
    ensures IsAnswering(pingInterval, idleTimeout - pingInterval, startedAt,
                        SlowPeer(pingInterval, idleTimeout, startedAt))
  {
    var wakes, firstPing := SlowPeer(pingInterval, idleTimeout, startedAt), startedAt + pingInterval;
    var rest := Unanswered(pingInterval, firstPing + pingInterval, startedAt + idleTimeout, firstPing + idleTimeout);
    UnansweredIsStillInTime(pingInterval, idleTimeout - pingInterval, firstPing + pingInterval,
                            startedAt + idleTimeout, firstPing + idleTimeout, None);
    assert wakes[1..] == [Pong(firstPing)] + rest && wakes[1..][1..] == rest;
    assert forall i :: 2 <= i < |wakes| ==> wakes[i] == rest[i - 2];
    assert PingsOnTime(pingInterval, firstPing, wakes[1..]);
    assert AnswersPings(idleTimeout - pingInterval, Some(firstPing), wakes[1..]);
  }

  lemma SlowPeerIsClosed(pingInterval: int, idleTimeout: int, startedAt: int)
    requires 0 < pingInterval < idleTimeout
    ensures var start := Start(idleTimeout, startedAt, startedAt);
            var wakes := SlowPeer(pingInterval, idleTimeout, startedAt);
            && Timeline(idleTimeout, start, startedAt, wakes, true)
            && After(idleTimeout, start, wakes).phase == Closed(Idle, startedAt + pingInterval + idleTimeout)
  {
    var start, wakes := Start(idleTimeout, startedAt, startedAt), SlowPeer(pingInterval, idleTimeout, startedAt);
    var firstPing := startedAt + pingInterval;
    var rest := Unanswered(pingInterval, firstPing + pingInterval, startedAt + idleTimeout, firstPing + idleTimeout);
    var w := Step(idleTimeout, start, Pong(firstPing));
    UnansweredIsClosed(idleTimeout, pingInterval, w, firstPing, firstPing + pingInterval, firstPing + idleTimeout);
    assert wakes[1..] == [Pong(firstPing)] + rest && wakes[1..][1..] == rest;
    assert Timeline(idleTimeout, start, firstPing, wakes[1..], true);
    assert After(idleTimeout, start, wakes[1..]) == After(idleTimeout, w, rest);
  }

  /** The room left for an answer cannot be any larger: a peer that answers exactly that late can be closed. */
  lemma SlowerPeerCanBeClosed(cfg: BridgeConfig, startedAt: int)
    requires Runs(cfg) && cfg.idleTimeout > 0
    ensures exists wakes: seq<Wake> ::
              && Timeline(cfg.idleTimeout, Start(cfg.idleTimeout, startedAt, startedAt), startedAt, wakes, true)
              && IsAnswering(cfg.pingInterval, cfg.idleTimeout - cfg.pingInterval, startedAt, wakes)
              && IsIdleClose(After(cfg.idleTimeout, Start(cfg.idleTimeout, startedAt, startedAt), wakes).phase)
  {
    RunningConfigs(cfg);
    SlowPeerAnswers(cfg.pingInterval, cfg.idleTimeout, startedAt);
    SlowPeerIsClosed(cfg.pingInterval, cfg.idleTimeout, startedAt);
  }
}
