/**
 What the abuse guards promise over whole runs: the sweep never changes an answer, no client
 gets more than its rate allows, and a refusal names the exact time at which it ends.
 */
module GuardRuns {
  import opened Collections
  import opened AbuseGuard

  datatype Call =
    | Reserve(remoteHost: string, now: int)
    | Clear(remoteHost: string)

  /** Whether a guard sweeps expired windows: the tunnel's does, the handler package's does not. */
  datatype Policy = Swept | Unswept

  function Step(limits: Limits, policy: Policy, g: GuardState, call: Call): (GuardState, Option<Outcome>) {
    match call
    case Reserve(remoteHost, now) =>
      var (g', outcome) := if policy.Swept? then SweptAttempt(limits, g, ClientKey(remoteHost), now)
                           else Attempt(limits, g, ClientKey(remoteHost), now);
      (g', Some(outcome))
    case Clear(remoteHost) =>
      (Release(g, ClientKey(remoteHost)), None)
  }

  /** The state after a run. */
  function After(limits: Limits, policy: Policy, g: GuardState, calls: seq<Call>): GuardState
    decreases calls
  {
    if calls == [] then g
    else After(limits, policy, Step(limits, policy, g, calls[0]).0, calls[1..])
  }

  /** What each call of a run answered; a clear answers nothing. */
  function Answers(limits: Limits, policy: Policy, g: GuardState, calls: seq<Call>): (answers: seq<Option<Outcome>>)
    ensures |answers| == |calls|
    ensures forall i :: 0 <= i < |calls| ==> (answers[i].Some? <==> calls[i].Reserve?)
    decreases calls
  {
    if calls == [] then []
    else
      var (g', answer) := Step(limits, policy, g, calls[0]);
      [answer] + Answers(limits, policy, g', calls[1..])
  }

  /** Successive attempts read a clock that never goes backwards. */
  predicate Monotone(calls: seq<Call>, clock: int) {
    calls == [] ||
    match calls[0]
    case Reserve(_, now) => clock <= now && Monotone(calls[1..], now)
    case Clear(_) => Monotone(calls[1..], clock)
  }

  function ClockAfter(calls: seq<Call>, clock: int): int {
    if calls == [] then clock
    else ClockAfter(calls[1..], ClockOf(calls[0], clock))
  }

  /** Every stored window was started in the past and was charged at least once, never beyond the limit. */
  ghost predicate WindowsValid(limits: Limits, g: GuardState, clock: int) {
    && (forall key :: key in g.windows ==>
          g.windows[key].startedAt <= clock && 1 <= g.windows[key].count <= limits.maxUpgradesPerWindow)
    && (g.lastSweepAt.Some? ==> g.lastSweepAt.value <= clock)
  }

  function ClockOf(call: Call, clock: int): int {
    if call.Reserve? then call.now else clock
  }

  lemma StepKeepsValid(limits: Limits, policy: Policy, g: GuardState, call: Call, clock: int)
    requires WindowsValid(limits, g, clock) && clock <= ClockOf(call, clock)
    ensures WindowsValid(limits, Step(limits, policy, g, call).0, ClockOf(call, clock))
  {
  }

  lemma {:induction false} WindowsStayValid(limits: Limits, policy: Policy, g: GuardState, calls: seq<Call>, clock: int)
    requires WindowsValid(limits, g, clock) && Monotone(calls, clock)
    ensures WindowsValid(limits, After(limits, policy, g, calls), ClockAfter(calls, clock))
    decreases calls
  {
    if calls != [] {
      StepKeepsValid(limits, policy, g, calls[0], clock);
      WindowsStayValid(limits, policy, Step(limits, policy, g, calls[0]).0, calls[1..],
                       ClockOf(calls[0], clock));
    }
  }

  // ---- Sweeping is invisible ----

  /** The two guards agree, except that the swept one may have forgotten windows that have expired. */
  ghost predicate Agree(swept: GuardState, unswept: GuardState, clock: int) {
    && swept.active == unswept.active
    && swept.clients == unswept.clients
    && (forall key :: key in swept.windows ==>
          key in unswept.windows && swept.windows[key] == unswept.windows[key])
    && (forall key :: key in unswept.windows && key !in swept.windows ==> Expired(unswept.windows[key], clock))
  }

  lemma SweepKeepsAgreement(swept: GuardState, unswept: GuardState, clock: int, now: int)
    requires Agree(swept, unswept, clock) && clock <= now
    ensures Agree(Sweep(swept, now), unswept, now)
  {
  }

  lemma AttemptKeepsAgreement(limits: Limits, swept: GuardState, unswept: GuardState, key: string, now: int)
    requires Agree(swept, unswept, now)
    ensures Attempt(limits, swept, key, now).1 == Attempt(limits, unswept, key, now).1
    ensures Agree(Attempt(limits, swept, key, now).0, Attempt(limits, unswept, key, now).0, now)
  {
    assert CurrentWindow(swept.windows, key, now) == CurrentWindow(unswept.windows, key, now);
  }

  lemma StepKeepsAgreement(limits: Limits, swept: GuardState, unswept: GuardState, call: Call, clock: int)
    requires Agree(swept, unswept, clock) && clock <= ClockOf(call, clock)
    ensures Step(limits, Swept, swept, call).1 == Step(limits, Unswept, unswept, call).1
    ensures Agree(Step(limits, Swept, swept, call).0, Step(limits, Unswept, unswept, call).0,
                  ClockOf(call, clock))
  {
    if call.Reserve? {
      SweepKeepsAgreement(swept, unswept, clock, call.now);
      var forgot := if limits.maxUpgradesPerWindow > 0 then Sweep(swept, call.now) else swept;
      AttemptKeepsAgreement(limits, forgot, unswept, ClientKey(call.remoteHost), call.now);
    }
  }

  lemma {:induction false} SweepingIsInvisible(limits: Limits, swept: GuardState, unswept: GuardState,
                                               calls: seq<Call>, clock: int)
    requires Agree(swept, unswept, clock) && Monotone(calls, clock)
    ensures Answers(limits, Swept, swept, calls) == Answers(limits, Unswept, unswept, calls)
    ensures Agree(After(limits, Swept, swept, calls), After(limits, Unswept, unswept, calls), ClockAfter(calls, clock))
    decreases calls
  {
    if calls != [] {
      StepKeepsAgreement(limits, swept, unswept, calls[0], clock);
      var swept', unswept' := Step(limits, Swept, swept, calls[0]).0, Step(limits, Unswept, unswept, calls[0]).0;
      var clock' := ClockOf(calls[0], clock);
      SweepingIsInvisible(limits, swept', unswept', calls[1..], clock');
    }
  }

  /** From two fresh guards, every run of calls on a monotone clock gets the same answers from both. */
  lemma FreshGuardsAnswerAlike(limits: Limits, calls: seq<Call>, clock: int)
    requires Monotone(calls, clock)
    ensures Answers(limits, Swept, EMPTY_GUARD, calls) == Answers(limits, Unswept, EMPTY_GUARD, calls)
  {
    SweepingIsInvisible(limits, EMPTY_GUARD, EMPTY_GUARD, calls, clock);
  }

  // ---- How many attempts get through ----

  predicate PassedBetween(call: Call, answer: Option<Outcome>, key: string, from: int, to: int) {
    && call.Reserve? && ClientKey(call.remoteHost) == key && from <= call.now < to
    && answer.Some? && answer.value.PassesRateCheck()
  }

  /** The attempts by one client in a half-open interval that passed the rate check. */
  function Passes(calls: seq<Call>, answers: seq<Option<Outcome>>, key: string, from: int, to: int): nat
    requires |answers| == |calls|
  {
    if calls == [] then 0
    else AsCount(PassedBetween(calls[0], answers[0], key, from, to))
         + Passes(calls[1..], answers[1..], key, from, to)
  }

  /** With `seen` passes in [t, t + WINDOW) so far, how many of them the stored window accounts for. */
  ghost predicate WithinTwoWindows(limits: Limits, g: GuardState, key: string, clock: int, t: int, seen: int) {
    && (clock < t ==> seen == 0)
    && if key !in g.windows then seen == 0
       else
         var w := g.windows[key];
         if w.startedAt < t then seen <= w.count - 1
         else if w.startedAt < t + WINDOW then seen <= limits.maxUpgradesPerWindow - 1 + w.count
         else seen <= 2 * limits.maxUpgradesPerWindow - 1
  }

  lemma StepWithinTwoWindows(limits: Limits, g: GuardState, call: Call, clock: int, key: string, t: int, seen: nat)
    requires limits.maxUpgradesPerWindow > 0 && WindowsValid(limits, g, clock) && clock <= ClockOf(call, clock)
    requires WithinTwoWindows(limits, g, key, clock, t, seen)
    ensures var (g', answer) := Step(limits, Unswept, g, call);
            WithinTwoWindows(limits, g', key, ClockOf(call, clock), t,
                             seen + AsCount(PassedBetween(call, answer, key, t, t + WINDOW)))
  {
  }

  lemma {:induction false} UnsweptTwoWindowBound(limits: Limits, g: GuardState, calls: seq<Call>, clock: int,
                                                 key: string, t: int, seen: nat)
    requires limits.maxUpgradesPerWindow > 0
    requires WindowsValid(limits, g, clock) && Monotone(calls, clock)
    requires WithinTwoWindows(limits, g, key, clock, t, seen)
    ensures seen + Passes(calls, Answers(limits, Unswept, g, calls), key, t, t + WINDOW)
         <= 2 * limits.maxUpgradesPerWindow - 1
    decreases calls
  {
    if calls != [] {
      var (g', answer) := Step(limits, Unswept, g, calls[0]);
      var clock' := ClockOf(calls[0], clock);
      var seen' := seen + AsCount(PassedBetween(calls[0], answer, key, t, t + WINDOW));
      assert Answers(limits, Unswept, g, calls)[1..] == Answers(limits, Unswept, g', calls[1..]);
      StepKeepsValid(limits, Unswept, g, calls[0], clock);
      StepWithinTwoWindows(limits, g, calls[0], clock, key, t, seen);
      UnsweptTwoWindowBound(limits, g', calls[1..], clock', key, t, seen');
    }
  }

  /**
   Over any run of the tunnel's guard, at most one attempt less than twice the limit of a client
   passes in any interval of one window: a window starts at its own first attempt, so of the two
   windows that can meet the interval, the earlier one has spent an attempt before it.
   */
  lemma SlidingWindowBound(limits: Limits, calls: seq<Call>, clock: int, key: string, t: int)
    requires limits.maxUpgradesPerWindow > 0 && Monotone(calls, clock)
    ensures Passes(calls, Answers(limits, Swept, EMPTY_GUARD, calls), key, t, t + WINDOW)
         <= 2 * limits.maxUpgradesPerWindow - 1
  {
    FreshGuardsAnswerAlike(limits, calls, clock);
    UnsweptTwoWindowBound(limits, EMPTY_GUARD, calls, clock, key, t, 0);
  }

  // ---- The bound is reached ----

  /** A number of attempts at one instant. */
  function Burst(remoteHost: string, now: int, n: nat): seq<Call> {
    if n == 0 then [] else [Reserve(remoteHost, now)] + Burst(remoteHost, now, n - 1)
  }

  lemma {:induction false} BurstIsMonotone(remoteHost: string, now: int, n: nat, clock: int, later: seq<Call>)
    requires clock <= now && Monotone(later, now)
    ensures Monotone(Burst(remoteHost, now, n) + later, clock)
  {
    var calls := Burst(remoteHost, now, n) + later;
    if n == 0 {
      assert calls == later;
      LaterClock(later, now, clock);
    } else {
      assert calls[1..] == Burst(remoteHost, now, n - 1) + later;
      BurstIsMonotone(remoteHost, now, n - 1, now, later);
    }
  }

  lemma {:induction false} LaterClock(calls: seq<Call>, clock: int, earlier: int)
    requires Monotone(calls, clock) && earlier <= clock
    ensures Monotone(calls, earlier)
  {
    if calls != [] && calls[0].Clear? {
      LaterClock(calls[1..], clock, earlier);
    }
  }

  lemma AttemptInRoomPasses(limits: Limits, g: GuardState, remoteHost: string, now: int)
    requires limits.maxUpgradesPerWindow > 0
    requires CurrentWindow(g.windows, ClientKey(remoteHost), now).count < limits.maxUpgradesPerWindow
    ensures var (g', answer) := Step(limits, Unswept, g, Reserve(remoteHost, now));
            var key := ClientKey(remoteHost);
            && answer.value.PassesRateCheck()
            && key in g'.windows && g'.windows[key] == CurrentWindow(g'.windows, key, now)
            && CurrentWindow(g'.windows, key, now)
               == CurrentWindow(g.windows, key, now).(count := CurrentWindow(g.windows, key, now).count + 1)
  {
  }

  /** A burst that fits the window it is charged to passes as a whole. */
  lemma {:induction false} BurstPasses(limits: Limits, g: GuardState, remoteHost: string, now: int, n: nat,
                                       later: seq<Call>, from: int)
    requires limits.maxUpgradesPerWindow > 0
    requires CurrentWindow(g.windows, ClientKey(remoteHost), now).count + n <= limits.maxUpgradesPerWindow
    ensures var calls, key := Burst(remoteHost, now, n) + later, ClientKey(remoteHost);
            var g' := After(limits, Unswept, g, Burst(remoteHost, now, n));
            && CurrentWindow(g'.windows, key, now)
               == CurrentWindow(g.windows, key, now).(count := CurrentWindow(g.windows, key, now).count + n)
            && (n > 0 ==> key in g'.windows && g'.windows[key] == CurrentWindow(g'.windows, key, now))
            && Passes(calls, Answers(limits, Unswept, g, calls), key, from, from + WINDOW)
               == (if from <= now < from + WINDOW then n else 0)
                  + Passes(later, Answers(limits, Unswept, g', later), key, from, from + WINDOW)
    decreases n
  {
    var calls := Burst(remoteHost, now, n) + later;
    if n == 0 {
      assert calls == later;
    } else {
      var g1 := Step(limits, Unswept, g, calls[0]).0;
      AttemptInRoomPasses(limits, g, remoteHost, now);
      assert calls[1..] == Burst(remoteHost, now, n - 1) + later;
      assert Burst(remoteHost, now, n)[1..] == Burst(remoteHost, now, n - 1);
      assert Answers(limits, Unswept, g, calls)[1..] == Answers(limits, Unswept, g1, calls[1..]);
      BurstPasses(limits, g1, remoteHost, now, n - 1, later, from);
    }
  }

  /** One attempt opens a window, the rest of it is used at its very end, and the next window at once after it. */
  function WorstCase(limit: nat): seq<Call>
    requires limit > 0
  {
    Burst("client", 0, 1) + (Burst("client", WINDOW - 1, limit - 1) + (Burst("client", WINDOW, limit) + []))
  }

  /** For every limit and whatever the connection caps, some run reaches the bound. */
  lemma SlidingWindowBoundIsReached(limits: Limits)
    requires limits.maxUpgradesPerWindow > 0
    ensures var calls := WorstCase(limits.maxUpgradesPerWindow);
            && Monotone(calls, 0)
            && Passes(calls, Answers(limits, Swept, EMPTY_GUARD, calls), "client", WINDOW - 1, WINDOW - 1 + WINDOW)
               == 2 * limits.maxUpgradesPerWindow - 1
  {
    var limit, from := limits.maxUpgradesPerWindow, WINDOW - 1;
    var last := Burst("client", WINDOW, limit) + [];
    var rest := Burst("client", WINDOW - 1, limit - 1) + last;
    BurstIsMonotone("client", WINDOW, limit, WINDOW - 1, []);
    BurstIsMonotone("client", WINDOW - 1, limit - 1, 0, last);
    BurstIsMonotone("client", 0, 1, 0, rest);
    FreshGuardsAnswerAlike(limits, WorstCase(limit), 0);
    BurstPasses(limits, EMPTY_GUARD, "client", 0, 1, rest, from);
    var g1 := After(limits, Unswept, EMPTY_GUARD, Burst("client", 0, 1));
    BurstPasses(limits, g1, "client", WINDOW - 1, limit - 1, last, from);
    var g2 := After(limits, Unswept, g1, Burst("client", WINDOW - 1, limit - 1));
    BurstPasses(limits, g2, "client", WINDOW, limit, [], from);
  }

  /** With `seen` passes in [s, s + WINDOW) so far: a window started at `s` has counted exactly those. */
  ghost predicate CountsFrom(limits: Limits, g: GuardState, key: string, clock: int, s: int, seen: int) {
    && (clock < s ==> seen == 0)
    && if key !in g.windows then seen == 0
       else
         var w := g.windows[key];
         && (w.startedAt < s && seen > 0 ==> s < w.startedAt + WINDOW)
         && (w.startedAt == s ==> seen == w.count)
  }

  lemma StepCountsExactly(limits: Limits, g: GuardState, call: Call, clock: int, key: string, s: int, seen: nat)
    requires limits.maxUpgradesPerWindow > 0 && WindowsValid(limits, g, clock)
    requires clock <= ClockOf(call, clock)
    requires CountsFrom(limits, g, key, clock, s, seen)
    ensures var (g', answer) := Step(limits, Unswept, g, call);
            CountsFrom(limits, g', key, ClockOf(call, clock), s,
                       seen + AsCount(PassedBetween(call, answer, key, s, s + WINDOW)))
  {
    if call.Reserve? {
      if ClientKey(call.remoteHost) == key {
        var charged := CurrentWindow(g.windows, key, call.now);
        assert charged.startedAt == s && charged.count == 0 ==> seen == 0;
      }
    }
  }

  lemma {:induction false} UnsweptCountIsExact(limits: Limits, g: GuardState, calls: seq<Call>, clock: int,
                                               key: string, s: int, seen: nat)
    requires limits.maxUpgradesPerWindow > 0
    requires WindowsValid(limits, g, clock) && Monotone(calls, clock)
    requires CountsFrom(limits, g, key, clock, s, seen)
    ensures CountsFrom(limits, After(limits, Unswept, g, calls), key, ClockAfter(calls, clock), s,
                       seen + Passes(calls, Answers(limits, Unswept, g, calls), key, s, s + WINDOW))
    decreases calls
  {
    if calls != [] {
      var (g', answer) := Step(limits, Unswept, g, calls[0]);
      var clock' := ClockOf(calls[0], clock);
      var seen' := seen + AsCount(PassedBetween(calls[0], answer, key, s, s + WINDOW));
      assert Answers(limits, Unswept, g, calls)[1..] == Answers(limits, Unswept, g', calls[1..]);
      StepCountsExactly(limits, g, calls[0], clock, key, s, seen);
      StepKeepsValid(limits, Unswept, g, calls[0], clock);
      UnsweptCountIsExact(limits, g', calls[1..], clock', key, s, seen');
    }
  }

  /** Whenever a window is stored, its count is the number of attempts that passed since it started. */
  lemma StoredCountIsExact(limits: Limits, calls: seq<Call>, clock: int, key: string)
    requires limits.maxUpgradesPerWindow > 0 && Monotone(calls, clock)
    ensures var g := After(limits, Swept, EMPTY_GUARD, calls);
            key in g.windows ==>
              var w := g.windows[key];
              && w.count == Passes(calls, Answers(limits, Swept, EMPTY_GUARD, calls), key,
                                   w.startedAt, w.startedAt + WINDOW)
              && 1 <= w.count <= limits.maxUpgradesPerWindow
  {
    var g := After(limits, Swept, EMPTY_GUARD, calls);
    if key in g.windows {
      SweepingIsInvisible(limits, EMPTY_GUARD, EMPTY_GUARD, calls, clock);
      WindowsStayValid(limits, Swept, EMPTY_GUARD, calls, clock);
      UnsweptCountIsExact(limits, EMPTY_GUARD, calls, clock, key, g.windows[key].startedAt, 0);
    }
  }

  /** With `seen` passes in [s, s + WINDOW) so far, and a window stored at `s` or at least one window later. */
  ghost predicate FillsFrom(limits: Limits, g: GuardState, key: string, s: int, seen: int) {
    && key in g.windows && seen <= limits.maxUpgradesPerWindow
    && if g.windows[key].startedAt == s then seen == g.windows[key].count else s + WINDOW <= g.windows[key].startedAt
  }

  lemma StepFillsWindow(limits: Limits, g: GuardState, call: Call, clock: int, key: string, s: int, seen: nat)
    requires limits.maxUpgradesPerWindow > 0 && WindowsValid(limits, g, clock) && clock <= ClockOf(call, clock)
    requires FillsFrom(limits, g, key, s, seen)
    ensures var (g', answer) := Step(limits, Unswept, g, call);
            FillsFrom(limits, g', key, s, seen + AsCount(PassedBetween(call, answer, key, s, s + WINDOW)))
  {
  }

  lemma {:induction false} UnsweptWindowFills(limits: Limits, g: GuardState, calls: seq<Call>, clock: int,
                                              key: string, s: int, seen: nat)
    requires limits.maxUpgradesPerWindow > 0
    requires WindowsValid(limits, g, clock) && Monotone(calls, clock)
    requires FillsFrom(limits, g, key, s, seen)
    ensures seen + Passes(calls, Answers(limits, Unswept, g, calls), key, s, s + WINDOW) <= limits.maxUpgradesPerWindow
    decreases calls
  {
    if calls != [] {
      var (g', answer) := Step(limits, Unswept, g, calls[0]);
      var clock' := ClockOf(calls[0], clock);
      var seen' := seen + AsCount(PassedBetween(calls[0], answer, key, s, s + WINDOW));
      assert Answers(limits, Unswept, g, calls)[1..] == Answers(limits, Unswept, g', calls[1..]);
      StepKeepsValid(limits, Unswept, g, calls[0], clock);
      StepFillsWindow(limits, g, calls[0], clock, key, s, seen);
      UnsweptWindowFills(limits, g', calls[1..], clock', key, s, seen');
    }
  }

  /**
   In an interval that begins where a stored window began, the limit itself is never exceeded,
   however the run continues.
   */
  lemma StoredWindowBound(limits: Limits, calls: seq<Call>, later: seq<Call>, clock: int, key: string)
    requires limits.maxUpgradesPerWindow > 0
    requires Monotone(calls, clock) && Monotone(later, ClockAfter(calls, clock))
    ensures var g := After(limits, Swept, EMPTY_GUARD, calls);
            key in g.windows ==>
              var s := g.windows[key].startedAt;
              Passes(calls, Answers(limits, Swept, EMPTY_GUARD, calls), key, s, s + WINDOW)
              + Passes(later, Answers(limits, Swept, g, later), key, s, s + WINDOW) <= limits.maxUpgradesPerWindow
  {
    var g, h := After(limits, Swept, EMPTY_GUARD, calls), After(limits, Unswept, EMPTY_GUARD, calls);
    var clock' := ClockAfter(calls, clock);
    if key in g.windows {
      var s := g.windows[key].startedAt;
      StoredCountIsExact(limits, calls, clock, key);
      SweepingIsInvisible(limits, EMPTY_GUARD, EMPTY_GUARD, calls, clock);
      SweepingIsInvisible(limits, g, h, later, clock');
      WindowsStayValid(limits, Unswept, EMPTY_GUARD, calls, clock);
      UnsweptWindowFills(limits, h, later, clock', key, s,
                         Passes(calls, Answers(limits, Swept, EMPTY_GUARD, calls), key, s, s + WINDOW));
    }
  }

  /**
   A client is refused for its rate exactly when it has used its limit up: in the window that ends
   when the advertised wait is over, precisely the permitted number of its attempts have passed.
   */
  lemma RefusedWhenUsedUp(limits: Limits, calls: seq<Call>, clock: int, remoteHost: string, now: int)
    requires limits.maxUpgradesPerWindow > 0 && Monotone(calls, clock) && ClockAfter(calls, clock) <= now
    ensures var g, key := After(limits, Swept, EMPTY_GUARD, calls), ClientKey(remoteHost);
            var answers := Answers(limits, Swept, EMPTY_GUARD, calls);
            var outcome := Step(limits, Swept, g, Reserve(remoteHost, now)).1.value;
            && (outcome.RateRefused? ==>
                  var from := now + outcome.wait - WINDOW;
                  from <= now && Passes(calls, answers, key, from, from + WINDOW) == limits.maxUpgradesPerWindow)
            && (outcome.PassesRateCheck() && key in g.windows && !Expired(g.windows[key], now) ==>
                  var from := g.windows[key].startedAt;
                  Passes(calls, answers, key, from, from + WINDOW) < limits.maxUpgradesPerWindow)
  {
    WindowsStayValid(limits, Swept, EMPTY_GUARD, calls, clock);
    StoredCountIsExact(limits, calls, clock, ClientKey(remoteHost));
  }

  // ---- The sweep keeps the map small ----

  /** Every stored window started less than one window length before the last sweep, or later. */
  ghost predicate WindowsAreRecent(g: GuardState, clock: int) {
    && (g.lastSweepAt.Some? ==> g.lastSweepAt.value <= clock)
    && (forall key :: key in g.windows ==>
          g.lastSweepAt.Some? && g.lastSweepAt.value - WINDOW < g.windows[key].startedAt <= clock)
  }

  lemma StepKeepsRecent(limits: Limits, g: GuardState, call: Call, clock: int)
    requires WindowsAreRecent(g, clock) && clock <= ClockOf(call, clock)
    ensures var g' := Step(limits, Swept, g, call).0;
            && WindowsAreRecent(g', ClockOf(call, clock))
            && (call.Reserve? ==> forall key :: key in g'.windows ==>
                  limits.maxUpgradesPerWindow <= 0 || call.now - 2 * WINDOW < g'.windows[key].startedAt <= call.now)
  {
  }

  lemma {:induction false} RecentAfter(limits: Limits, g: GuardState, calls: seq<Call>, clock: int)
    requires WindowsAreRecent(g, clock) && Monotone(calls, clock)
    ensures WindowsAreRecent(After(limits, Swept, g, calls), ClockAfter(calls, clock))
    decreases calls
  {
    if calls != [] {
      StepKeepsRecent(limits, g, calls[0], clock);
      RecentAfter(limits, Step(limits, Swept, g, calls[0]).0, calls[1..], ClockOf(calls[0], clock));
    }
  }

  /** The attempts of all clients in a half-open interval that passed the rate check, and who made them. */
  function AllPasses(calls: seq<Call>, answers: seq<Option<Outcome>>, from: int, to: int): nat
    requires |answers| == |calls|
  {
    if calls == [] then 0
    else AsCount(PassedAt(calls[0], answers[0], from, to)) + AllPasses(calls[1..], answers[1..], from, to)
  }

  predicate PassedAt(call: Call, answer: Option<Outcome>, from: int, to: int) {
    call.Reserve? && PassedBetween(call, answer, ClientKey(call.remoteHost), from, to)
  }

  function Passers(calls: seq<Call>, answers: seq<Option<Outcome>>, from: int, to: int): set<string>
    requires |answers| == |calls|
  {
    if calls == [] then {}
    else (if PassedAt(calls[0], answers[0], from, to) then {ClientKey(calls[0].remoteHost)} else {})
         + Passers(calls[1..], answers[1..], from, to)
  }

  lemma {:induction false} FewerPassersThanPasses(calls: seq<Call>, answers: seq<Option<Outcome>>, from: int, to: int)
    requires |answers| == |calls|
    ensures |Passers(calls, answers, from, to)| <= AllPasses(calls, answers, from, to)
  {
    if calls != [] {
      FewerPassersThanPasses(calls[1..], answers[1..], from, to);
    }
  }

  /** Who passed in one interval passed in any wider one. */
  lemma {:induction false} PassesMakePasser(calls: seq<Call>, answers: seq<Option<Outcome>>, key: string,
                                            from: int, to: int, from': int, to': int)
    requires |answers| == |calls| && Passes(calls, answers, key, from, to) > 0 && from' <= from
    requires forall i :: 0 <= i < |calls| && calls[i].Reserve? ==> calls[i].now < to'
    ensures key in Passers(calls, answers, from', to')
  {
    if !PassedBetween(calls[0], answers[0], key, from, to) {
      assert forall i :: 0 <= i < |calls[1..]| ==> calls[1..][i] == calls[i + 1];
      PassesMakePasser(calls[1..], answers[1..], key, from, to, from', to');
    }
  }

  lemma {:induction false} ClockIsLast(calls: seq<Call>, clock: int, remoteHost: string, now: int)
    requires Monotone(calls + [Reserve(remoteHost, now)], clock)
    ensures Monotone(calls, clock) && ClockAfter(calls, clock) <= now
    ensures ClockAfter(calls + [Reserve(remoteHost, now)], clock) == now
    ensures forall i :: 0 <= i < |calls| && calls[i].Reserve? ==> calls[i].now <= now
    decreases calls
  {
    var all := calls + [Reserve(remoteHost, now)];
    if calls == [] {
      assert all[1..] == [];
    } else {
      assert all[1..] == calls[1..] + [Reserve(remoteHost, now)];
      ClockIsLast(calls[1..], ClockOf(calls[0], clock), remoteHost, now);
      ClockBounds(all, clock, |calls|);
      EarlierCallsAreEarlier(all, clock, |calls|);
      assert forall i :: 0 <= i < |calls| ==> all[i] == calls[i];
    }
  }

  lemma {:induction false} LastStep(limits: Limits, g: GuardState, calls: seq<Call>, call: Call)
    ensures After(limits, Swept, g, calls + [call]) == Step(limits, Swept, After(limits, Swept, g, calls), call).0
    decreases calls
  {
    if calls == [] {
      assert calls + [call] == [call] && [call][1..] == [];
    } else {
      assert (calls + [call])[1..] == calls[1..] + [call];
      LastStep(limits, Step(limits, Swept, g, calls[0]).0, calls[1..], call);
    }
  }

  lemma LastReserveLeavesRecent(limits: Limits, calls: seq<Call>, clock: int, remoteHost: string, now: int)
    requires Monotone(calls + [Reserve(remoteHost, now)], clock)
    ensures var g := After(limits, Swept, EMPTY_GUARD, calls + [Reserve(remoteHost, now)]);
            && (forall key :: key in g.windows ==> now - 2 * WINDOW < g.windows[key].startedAt <= now)
            && (limits.maxUpgradesPerWindow <= 0 ==> g.windows == map[])
  {
    var call := Reserve(remoteHost, now);
    ClockIsLast(calls, clock, remoteHost, now);
    LastStep(limits, EMPTY_GUARD, calls, call);
    RecentAfter(limits, EMPTY_GUARD, calls, clock);
    StepKeepsRecent(limits, After(limits, Swept, EMPTY_GUARD, calls), call, ClockAfter(calls, clock));
    if limits.maxUpgradesPerWindow <= 0 {
      NoRateNoWindows(limits, EMPTY_GUARD, calls + [call]);
    }
  }

  /** Every client with a stored window has passed since it started. */
  lemma StoredClientPassed(limits: Limits, calls: seq<Call>, clock: int, key: string, from: int, to: int)
    requires limits.maxUpgradesPerWindow > 0 && Monotone(calls, clock)
    requires forall i :: 0 <= i < |calls| && calls[i].Reserve? ==> calls[i].now < to
    requires var g := After(limits, Swept, EMPTY_GUARD, calls); key in g.windows && from <= g.windows[key].startedAt
    ensures key in Passers(calls, Answers(limits, Swept, EMPTY_GUARD, calls), from, to)
  {
    StoredCountIsExact(limits, calls, clock, key);
    var start := After(limits, Swept, EMPTY_GUARD, calls).windows[key].startedAt;
    PassesMakePasser(calls, Answers(limits, Swept, EMPTY_GUARD, calls), key, start, start + WINDOW, from, to);
  }

  /**
   The sweep keeps its promise that the per-client map cannot grow without bound: after each attempt
   all stored windows started within the last two window lengths, so there are no more of them than
   attempts that passed the rate check in that time.
   */
  lemma SweepBoundsTheMap(limits: Limits, calls: seq<Call>, clock: int, remoteHost: string, now: int)
    requires Monotone(calls + [Reserve(remoteHost, now)], clock)
    ensures var all := calls + [Reserve(remoteHost, now)];
            var g, answers := After(limits, Swept, EMPTY_GUARD, all), Answers(limits, Swept, EMPTY_GUARD, all);
            && (forall key :: key in g.windows ==> now - 2 * WINDOW < g.windows[key].startedAt <= now)
            && |g.windows| <= AllPasses(all, answers, now - 2 * WINDOW + 1, now + 1)
  {
    var all, from, to := calls + [Reserve(remoteHost, now)], now - 2 * WINDOW + 1, now + 1;
    var g, answers := After(limits, Swept, EMPTY_GUARD, all), Answers(limits, Swept, EMPTY_GUARD, all);
    ClockIsLast(calls, clock, remoteHost, now);
    LastReserveLeavesRecent(limits, calls, clock, remoteHost, now);
    forall key | key in g.windows
      ensures key in Passers(all, answers, from, to)
    {
      StoredClientPassed(limits, all, clock, key, from, to);
    }
    SubsetIsNoLarger(g.windows.Keys, Passers(all, answers, from, to));
    FewerPassersThanPasses(all, answers, from, to);
  }

  lemma {:induction false} NoRateNoWindows(limits: Limits, g: GuardState, calls: seq<Call>)
    requires limits.maxUpgradesPerWindow <= 0 && g.windows == map[]
    ensures After(limits, Swept, g, calls).windows == map[]
    decreases calls
  {
    if calls != [] {
      NoRateNoWindows(limits, Step(limits, Swept, g, calls[0]).0, calls[1..]);
    }
  }

  // ---- The advertised wait is exact ----

  predicate AttemptBy(call: Call, key: string) {
    call.Reserve? && ClientKey(call.remoteHost) == key
  }

  /** The client is shut out until `opensAt`: its full window is stored, or has been forgotten after it ended. */
  ghost predicate ShutUntil(limits: Limits, g: GuardState, key: string, clock: int, opensAt: int) {
    if key in g.windows then
      g.windows[key].startedAt + WINDOW == opensAt && g.windows[key].count >= limits.maxUpgradesPerWindow
    else
      clock >= opensAt
  }

  /** Call `i` is this client's first attempt at or after `opensAt`. */
  ghost predicate FirstAtOrAfter(calls: seq<Call>, key: string, opensAt: int, i: nat)
    requires i < |calls|
  {
    && AttemptBy(calls[i], key) && calls[i].now >= opensAt
    && forall j :: 0 <= j < i && AttemptBy(calls[j], key) ==> calls[j].now < opensAt
  }

  /**
   A call before the window reopens, or one by anybody else, leaves the client shut out; its own
   attempts are refused.
   */
  lemma StepKeepsShut(limits: Limits, policy: Policy, g: GuardState, call: Call, clock: int, key: string, opensAt: int)
    requires limits.maxUpgradesPerWindow > 0 && ShutUntil(limits, g, key, clock, opensAt)
    requires clock <= ClockOf(call, clock)
    requires AttemptBy(call, key) ==> call.now < opensAt
    ensures var (g', answer) := Step(limits, policy, g, call);
            && ShutUntil(limits, g', key, ClockOf(call, clock), opensAt)
            && (AttemptBy(call, key) ==> answer == Some(RateRefused(opensAt - call.now)))
  {
  }

  lemma StepReopens(limits: Limits, policy: Policy, g: GuardState, call: Call, clock: int, key: string, opensAt: int)
    requires limits.maxUpgradesPerWindow > 0 && ShutUntil(limits, g, key, clock, opensAt)
    requires AttemptBy(call, key) && call.now >= opensAt
    ensures Step(limits, policy, g, call).1.value.PassesRateCheck()
  {
  }

  lemma {:induction false} StaysShut(limits: Limits, policy: Policy, g: GuardState, calls: seq<Call>, clock: int,
                                     key: string, opensAt: int)
    requires limits.maxUpgradesPerWindow > 0 && Monotone(calls, clock)
    requires ShutUntil(limits, g, key, clock, opensAt)
    requires forall call :: call in calls && AttemptBy(call, key) ==> call.now < opensAt
    ensures ShutUntil(limits, After(limits, policy, g, calls), key, ClockAfter(calls, clock), opensAt)
    decreases calls
  {
    if calls != [] {
      StepKeepsShut(limits, policy, g, calls[0], clock, key, opensAt);
      StaysShut(limits, policy, Step(limits, policy, g, calls[0]).0, calls[1..],
                ClockOf(calls[0], clock), key, opensAt);
    }
  }

  /** Each answer is what the state left by the calls before it gives. */
  lemma {:induction false} AnswerAt(limits: Limits, policy: Policy, g: GuardState, calls: seq<Call>, i: nat)
    requires i < |calls|
    ensures Answers(limits, policy, g, calls)[i]
            == Step(limits, policy, After(limits, policy, g, calls[..i]), calls[i]).1
    decreases calls
  {
    if i > 0 {
      AnswerAt(limits, policy, Step(limits, policy, g, calls[0]).0, calls[1..], i - 1);
      assert calls[..i][1..] == calls[1..][..i - 1];
    }
  }

  lemma {:induction false} MonotonePrefix(calls: seq<Call>, clock: int, i: nat)
    requires Monotone(calls, clock) && i < |calls|
    ensures Monotone(calls[..i], clock)
    ensures calls[i].Reserve? ==> ClockAfter(calls[..i], clock) <= calls[i].now
    decreases calls
  {
    if i > 0 {
      MonotonePrefix(calls[1..], ClockOf(calls[0], clock), i - 1);
      assert calls[..i][1..] == calls[1..][..i - 1];
    }
  }

  lemma {:induction false} ClockBounds(calls: seq<Call>, clock: int, i: nat)
    requires Monotone(calls, clock) && i < |calls| && calls[i].Reserve?
    ensures clock <= calls[i].now
  {
    if i > 0 {
      ClockBounds(calls[1..], ClockOf(calls[0], clock), i - 1);
    }
  }

  lemma {:induction false} EarlierCallsAreEarlier(calls: seq<Call>, clock: int, i: nat)
    requires Monotone(calls, clock) && i < |calls| && calls[i].Reserve?
    ensures forall j :: 0 <= j < i && calls[j].Reserve? ==> calls[j].now <= calls[i].now
  {
    if i > 0 {
      var clock' := ClockOf(calls[0], clock);
      ClockBounds(calls[1..], clock', i - 1);
      EarlierCallsAreEarlier(calls[1..], clock', i - 1);
      assert forall j :: 0 < j < i ==> calls[j] == calls[1..][j - 1];
    }
  }

  /**
   A client refused for its rate at `now` is told a wait of at most one window. Whatever anybody
   does next, each of its attempts before `now + wait` is refused with exactly the time that is
   left, and its first attempt from then on passes the rate check.
   */
  lemma AdvertisedWaitIsExact(limits: Limits, policy: Policy, g: GuardState, clock: int,
                              remoteHost: string, now: int, calls: seq<Call>, i: nat)
    requires WindowsValid(limits, g, clock) && clock <= now && Monotone(calls, now)
    requires Step(limits, policy, g, Reserve(remoteHost, now)).1.value.RateRefused?
    requires i < |calls| && AttemptBy(calls[i], ClientKey(remoteHost))
    ensures var (g', refusal) := Step(limits, policy, g, Reserve(remoteHost, now));
            var opensAt := now + refusal.value.wait;
            var answer := Answers(limits, policy, g', calls)[i].value;
            && 0 < refusal.value.wait <= WINDOW
            && (calls[i].now < opensAt ==> answer == RateRefused(opensAt - calls[i].now))
            && (FirstAtOrAfter(calls, ClientKey(remoteHost), opensAt, i) ==> answer.PassesRateCheck())
  {
    var (g', refusal) := Step(limits, policy, g, Reserve(remoteHost, now));
    var opensAt := now + refusal.value.wait;
    var key := ClientKey(remoteHost);
    if calls[i].now < opensAt || FirstAtOrAfter(calls, key, opensAt, i) {
      EarlierCallsAreEarlier(calls, now, i);
      MonotonePrefix(calls, now, i);
      StaysShut(limits, policy, g', calls[..i], now, key, opensAt);
      AnswerAt(limits, policy, g', calls, i);
      var before, clock' := After(limits, policy, g', calls[..i]), ClockAfter(calls[..i], now);
      if calls[i].now < opensAt {
        StepKeepsShut(limits, policy, before, calls[i], clock', key, opensAt);
      } else {
        StepReopens(limits, policy, before, calls[i], clock', key, opensAt);
      }
    }
  }

  // ---- One attempt at a time ----

  /** Only requests without a remote address share a key, and that with a client by the name of "unknown". */
  lemma ClientsHaveTheirOwnKeys(a: string, b: string)
    ensures ClientKey(a) == ClientKey(b) <==> a == b || (a in ["", "unknown"] && b in ["", "unknown"])
    ensures a != "" ==> ClientKey(a) == a
  {
  }

  /** No client's calls touch what the guard knows of another, except that a sweep forgets expired windows. */
  lemma ClientsDoNotInterfere(limits: Limits, policy: Policy, g: GuardState, call: Call, key: string)
    requires ClientKey(call.remoteHost) != key
    ensures var g' := Step(limits, policy, g, call).0;
            && ConnectionsOf(g'.clients, key) == ConnectionsOf(g.clients, key)
            && (key in g'.windows ==> key in g.windows && g'.windows[key] == g.windows[key])
            && (key in g.windows && key !in g'.windows ==> call.Reserve? && Expired(g.windows[key], call.now))
  {
  }

  /** Without a rate limit nobody is refused for their rate. */
  lemma NoLimitNoRefusal(limits: Limits, policy: Policy, g: GuardState, remoteHost: string, now: int)
    requires limits.maxUpgradesPerWindow <= 0
    ensures Step(limits, policy, g, Reserve(remoteHost, now)).1.value.PassesRateCheck()
  {
  }

  /** A sweep within a minute of the last one does nothing; any other forgets exactly the windows a minute old. */
  lemma SweepsAreAMinuteApart(g: GuardState, now: int)
    ensures g.lastSweepAt.Some? && now - g.lastSweepAt.value < 60_000_000_000 ==> Sweep(g, now) == g
    ensures g.lastSweepAt.None? || now - g.lastSweepAt.value >= 60_000_000_000 ==>
              var g' := Sweep(g, now);
              && g' == g.(windows := g'.windows, lastSweepAt := Some(now))
              && (forall key :: key in g'.windows
                                <==> key in g.windows && now - g.windows[key].startedAt < 60_000_000_000)
              && (forall key :: key in g'.windows ==> g'.windows[key] == g.windows[key])
  {
  }

  /** With a limit of one, the second attempt passes exactly if it comes a minute after the first. */
  lemma WindowIsAMinute(limits: Limits, policy: Policy, remoteHost: string, first: int, second: int)
    requires limits.maxUpgradesPerWindow == 1 && first <= second
    ensures var calls := [Reserve(remoteHost, first)] + [Reserve(remoteHost, second)];
            var answers := Answers(limits, policy, EMPTY_GUARD, calls);
            && answers[0].value.PassesRateCheck()
            && (answers[1].value.PassesRateCheck() <==> second - first >= 60_000_000_000)
  {
    var calls := [Reserve(remoteHost, first)] + [Reserve(remoteHost, second)];
    AnswerAt(limits, policy, EMPTY_GUARD, calls, 1);
    assert calls[..1] == [Reserve(remoteHost, first)] && calls[..1][1..] == [];
    assert After(limits, policy, EMPTY_GUARD, calls[..1]) == Step(limits, policy, EMPTY_GUARD, calls[0]).0;
  }
}
