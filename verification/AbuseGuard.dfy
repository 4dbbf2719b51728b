/**
 The upgrade abuse guard: a per-client fixed-window rate limiter, a global connection cap
 and a per-client connection cap. Two guards run the same policy. The tunnel's guard also
 forgets expired rate windows now and then; the older handler guard never forgets.

 Times are integer nanoseconds. The zero time of the implementation is the absence of a value.
 */
module AbuseGuard {
  import opened Collections

  const WINDOW: int := 60_000_000_000

  /** Zero or a negative value switches a limit off. */
  datatype Limits = Limits(maxActive: int, maxPerClient: int, maxUpgradesPerWindow: int)

  datatype RateWindow = RateWindow(startedAt: int, count: int)

  datatype Outcome =
    | Reserved
    | RateRefused(wait: int)
    | ActiveCapExceeded
    | ClientCapExceeded
  {
    /** The attempt got through the rate check, whatever the connection caps said after it. */
    predicate PassesRateCheck() {
      !RateRefused?
    }
  }

  /** What a guard remembers between calls. */
  datatype GuardState = GuardState(
    active: int,
    clients: map<string, int>,
    windows: map<string, RateWindow>,
    lastSweepAt: Option<int>)

  const EMPTY_GUARD := GuardState(0, map[], map[], None)

  /** Requests without a usable remote address share one key. */
  function ClientKey(remoteHost: string): string {
    if remoteHost == "" then "unknown" else remoteHost
  }

  predicate Expired(window: RateWindow, now: int) {
    now - window.startedAt >= WINDOW
  }

  /** The window an attempt at `now` is charged to, before it is charged. */
  function CurrentWindow(windows: map<string, RateWindow>, key: string, now: int): RateWindow {
    if key in windows && !Expired(windows[key], now) then windows[key] else RateWindow(now, 0)
  }

  function ConnectionsOf(clients: map<string, int>, key: string): int {
    if key in clients then clients[key] else 0
  }

  /** The connection caps, and the slot taken when neither refuses. */
  function TakeSlot(limits: Limits, g: GuardState, key: string): (GuardState, Outcome) {
    if limits.maxActive > 0 && g.active >= limits.maxActive then
      (g, ActiveCapExceeded)
    else if limits.maxPerClient > 0 && ConnectionsOf(g.clients, key) >= limits.maxPerClient then
      (g, ClientCapExceeded)
    else
      (g.(active := g.active + 1, clients := g.clients[key := ConnectionsOf(g.clients, key) + 1]), Reserved)
  }

  /** One upgrade attempt against a guard that does not sweep. */
  function Attempt(limits: Limits, g: GuardState, key: string, now: int): (GuardState, Outcome) {
    if limits.maxUpgradesPerWindow <= 0 then
      TakeSlot(limits, g, key)
    else
      var window := CurrentWindow(g.windows, key, now);
      if window.count >= limits.maxUpgradesPerWindow then
        (g, RateRefused(window.startedAt + WINDOW - now))
      else
        TakeSlot(limits, g.(windows := g.windows[key := window.(count := window.count + 1)]), key)
  }

  function Unexpired(windows: map<string, RateWindow>, now: int): map<string, RateWindow> {
    map key | key in windows && !Expired(windows[key], now) :: windows[key]
  }

  /** At most once per window length, drop every expired rate window. */
  function Sweep(g: GuardState, now: int): GuardState {
    if g.lastSweepAt.Some? && now - g.lastSweepAt.value < WINDOW then g
    else g.(windows := Unexpired(g.windows, now), lastSweepAt := Some(now))
  }

  /** One upgrade attempt against the guard that sweeps first. */
  function SweptAttempt(limits: Limits, g: GuardState, key: string, now: int): (GuardState, Outcome) {
    Attempt(limits, if limits.maxUpgradesPerWindow > 0 then Sweep(g, now) else g, key, now)
  }

  /** One slot given back. */
  function Release(g: GuardState, key: string): GuardState {
    GuardState(
      if g.active > 0 then g.active - 1 else g.active,
      if ConnectionsOf(g.clients, key) <= 1 then g.clients - {key} else g.clients[key := g.clients[key] - 1],
      g.windows,
      g.lastSweepAt)
  }

  /** The tunnel's guard. */
  class BridgeAbuseGuard {
    const limits: Limits
    var activeConnections: int
    var clientConnections: map<string, int>
    var clientUpgradeAttempts: map<string, RateWindow>
    var lastWindowSweepAt: Option<int>

    ghost function State(): GuardState
      reads this
    {
      GuardState(activeConnections, clientConnections, clientUpgradeAttempts, lastWindowSweepAt)
    }

    constructor (limits: Limits)
      ensures this.limits == limits && State() == EMPTY_GUARD
    {
      this.limits := limits;
      activeConnections, clientConnections := 0, map[];
      clientUpgradeAttempts, lastWindowSweepAt := map[], None;
    }

    method ReserveBridgeConnection(remoteHost: string, now: int) returns (outcome: Outcome)
      modifies this
      ensures (State(), outcome) == SweptAttempt(limits, old(State()), ClientKey(remoteHost), now)
    {
      var clientKey := remoteHost;
      if clientKey == "" {
        clientKey := "unknown";
      }
      if limits.maxUpgradesPerWindow > 0 {
        SweepExpiredUpgradeWindows(now);
        var window := RateWindow(now, 0);
        if clientKey in clientUpgradeAttempts && now - clientUpgradeAttempts[clientKey].startedAt < WINDOW {
          window := clientUpgradeAttempts[clientKey];
        }
        if window.count >= limits.maxUpgradesPerWindow {
          return RateRefused(window.startedAt + WINDOW - now);
        }
        window := window.(count := window.count + 1);
        clientUpgradeAttempts := clientUpgradeAttempts[clientKey := window];
      }
      if limits.maxActive > 0 && activeConnections >= limits.maxActive {
        return ActiveCapExceeded;
      }
      var connections := if clientKey in clientConnections then clientConnections[clientKey] else 0;
      if limits.maxPerClient > 0 && connections >= limits.maxPerClient {
        return ClientCapExceeded;
      }
      activeConnections := activeConnections + 1;
      clientConnections := clientConnections[clientKey := connections + 1];
      return Reserved;
    }

    method SweepExpiredUpgradeWindows(now: int)
      modifies this
      ensures State() == Sweep(old(State()), now)
    {
      if lastWindowSweepAt.Some? && now - lastWindowSweepAt.value < WINDOW {
        return;
      }
      lastWindowSweepAt := Some(now);
      ghost var before := clientUpgradeAttempts;
      var unvisited := clientUpgradeAttempts.Keys;
      while unvisited != {}
        invariant unvisited <= clientUpgradeAttempts.Keys <= before.Keys
        invariant forall key :: key in clientUpgradeAttempts ==> clientUpgradeAttempts[key] == before[key]
        invariant forall key :: key in before && key !in unvisited ==>
          (key in clientUpgradeAttempts <==> !Expired(before[key], now))
        invariant lastWindowSweepAt == Some(now)
        invariant activeConnections == old(activeConnections) && clientConnections == old(clientConnections)
        decreases unvisited
      {
        var key :| key in unvisited;
        unvisited := unvisited - {key};
        if now - clientUpgradeAttempts[key].startedAt >= WINDOW {
          clientUpgradeAttempts := clientUpgradeAttempts - {key};
        }
      }
      assert clientUpgradeAttempts == Unexpired(before, now);
    }

    method ClearBridgeConnection(remoteHost: string)
      modifies this
      ensures State() == Release(old(State()), ClientKey(remoteHost))
    {
      var clientKey := remoteHost;
      if clientKey == "" {
        clientKey := "unknown";
      }
      if activeConnections > 0 {
        activeConnections := activeConnections - 1;
      }
      var connections := if clientKey in clientConnections then clientConnections[clientKey] else 0;
      if connections <= 1 {
        clientConnections := clientConnections - {clientKey};
        return;
      }
      clientConnections := clientConnections[clientKey := connections - 1];
    }
  }

  /** The handler package's guard: the same policy, and no sweep. */
  class HandlerAbuseGuard {
    const limits: Limits
    var activeConnections: int
    var clientConnections: map<string, int>
    var clientUpgradeAttempts: map<string, RateWindow>

    ghost function State(): GuardState
      reads this
    {
      GuardState(activeConnections, clientConnections, clientUpgradeAttempts, None)
    }

    constructor (limits: Limits)
      ensures this.limits == limits && State() == EMPTY_GUARD
    {
      this.limits := limits;
      activeConnections, clientConnections, clientUpgradeAttempts := 0, map[], map[];
    }

    method ReserveHandlerConnection(remoteHost: string, now: int) returns (outcome: Outcome)
      modifies this
      ensures (State(), outcome) == Attempt(limits, old(State()), ClientKey(remoteHost), now)
    {
      var clientKey := remoteHost;
      if clientKey == "" {
        clientKey := "unknown";
      }
      if limits.maxUpgradesPerWindow > 0 {
        var window := RateWindow(now, 0);
        if clientKey in clientUpgradeAttempts && now - clientUpgradeAttempts[clientKey].startedAt < WINDOW {
          window := clientUpgradeAttempts[clientKey];
        }
        if window.count >= limits.maxUpgradesPerWindow {
          return RateRefused(window.startedAt + WINDOW - now);
        }
        window := window.(count := window.count + 1);
        clientUpgradeAttempts := clientUpgradeAttempts[clientKey := window];
      }
      if limits.maxActive > 0 && activeConnections >= limits.maxActive {
        return ActiveCapExceeded;
      }
      var connections := if clientKey in clientConnections then clientConnections[clientKey] else 0;
      if limits.maxPerClient > 0 && connections >= limits.maxPerClient {
        return ClientCapExceeded;
      }
      activeConnections := activeConnections + 1;
      clientConnections := clientConnections[clientKey := connections + 1];
      return Reserved;
    }

    method ClearHandlerConnection(remoteHost: string)
      modifies this
      ensures State() == Release(old(State()), ClientKey(remoteHost))
    {
      var clientKey := remoteHost;
      if clientKey == "" {
        clientKey := "unknown";
      }
      if activeConnections > 0 {
        activeConnections := activeConnections - 1;
      }
      var connections := if clientKey in clientConnections then clientConnections[clientKey] else 0;
      if connections <= 1 {
        clientConnections := clientConnections - {clientKey};
        return;
      }
      clientConnections := clientConnections[clientKey := connections - 1];
    }
  }
}
