/**
 The listener that feeds upgraded websockets to the gRPC server: deliver and Accept meet on an
 unbuffered channel, and closing the listener releases both sides.
 */
module NativeListener {
  import opened Collections

  /** A deliver call and its connection. */
  datatype Delivery = Offering(conn: nat) | Delivered(conn: nat) | Rejected(conn: nat)

  datatype Acceptance = Accepting | Got(conn: nat) | ListenerClosed

  /** All calls ever made, which Accept each deliver met, and which deliver each Accept met. */
  datatype Listener = Listener(
    deliveries: map<nat, Delivery>,
    acceptances: map<nat, Acceptance>,
    isClosed: bool,
    closeSignals: nat,
    acceptOf: map<nat, nat>,
    deliverOf: map<nat, nat>)

  const FRESH := Listener(map[], map[], false, 0, map[], map[])

  datatype Action =
    | CallDeliver(d: nat, conn: nat)
    | CallAccept(a: nat)
    | CallClose
    | Meet(d: nat, a: nat)     // the channel passes the connection on
    | GiveUpDeliver(d: nat)    // deliver receives the close signal
    | GiveUpAccept(a: nat)     // Accept receives the close signal

  predicate IsOffering(l: Listener, d: nat) {
    d in l.deliveries && l.deliveries[d].Offering?
  }

  predicate IsAccepting(l: Listener, a: nat) {
    a in l.acceptances && l.acceptances[a].Accepting?
  }

  predicate Enabled(l: Listener, act: Action) {
    match act
    case CallDeliver(d, _) => d !in l.deliveries
    case CallAccept(a) => a !in l.acceptances
    case CallClose => true
    case Meet(d, a) => IsOffering(l, d) && IsAccepting(l, a)
    case GiveUpDeliver(d) => IsOffering(l, d) && l.isClosed
    case GiveUpAccept(a) => IsAccepting(l, a) && l.isClosed
  }

  function Step(l: Listener, act: Action): Listener
    requires Enabled(l, act)
  {
    match act
    case CallDeliver(d, conn) => l.(deliveries := l.deliveries[d := Offering(conn)])
    case CallAccept(a) => l.(acceptances := l.acceptances[a := Accepting])
    case CallClose => if l.isClosed then l else l.(isClosed := true, closeSignals := l.closeSignals + 1)
    case Meet(d, a) =>
      var conn := l.deliveries[d].conn;
      l.(deliveries := l.deliveries[d := Delivered(conn)], acceptances := l.acceptances[a := Got(conn)],
         acceptOf := l.acceptOf[d := a], deliverOf := l.deliverOf[a := d])
    case GiveUpDeliver(d) => l.(deliveries := l.deliveries[d := Rejected(l.deliveries[d].conn)])
    case GiveUpAccept(a) => l.(acceptances := l.acceptances[a := ListenerClosed])
  }

  ghost predicate IsRun(l: Listener, actions: seq<Action>)
    decreases actions
  {
    actions == [] || (Enabled(l, actions[0]) && IsRun(Step(l, actions[0]), actions[1..]))
  }

  function After(l: Listener, actions: seq<Action>): Listener
    requires IsRun(l, actions)
    decreases actions
  {
    if actions == [] then l else After(Step(l, actions[0]), actions[1..])
  }

  ghost predicate DeliveredHaveMet(l: Listener) {
    forall d :: d in l.acceptOf <==> d in l.deliveries && l.deliveries[d].Delivered?
  }

  ghost predicate GotHaveMet(l: Listener) {
    forall a :: a in l.deliverOf <==> a in l.acceptances && l.acceptances[a].Got?
  }

  /** The two pairings undo each other, and the two sides of a pair saw the same connection. */
  ghost predicate PairsAgree(l: Listener) {
    && (forall d :: d in l.acceptOf ==>
          && l.acceptOf[d] in l.deliverOf && l.deliverOf[l.acceptOf[d]] == d
          && d in l.deliveries && l.acceptOf[d] in l.acceptances
          && l.acceptances[l.acceptOf[d]] == Got(l.deliveries[d].conn))
    && (forall a :: a in l.deliverOf ==> l.deliverOf[a] in l.acceptOf && l.acceptOf[l.deliverOf[a]] == a)
  }

  /** The deliver calls that returned true and the Accept calls that returned a connection, paired one to one. */
  ghost predicate HandOffIsBijection(l: Listener) {
    DeliveredHaveMet(l) && GotHaveMet(l) && PairsAgree(l)
  }

  ghost predicate SignalMatches(l: Listener) {
    l.closeSignals == AsCount(l.isClosed)
  }

  lemma StepKeepsMet(l: Listener, act: Action)
    requires Enabled(l, act) && DeliveredHaveMet(l) && GotHaveMet(l)
    ensures DeliveredHaveMet(Step(l, act)) && GotHaveMet(Step(l, act))
  {
  }

  lemma StepKeepsPairs(l: Listener, act: Action)
    requires Enabled(l, act) && HandOffIsBijection(l)
    ensures PairsAgree(Step(l, act))
  {
    if act.Meet? {
      assert act.d !in l.acceptOf && act.a !in l.deliverOf;
    }
  }

  lemma StepKeepsBijection(l: Listener, act: Action)
    requires Enabled(l, act) && HandOffIsBijection(l)
    ensures HandOffIsBijection(Step(l, act))
  {
    StepKeepsMet(l, act);
    StepKeepsPairs(l, act);
  }

  lemma {:induction false} RunKeepsInv(l: Listener, actions: seq<Action>)
    requires IsRun(l, actions) && HandOffIsBijection(l) && SignalMatches(l)
    ensures HandOffIsBijection(After(l, actions)) && SignalMatches(After(l, actions))
    decreases actions
  {
    if actions != [] {
      StepKeepsBijection(l, actions[0]);
      RunKeepsInv(Step(l, actions[0]), actions[1..]);
    }
  }

  /**
   Over every interleaving, the deliver calls that returned true and the Accept calls that returned
   a connection are in bijection, connection for connection, and the close signal is raised at most once.
   */
  lemma NoneLostNoneDuplicated(actions: seq<Action>)
    requires IsRun(FRESH, actions)
    ensures var l := After(FRESH, actions);
            HandOffIsBijection(l) && l.closeSignals <= 1 && (l.closeSignals == 1 <==> l.isClosed)
  {
    RunKeepsInv(FRESH, actions);
  }

  /** What is known of the calls from the run alone. */
  ghost predicate CallsAreKept(l: Listener, actions: seq<Action>) {
    && (forall i :: 0 <= i < |actions| && actions[i].CallDeliver? ==>
          actions[i].d in l.deliveries && l.deliveries[actions[i].d].conn == actions[i].conn)
    && (l.isClosed <==> exists i :: 0 <= i < |actions| && actions[i].CallClose?)
    && (forall d :: d in l.deliveries && l.deliveries[d].Rejected? ==> l.isClosed)
    && (forall a :: a in l.acceptances && l.acceptances[a].ListenerClosed? ==> l.isClosed)
  }

  lemma StepKeepsCalls(l: Listener, actions: seq<Action>, act: Action)
    requires Enabled(l, act) && CallsAreKept(l, actions)
    ensures CallsAreKept(Step(l, act), actions + [act])
  {
    var all := actions + [act];
    assert forall i :: 0 <= i < |actions| ==> all[i] == actions[i];
    assert act.CallClose? ==> all[|actions|].CallClose?;
  }

  lemma {:induction false} RunKeepsCalls(l: Listener, before: seq<Action>, actions: seq<Action>)
    requires IsRun(l, actions) && CallsAreKept(l, before)
    ensures CallsAreKept(After(l, actions), before + actions)
    decreases actions
  {
    if actions == [] {
      assert before + [] == before;
    } else {
      StepKeepsCalls(l, before, actions[0]);
      RunKeepsCalls(Step(l, actions[0]), before + [actions[0]], actions[1..]);
      assert before + [actions[0]] + actions[1..] == before + actions;
    }
  }

  /**
   On every run, each deliver call is about the connection it was made with, the listener is closed
   exactly if Close was called, and only then does a deliver return false or an Accept without a connection.
   */
  lemma CallsAreAnsweredTruly(actions: seq<Action>)
    requires IsRun(FRESH, actions)
    ensures CallsAreKept(After(FRESH, actions), actions)
  {
    RunKeepsCalls(FRESH, [], actions);
    assert [] + actions == actions;
  }

  /** In particular, when every deliver call brings its own connection, no connection is accepted twice. */
  lemma NoConnectionAcceptedTwice(actions: seq<Action>, a: nat, b: nat)
    requires IsRun(FRESH, actions)
    requires var l := After(FRESH, actions);
             && (forall d, e ::
                   d in l.deliveries && e in l.deliveries && l.deliveries[d].conn == l.deliveries[e].conn ==> d == e)
             && a in l.acceptances && b in l.acceptances && l.acceptances[a].Got? && l.acceptances[b].Got?
             && l.acceptances[a].conn == l.acceptances[b].conn
    ensures a == b
  {
    RunKeepsInv(FRESH, actions);
    var l := After(FRESH, actions);
    assert l.deliveries[l.deliverOf[a]].conn == l.deliveries[l.deliverOf[b]].conn;
  }

  // ---- Nobody is left waiting ----

  ghost function WaitingDelivers(l: Listener): set<nat> {
    set d | d in l.deliveries && l.deliveries[d].Offering?
  }

  ghost function WaitingAccepts(l: Listener): set<nat> {
    set a | a in l.acceptances && l.acceptances[a].Accepting?
  }

  predicate IsNewCall(act: Action) {
    act.CallDeliver? || act.CallAccept? || act.CallClose?
  }

  ghost function StepsLeft(l: Listener): nat {
    |WaitingDelivers(l)| + |WaitingAccepts(l)|
  }

  /** Whatever a waiting call does next, it returns by it. */
  lemma StepReleases(l: Listener, act: Action)
    requires Enabled(l, act) && !IsNewCall(act)
    ensures StepsLeft(Step(l, act)) < StepsLeft(l) && Step(l, act).isClosed == l.isClosed
  {
    var l' := Step(l, act);
    match act
    case Meet(d, a) =>
      assert WaitingDelivers(l') == WaitingDelivers(l) - {d} && WaitingAccepts(l') == WaitingAccepts(l) - {a};
    case GiveUpDeliver(d) =>
      assert WaitingDelivers(l') == WaitingDelivers(l) - {d} && WaitingAccepts(l') == WaitingAccepts(l);
    case GiveUpAccept(a) =>
      assert WaitingDelivers(l') == WaitingDelivers(l) && WaitingAccepts(l') == WaitingAccepts(l) - {a};
  }

  ghost predicate CannotGoOn(l: Listener) {
    forall act :: Enabled(l, act) ==> IsNewCall(act)
  }

  lemma {:induction false} RunsWithoutCallsEnd(l: Listener, actions: seq<Action>)
    requires IsRun(l, actions) && forall i :: 0 <= i < |actions| ==> !IsNewCall(actions[i])
    ensures |actions| <= StepsLeft(l) && After(l, actions).isClosed == l.isClosed
    decreases actions
  {
    if actions != [] {
      assert !IsNewCall(actions[0]);
      StepReleases(l, actions[0]);
      RunsWithoutCallsEnd(Step(l, actions[0]), actions[1..]);
    }
  }

  /**
   On a closed listener every waiting call can return by itself; on an open one only deliver and Accept
   together can.
   */
  lemma WhoIsLeft(l: Listener)
    requires CannotGoOn(l)
    ensures l.isClosed ==> WaitingDelivers(l) == {} && WaitingAccepts(l) == {}
    ensures WaitingDelivers(l) == {} || WaitingAccepts(l) == {}
  {
    assert forall d :: d in WaitingDelivers(l) && l.isClosed ==> Enabled(l, GiveUpDeliver(d));
    assert forall a :: a in WaitingAccepts(l) && l.isClosed ==> Enabled(l, GiveUpAccept(a));
    assert forall d, a :: d in WaitingDelivers(l) && a in WaitingAccepts(l) ==> Enabled(l, Meet(d, a));
  }

  /**
   Nobody is left waiting on a closed listener, however the calls already made go on: every schedule
   of them ends after at most as many steps as there are calls waiting, and where it ends nobody
   waits. The same holds of an open listener, except that calls of one side alone do wait.
   */
  lemma CloseReleasesEveryone(l: Listener, actions: seq<Action>)
    requires IsRun(l, actions) && forall i :: 0 <= i < |actions| ==> !IsNewCall(actions[i])
    ensures |actions| <= |WaitingDelivers(l)| + |WaitingAccepts(l)|
    ensures CannotGoOn(After(l, actions)) ==>
              var end := After(l, actions);
              && (l.isClosed ==> WaitingDelivers(end) == {} && WaitingAccepts(end) == {})
              && (WaitingDelivers(end) == {} || WaitingAccepts(end) == {})
  {
    RunsWithoutCallsEnd(l, actions);
    if CannotGoOn(After(l, actions)) {
      WhoIsLeft(After(l, actions));
    }
  }

  /** A connection whose closing releases the upgrade handler that waits for it. */
  class NotifyCloseConn {
    var innerCloses: nat
    var isDone: bool
    var doneSignals: nat

    ghost predicate Valid()
      reads this
    {
      doneSignals == AsCount(isDone) && (isDone <==> innerCloses > 0)
    }

    constructor ()
      ensures Valid() && !isDone && innerCloses == 0
    {
      innerCloses, isDone, doneSignals := 0, false, 0;
    }

    /** Every call closes the inner connection; only the first one signals. */
    method Close()
      requires Valid()
      modifies this
      ensures Valid() && isDone && innerCloses == old(innerCloses) + 1 && doneSignals == 1
    {
      innerCloses := innerCloses + 1;
      if !isDone {
        isDone := true;
        doneSignals := doneSignals + 1;
      }
    }
  }
}
