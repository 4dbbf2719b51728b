/**
 The browser connection's signals at their finest grain: any number of message callbacks, error
 callbacks and closers run beside one reader. One action is one access to shared state: an atomic
 flag, a lock, a channel, or a section held under the queue mutex.
 */
module BrowserSignals {
  import opened Collections

  const MAX_BUFFERED_ERRORS: nat := 4

  /** Where a callback stands; the flag tells whether it goes on to close the connection. */
  datatype Pc =
    | StoreCheck                      // about to look at the closed flag
    | StoreAppend                     // about to append under the queue mutex
    | StoreSignal                     // has appended, about to offer the wake token
    | ErrorCheck(thenClose: bool)     // about to look at the closed flag
    | ErrorLock(thenClose: bool)      // about to take the read lock
    | ErrorRecheck(thenClose: bool)   // holds the read lock, about to look again
    | ErrorSend(thenClose: bool)      // holds the read lock, about to send
    | ErrorUnlock(thenClose: bool)    // about to give the read lock back
    | CloseOnce                       // about to enter the once-only section
    | CloseMark                       // inside it, about to set the closed flag
    | CloseDrop                       // about to drop the queue under the queue mutex
    | CloseLock                       // about to ask for the write lock, which keeps new read locks out
    | CloseDrain                      // waits until the read locks still held are given back
    | CloseChannel                    // holds the write lock, about to close the error channel
    | CloseUnlock                     // about to give the write lock back and leave the section
    | Returned

  datatype Once = NotStarted | Running(thread: nat) | Done

  datatype ReaderPc =
    | Away
    | Looking  // about to take a message under the queue mutex
    | Parked   // found the queue empty and waits for an error or the wake token

  datatype Conn = Conn(
    queued: nat,
    token: bool,
    isClosed: bool,
    once: Once,
    errors: nat,
    isErrorChannelClosed: bool,
    readLocks: set<nat>,
    writeLock: Option<nat>,  // who holds or has asked for the write lock
    threads: map<nat, Pc>,
    reader: ReaderPc,
    closes: nat,       // how often the error channel was closed
    panicked: bool)    // a send on, or a second close of, a closed channel

  const FRESH := Conn(0, false, false, NotStarted, 0, false, {}, None, map[], Away, 0, false)

  datatype Action =
    | Begin(thread: nat, pc: Pc)            // a callback or a Close call starts
    | Run(thread: nat, isOverflow: bool)    // its next action
    | ReaderEnters
    | ReaderLooks
    | ReaderTakesToken
    | ReaderTakesError

  predicate StartsAt(pc: Pc) {
    pc == StoreCheck || pc == ErrorCheck(false) || pc == CloseOnce
  }

  predicate CanRun(c: Conn, thread: nat) {
    && thread in c.threads
    && match c.threads[thread]
       case Returned => false
       case ErrorLock(_) => c.writeLock.None?
       case CloseLock => c.writeLock.None?
       case CloseDrain => c.readLocks == {}
       case CloseOnce => !c.once.Running?
       case _ => true
  }

  predicate Enabled(c: Conn, a: Action) {
    match a
    case Begin(thread, pc) => thread !in c.threads && StartsAt(pc)
    case Run(thread, _) => CanRun(c, thread)
    case ReaderEnters => c.reader.Away?
    case ReaderLooks => c.reader.Looking?
    case ReaderTakesToken => c.reader.Parked? && c.token
    case ReaderTakesError => c.reader.Parked? && (c.errors > 0 || c.isErrorChannelClosed)
  }

  function Step(c: Conn, a: Action): Conn
    requires Enabled(c, a)
  {
    match a
    case Begin(thread, pc) => c.(threads := c.threads[thread := pc])
    case Run(thread, isOverflow) => Advance(c, thread, isOverflow)
    case ReaderEnters => if c.isClosed then c else c.(reader := Looking)
    case ReaderLooks => if c.queued > 0 then c.(queued := c.queued - 1, reader := Away) else c.(reader := Parked)
    case ReaderTakesToken => c.(token := false, reader := Looking)
    case ReaderTakesError => c.(errors := if c.errors > 0 then c.errors - 1 else 0, reader := Away)
  }

  /** Where a thread stands after its next action. */
  function NextPc(c: Conn, pc: Pc, isOverflow: bool): Pc {
    match pc
    case StoreCheck => if c.isClosed then Returned else StoreAppend
    case StoreAppend => if isOverflow then ErrorCheck(true) else StoreSignal
    case StoreSignal => Returned
    case ErrorCheck(thenClose) => if c.isClosed then AfterError(thenClose) else ErrorLock(thenClose)
    case ErrorLock(thenClose) => ErrorRecheck(thenClose)
    case ErrorRecheck(thenClose) => if c.isClosed then ErrorUnlock(thenClose) else ErrorSend(thenClose)
    case ErrorSend(thenClose) => ErrorUnlock(thenClose)
    case ErrorUnlock(thenClose) => AfterError(thenClose)
    case CloseOnce => if c.once.Done? then Returned else CloseMark
    case CloseMark => CloseDrop
    case CloseDrop => CloseLock
    case CloseLock => CloseDrain
    case CloseDrain => CloseChannel
    case CloseChannel => CloseUnlock
    case CloseUnlock => Returned
    case Returned => Returned
  }

  /** What the action does to each shared thing. */
  function Advance(c: Conn, t: nat, isOverflow: bool): Conn
    requires CanRun(c, t)
  {
    var pc := c.threads[t];
    c.(
      threads := c.threads[t := NextPc(c, pc, isOverflow)],
      queued := if pc.StoreAppend? && !isOverflow then c.queued + 1 else if pc.CloseDrop? then 0 else c.queued,
      token := c.token || pc.StoreSignal?,
      readLocks := if pc.ErrorLock? then c.readLocks + {t}
                   else if pc.ErrorUnlock? then c.readLocks - {t} else c.readLocks,
      writeLock := if pc.CloseLock? then Some(t) else if pc.CloseUnlock? then None else c.writeLock,
      once := if pc.CloseOnce? && !c.once.Done? then Running(t) else if pc.CloseUnlock? then Done else c.once,
      isClosed := c.isClosed || pc.CloseMark?,
      errors := if pc.ErrorSend? && c.errors < MAX_BUFFERED_ERRORS then c.errors + 1 else c.errors,
      isErrorChannelClosed := c.isErrorChannelClosed || pc.CloseChannel?,
      closes := if pc.CloseChannel? then c.closes + 1 else c.closes,
      panicked := c.panicked || (c.isErrorChannelClosed && (pc.ErrorSend? || pc.CloseChannel?)))
  }

  /** An overflowing message goes on from its error to closing the connection. */
  function AfterError(thenClose: bool): Pc {
    if thenClose then CloseOnce else Returned
  }

  ghost predicate IsRun(c: Conn, actions: seq<Action>)
    decreases actions
  {
    actions == [] || (Enabled(c, actions[0]) && IsRun(Step(c, actions[0]), actions[1..]))
  }

  function After(c: Conn, actions: seq<Action>): Conn
    requires IsRun(c, actions)
    decreases actions
  {
    if actions == [] then c else After(Step(c, actions[0]), actions[1..])
  }

  // ---- The wake token ----

  ghost predicate SomeoneIsAboutToSignal(c: Conn) {
    exists t :: t in c.threads && c.threads[t].StoreSignal?
  }

  /** A reader parked beside a non-empty queue has a token waiting for it, or one on its way. */
  ghost predicate NoLostWakeup(c: Conn) {
    c.reader.Parked? && c.queued > 0 ==> c.token || SomeoneIsAboutToSignal(c)
  }

  lemma StepKeepsWakeup(c: Conn, a: Action)
    requires Enabled(c, a) && NoLostWakeup(c)
    ensures NoLostWakeup(Step(c, a))
  {
    var c' := Step(c, a);
    if c'.reader.Parked? && c'.queued > 0 && !c'.token {
      assert c.reader.Parked? && !c.token;
      if a.Run? && c.threads[a.thread].StoreAppend? && !a.isOverflow {
        assert c'.threads[a.thread].StoreSignal?;
      } else {
        var t :| t in c.threads && c.threads[t].StoreSignal?;
        assert c'.threads[t].StoreSignal?;
      }
    }
  }

  // ---- The error channel ----

  predicate HoldsReadLock(pc: Pc) {
    pc.ErrorRecheck? || pc.ErrorSend? || pc.ErrorUnlock?
  }

  /** From the request for the write lock on, as far as others can tell. */
  predicate HoldsWriteLock(pc: Pc) {
    pc.CloseDrain? || pc.CloseChannel? || pc.CloseUnlock?
  }

  predicate InsideOnce(pc: Pc) {
    pc.CloseMark? || pc.CloseDrop? || pc.CloseLock? || pc.CloseDrain? || pc.CloseChannel? || pc.CloseUnlock?
  }

  /** Locks are held by exactly the threads that stand between taking and giving them back. */
  ghost predicate ReadLocksMatch(c: Conn) {
    forall t :: t in c.readLocks <==> t in c.threads && HoldsReadLock(c.threads[t])
  }

  ghost predicate WriteLockMatches(c: Conn) {
    && (forall t :: c.writeLock == Some(t) <==> t in c.threads && HoldsWriteLock(c.threads[t]))
    && (forall t :: t in c.threads && (c.threads[t].CloseChannel? || c.threads[t].CloseUnlock?) ==> c.readLocks == {})
  }

  ghost predicate OnceMatches(c: Conn) {
    forall t :: c.once == Running(t) <==> t in c.threads && InsideOnce(c.threads[t])
  }

  ghost predicate LocksMatch(c: Conn) {
    ReadLocksMatch(c) && WriteLockMatches(c) && OnceMatches(c)
  }

  /** The closed flag is set before the channel is closed, and no sender gets past its second look afterwards. */
  ghost predicate ChannelSafe(c: Conn) {
    && !c.panicked
    && c.closes == (if c.isErrorChannelClosed then 1 else 0)
    && c.errors <= MAX_BUFFERED_ERRORS
    && (c.isErrorChannelClosed ==> c.isClosed)
    && (c.isClosed <==>
          c.once.Done? || (c.once.Running? && c.once.thread in c.threads && !c.threads[c.once.thread].CloseMark?))
    && (c.isErrorChannelClosed <==>
          c.once.Done? || (c.once.Running? && c.once.thread in c.threads && c.threads[c.once.thread].CloseUnlock?))
    && (forall t :: t in c.threads && c.threads[t].ErrorSend? ==> !c.isErrorChannelClosed)
  }

  ghost predicate Inv(c: Conn) {
    NoLostWakeup(c) && LocksMatch(c) && ChannelSafe(c)
  }

  /** Between two positions of one thread lies the taking or the giving back of each lock it holds. */
  lemma NextPcAndLocks(c: Conn, pc: Pc, isOverflow: bool)
    requires pc.CloseOnce? ==> !c.once.Running?
    ensures var pc' := NextPc(c, pc, isOverflow);
            && (HoldsReadLock(pc') <==> (HoldsReadLock(pc) && !pc.ErrorUnlock?) || pc.ErrorLock?)
            && (HoldsWriteLock(pc') <==> (HoldsWriteLock(pc) && !pc.CloseUnlock?) || pc.CloseLock?)
            && (InsideOnce(pc') <==> (InsideOnce(pc) && !pc.CloseUnlock?) || (pc.CloseOnce? && !c.once.Done?))
  {
  }

  lemma AdvanceKeepsReadLocks(c: Conn, t: nat, isOverflow: bool)
    requires CanRun(c, t) && ReadLocksMatch(c)
    ensures ReadLocksMatch(Advance(c, t, isOverflow))
  {
    NextPcAndLocks(c, c.threads[t], isOverflow);
  }

  lemma AdvanceKeepsWriteLock(c: Conn, t: nat, isOverflow: bool)
    requires CanRun(c, t) && WriteLockMatches(c)
    ensures WriteLockMatches(Advance(c, t, isOverflow))
  {
    NextPcAndLocks(c, c.threads[t], isOverflow);
    assert c.writeLock == Some(t) <==> HoldsWriteLock(c.threads[t]);
  }

  lemma AdvanceKeepsOnce(c: Conn, t: nat, isOverflow: bool)
    requires CanRun(c, t) && OnceMatches(c)
    ensures OnceMatches(Advance(c, t, isOverflow))
  {
    NextPcAndLocks(c, c.threads[t], isOverflow);
    assert c.once == Running(t) <==> InsideOnce(c.threads[t]);
  }

  lemma StepKeepsLocks(c: Conn, a: Action)
    requires Enabled(c, a) && LocksMatch(c)
    ensures LocksMatch(Step(c, a))
  {
    match a
    case Run(t, isOverflow) =>
      AdvanceKeepsReadLocks(c, t, isOverflow);
      AdvanceKeepsWriteLock(c, t, isOverflow);
      AdvanceKeepsOnce(c, t, isOverflow);
    case _ =>
  }

  lemma StepKeepsChannelSafe(c: Conn, a: Action)
    requires Enabled(c, a) && LocksMatch(c) && ChannelSafe(c)
    ensures ChannelSafe(Step(c, a))
  {
    if a.Run? && c.threads[a.thread].CloseChannel? {
      assert c.writeLock == Some(a.thread) && c.readLocks == {};
      assert forall t :: t in c.threads && c.threads[t].ErrorSend? ==> t in c.readLocks;
    }
  }

  lemma StepKeepsInv(c: Conn, a: Action)
    requires Enabled(c, a) && Inv(c)
    ensures Inv(Step(c, a))
  {
    StepKeepsWakeup(c, a);
    StepKeepsLocks(c, a);
    StepKeepsChannelSafe(c, a);
  }

  lemma {:induction false} RunKeepsInv(c: Conn, actions: seq<Action>)
    requires Inv(c) && IsRun(c, actions)
    ensures Inv(After(c, actions))
    decreases actions
  {
    if actions != [] {
      StepKeepsInv(c, actions[0]);
      RunKeepsInv(Step(c, actions[0]), actions[1..]);
    }
  }

  /** On every run: no send and no second close ever meets the closed error channel. */
  lemma ErrorChannelIsSafe(actions: seq<Action>)
    requires IsRun(FRESH, actions)
    ensures var c := After(FRESH, actions);
            && !c.panicked
            && c.closes <= 1 && (c.closes == 1 <==> c.isErrorChannelClosed)
            && (c.once.Done? ==> c.isClosed && c.closes == 1)
            && c.errors <= MAX_BUFFERED_ERRORS
  {
    RunKeepsInv(FRESH, actions);
  }

  /**
   On every run, a reader parked while messages are queued can wake: the token is there, or some
   producer can take the one step that puts it there.
   */
  lemma ParkedReaderCanWake(actions: seq<Action>) returns (wake: seq<Action>)
    requires IsRun(FRESH, actions)
    requires After(FRESH, actions).reader.Parked? && After(FRESH, actions).queued > 0
    ensures |wake| <= 1 && IsRun(After(FRESH, actions), wake)
    ensures var c := After(After(FRESH, actions), wake);
            Enabled(c, ReaderTakesToken) && c.queued > 0
            && Step(c, ReaderTakesToken).reader.Looking?
  {
    RunKeepsInv(FRESH, actions);
    var c := After(FRESH, actions);
    if c.token {
      wake := [];
    } else {
      var t :| t in c.threads && c.threads[t].StoreSignal?;
      wake := [Run(t, false)];
      assert wake[1..] == [];
    }
  }

  // ---- Nobody is stranded ----

  predicate IsArrival(a: Action) {
    a.Begin? || a.ReaderEnters?
  }

  /** How many more actions a thread can take, and one more for offering the token. */
  function ThreadWork(pc: Pc): nat {
    match pc
    case StoreCheck => 14
    case StoreAppend => 13
    case StoreSignal => 3
    case ErrorCheck(_) => 12
    case ErrorLock(_) => 11
    case ErrorRecheck(_) => 10
    case ErrorSend(_) => 9
    case ErrorUnlock(_) => 8
    case CloseOnce => 7
    case CloseMark => 6
    case CloseDrop => 5
    case CloseLock => 4
    case CloseDrain => 3
    case CloseChannel => 2
    case CloseUnlock => 1
    case Returned => 0
  }

  function ReaderWork(reader: ReaderPc): nat {
    match reader
    case Away => 0
    case Parked => 1
    case Looking => 2
  }

  ghost function Works(threads: map<nat, Pc>): map<nat, int> {
    map t | t in threads :: ThreadWork(threads[t])
  }

  /** How many more actions the calls already made can take; a pending token lets the reader look once more. */
  ghost function WorkLeft(c: Conn): int {
    SumOfValues(Works(c.threads)) + ReaderWork(c.reader) + 2 * AsCount(c.token)
  }

  lemma {:induction false} WorkIsNatural(m: map<nat, int>)
    requires forall t :: t in m ==> m[t] >= 0
    ensures SumOfValues(m) >= 0
    decreases |m|
  {
    if m != map[] {
      var t :| t in m;
      SumOfValuesTakeOut(m, t);
      WorkIsNatural(m - {t});
    }
  }

  lemma MovingOneThread(threads: map<nat, Pc>, t: nat, pc: Pc)
    requires t in threads
    ensures SumOfValues(Works(threads[t := pc]))
            == SumOfValues(Works(threads)) - ThreadWork(threads[t]) + ThreadWork(pc)
  {
    SumOfValuesTakeOut(Works(threads), t);
    SumOfValuesTakeOut(Works(threads[t := pc]), t);
    assert Works(threads[t := pc]) - {t} == Works(threads) - {t};
  }

  lemma NextPcIsLessWork(c: Conn, pc: Pc, isOverflow: bool)
    requires !pc.Returned?
    ensures ThreadWork(NextPc(c, pc, isOverflow)) < ThreadWork(pc)
    ensures pc.StoreSignal? ==> ThreadWork(NextPc(c, pc, isOverflow)) + 2 < ThreadWork(pc)
  {
  }

  lemma StepUsesUp(c: Conn, a: Action)
    requires Enabled(c, a) && !IsArrival(a)
    ensures WorkLeft(Step(c, a)) < WorkLeft(c) && (c.isClosed ==> Step(c, a).isClosed)
  {
    if a.Run? {
      NextPcIsLessWork(c, c.threads[a.thread], a.isOverflow);
      MovingOneThread(c.threads, a.thread, NextPc(c, c.threads[a.thread], a.isOverflow));
    }
  }

  lemma {:induction false} RunsWithoutArrivalsEnd(c: Conn, actions: seq<Action>)
    requires IsRun(c, actions) && forall i :: 0 <= i < |actions| ==> !IsArrival(actions[i])
    ensures |actions| <= WorkLeft(c) && (c.isClosed ==> After(c, actions).isClosed)
    decreases actions
  {
    if actions == [] {
      WorkIsNatural(Works(c.threads));
    } else {
      assert !IsArrival(actions[0]);
      StepUsesUp(c, actions[0]);
      RunsWithoutArrivalsEnd(Step(c, actions[0]), actions[1..]);
    }
  }

  ghost predicate CannotGoOn(c: Conn) {
    forall a :: Enabled(c, a) ==> IsArrival(a)
  }

  lemma OnceHasItsThread(c: Conn)
    requires OnceMatches(c)
    ensures c.once.Running? ==> c.once.thread in c.threads && InsideOnce(c.threads[c.once.thread])
  {
    assert c.once.Running? ==> c.once == Running(c.once.thread);
  }

  /** The locks cannot deadlock: a thread that waits for one waits for a thread that can go on. */
  lemma StuckMeansReturned(c: Conn)
    requires LocksMatch(c) && CannotGoOn(c)
    ensures forall t :: t in c.threads ==> c.threads[t].Returned?
  {
    forall t | t in c.threads
      ensures !CanRun(c, t)
    {
      assert CanRun(c, t) ==> Enabled(c, Run(t, false));
    }
    assert forall t :: t in c.threads ==> !HoldsReadLock(c.threads[t]) && !HoldsWriteLock(c.threads[t]);
    assert c.readLocks == {};
    assert c.writeLock.None?;
    OnceHasItsThread(c);
  }

  lemma StuckReaderIsIdle(c: Conn)
    requires Inv(c) && CannotGoOn(c)
    ensures !c.reader.Looking?
    ensures c.reader.Parked? ==> !c.isClosed && c.queued == 0 && c.errors == 0
  {
    StuckMeansReturned(c);
    assert c.reader.Looking? ==> Enabled(c, ReaderLooks);
    assert c.reader.Parked? && c.token ==> Enabled(c, ReaderTakesToken);
    assert c.reader.Parked? && (c.errors > 0 || c.isErrorChannelClosed) ==> Enabled(c, ReaderTakesError);
    OnceHasItsThread(c);
  }

  /**
   From every reachable state, however the calls already made go on, they end after a bounded number
   of actions, and where they end every callback and closer has returned. A reader is left waiting
   only on an open connection with nothing queued and no error: on a closed one it has returned.
   */
  lemma ClosingReleasesTheReader(actions: seq<Action>, later: seq<Action>)
    requires IsRun(FRESH, actions) && IsRun(After(FRESH, actions), later)
    requires forall i :: 0 <= i < |later| ==> !IsArrival(later[i])
    ensures var c, end := After(FRESH, actions), After(After(FRESH, actions), later);
            && |later| <= WorkLeft(c)
            && (CannotGoOn(end) ==>
                  && (forall t :: t in end.threads ==> end.threads[t].Returned?)
                  && (end.reader.Away? || (!end.isClosed && end.queued == 0 && end.errors == 0))
                  && (c.isClosed ==> end.reader.Away?))
  {
    RunKeepsInv(FRESH, actions);
    RunKeepsInv(After(FRESH, actions), later);
    RunsWithoutArrivalsEnd(After(FRESH, actions), later);
    var end := After(After(FRESH, actions), later);
    if CannotGoOn(end) {
      StuckMeansReturned(end);
      StuckReaderIsIdle(end);
    }
  }

  // ---- Nothing gets lost on the way ----

  /** The thread of a step stands at `pc`. */
  predicate StandsAt(c: Conn, a: Action, pc: Pc) {
    a.Run? && a.thread in c.threads && c.threads[a.thread] == pc
  }

  predicate IsSending(c: Conn, a: Action) {
    StandsAt(c, a, ErrorSend(true)) || StandsAt(c, a, ErrorSend(false))
  }

  /** Messages appended, taken by the reader and dropped by closing; errors sent, received and discarded. */
  datatype Traffic = Traffic(appended: nat, taken: nat, dropped: nat, sent: nat, received: nat, discarded: nat)

  /** An error is discarded only when four are waiting. */
  function Counted(c: Conn, a: Action, t: Traffic): Traffic {
    Traffic(
      t.appended + if StandsAt(c, a, StoreAppend) && !a.isOverflow then 1 else 0,
      t.taken + if a.ReaderLooks? && c.queued > 0 then 1 else 0,
      t.dropped + if StandsAt(c, a, CloseDrop) then c.queued else 0,
      t.sent + if IsSending(c, a) then 1 else 0,
      t.received + if a.ReaderTakesError? && c.errors > 0 then 1 else 0,
      t.discarded + if IsSending(c, a) && c.errors == 4 then 1 else 0)
  }

  function TrafficOf(c: Conn, actions: seq<Action>, t: Traffic): Traffic
    requires IsRun(c, actions)
    decreases actions
  {
    if actions == [] then t else TrafficOf(Step(c, actions[0]), actions[1..], Counted(c, actions[0], t))
  }

  ghost predicate Balances(c: Conn, t: Traffic) {
    && c.queued + t.taken + t.dropped == t.appended
    && c.errors + t.received + t.discarded == t.sent && c.errors <= 4
  }

  lemma StepBalances(c: Conn, a: Action, t: Traffic)
    requires Enabled(c, a) && Balances(c, t)
    ensures Balances(Step(c, a), Counted(c, a, t))
  {
  }

  lemma {:induction false} RunBalances(c: Conn, actions: seq<Action>, t: Traffic)
    requires IsRun(c, actions) && Balances(c, t)
    ensures Balances(After(c, actions), TrafficOf(c, actions, t))
    decreases actions
  {
    if actions != [] {
      StepBalances(c, actions[0], t);
      RunBalances(Step(c, actions[0]), actions[1..], Counted(c, actions[0], t));
    }
  }

  /**
   On every run, each appended message is still queued, has been taken by the reader, or was dropped by
   closing, and each error sent is still waiting, has been received, or found four others waiting.
   */
  lemma TrafficBalances(actions: seq<Action>)
    requires IsRun(FRESH, actions)
    ensures Balances(After(FRESH, actions), TrafficOf(FRESH, actions, Traffic(0, 0, 0, 0, 0, 0)))
  {
    RunBalances(FRESH, actions, Traffic(0, 0, 0, 0, 0, 0));
  }

  // ---- Whoever sets out to close has closed by the time it returns ----

  /** The threads that call Close, and those whose message overflows the queue. */
  function ClosersBy(c: Conn, a: Action): set<nat> {
    match a
    case Begin(t, pc) => if pc.CloseOnce? then {t} else {}
    case Run(t, isOverflow) => if StandsAt(c, a, StoreAppend) && isOverflow then {t} else {}
    case _ => {}
  }

  function Closers(c: Conn, actions: seq<Action>): set<nat>
    requires IsRun(c, actions)
    decreases actions
  {
    if actions == [] then {} else ClosersBy(c, actions[0]) + Closers(Step(c, actions[0]), actions[1..])
  }

  predicate IsOnItsWayToClose(pc: Pc) {
    match pc
    case ErrorCheck(thenClose) => thenClose
    case ErrorLock(thenClose) => thenClose
    case ErrorRecheck(thenClose) => thenClose
    case ErrorSend(thenClose) => thenClose
    case ErrorUnlock(thenClose) => thenClose
    case _ => pc.CloseOnce? || InsideOnce(pc)
  }

  ghost predicate ClosersClose(c: Conn, closers: set<nat>) {
    forall t :: t in closers ==>
      t in c.threads && (IsOnItsWayToClose(c.threads[t]) || (c.threads[t].Returned? && c.once.Done?))
  }

  lemma StepKeepsClosers(c: Conn, a: Action, closers: set<nat>)
    requires Enabled(c, a) && ClosersClose(c, closers)
    ensures ClosersClose(Step(c, a), closers + ClosersBy(c, a))
  {
  }

  lemma {:induction false} RunKeepsClosers(c: Conn, actions: seq<Action>, closers: set<nat>)
    requires IsRun(c, actions) && ClosersClose(c, closers)
    ensures ClosersClose(After(c, actions), closers + Closers(c, actions))
    decreases actions
  {
    if actions == [] {
      assert closers + {} == closers;
    } else {
      StepKeepsClosers(c, actions[0], closers);
      RunKeepsClosers(Step(c, actions[0]), actions[1..], closers + ClosersBy(c, actions[0]));
      assert closers + ClosersBy(c, actions[0]) + Closers(Step(c, actions[0]), actions[1..])
          == closers + Closers(c, actions);
    }
  }

  /**
   On every run, once a call of Close or a callback whose message overflowed has returned, the
   connection is closed for good.
   */
  lemma ClosersHaveClosed(actions: seq<Action>, t: nat)
    requires IsRun(FRESH, actions) && t in Closers(FRESH, actions)
    ensures var c := After(FRESH, actions);
            t in c.threads && (c.threads[t].Returned? ==> c.isClosed && c.isErrorChannelClosed && c.closes == 1)
  {
    RunKeepsInv(FRESH, actions);
    RunKeepsClosers(FRESH, actions, {});
    assert {} + Closers(FRESH, actions) == Closers(FRESH, actions);
  }

  // ---- Nothing starts on a closed connection ----

  predicate HasDoneNothing(pc: Pc) {
    pc.StoreCheck? || pc == ErrorCheck(false) || pc.CloseOnce? || pc.Returned?
  }

  lemma StepStartsNothing(c: Conn, a: Action, t: nat)
    requires Enabled(c, a) && ChannelSafe(c) && c.isClosed && (t in c.threads ==> HasDoneNothing(c.threads[t]))
    ensures Step(c, a).isClosed && (c.reader.Away? ==> Step(c, a).reader.Away?)
    ensures t in Step(c, a).threads ==> HasDoneNothing(Step(c, a).threads[t])
  {
  }

  lemma {:induction false} RunStartsNothing(c: Conn, later: seq<Action>, t: nat)
    requires IsRun(c, later) && Inv(c) && c.isClosed && (t in c.threads ==> HasDoneNothing(c.threads[t]))
    ensures var end := After(c, later);
            (t in end.threads ==> HasDoneNothing(end.threads[t])) && (c.reader.Away? ==> end.reader.Away?)
    decreases later
  {
    if later != [] {
      StepStartsNothing(c, later[0], t);
      StepKeepsInv(c, later[0]);
      RunStartsNothing(Step(c, later[0]), later[1..], t);
    }
  }

  /**
   On every run, a callback that starts once the connection is closed neither appends a message nor
   sends an error nor closes again, and a read that starts then never waits.
   */
  lemma NothingStartsOnceClosed(actions: seq<Action>, later: seq<Action>, t: nat)
    requires IsRun(FRESH, actions) && IsRun(After(FRESH, actions), later)
    requires After(FRESH, actions).isClosed && t !in After(FRESH, actions).threads
    ensures var c, end := After(FRESH, actions), After(After(FRESH, actions), later);
            && (t in end.threads ==> HasDoneNothing(end.threads[t]))
            && (c.reader.Away? ==> end.reader.Away?)
  {
    RunKeepsInv(FRESH, actions);
    RunStartsNothing(After(FRESH, actions), later, t);
  }
}
