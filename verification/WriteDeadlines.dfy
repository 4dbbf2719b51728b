/**
 Setting a write deadline beside writes. The websocket keeps a deadline field that every frame reads
 as it is handed to the connection, so the field belongs to the write lock. A setter only tries that
 lock: when it is busy, the deadline goes to the underlying connection instead, where it governs the
 frame in flight. Any number of writers and setters interleave freely.
 */
module WriteDeadlines {
  import opened Collections

  type Deadline = Option<int>

  datatype Pc =
    | WriteWaits                       // Write, about to take the lock
    | WriteHands                       // holds it, about to hand a frame to the connection
    | WriteSends                       // holds it, its frame in flight
    | WriteUnlocks
    | SetTries(deadline: Deadline)     // SetWriteDeadline, about to try the lock
    | SetField(deadline: Deadline)     // holds it, about to set the websocket's field
    | SetUnlocks
    | SetConn(deadline: Deadline)      // found it busy, about to set the connection's deadline
    | Returned

  /** `field` is what the websocket keeps for later frames, `conn` what stands on the connection. */
  datatype Writes = Writes(lock: Option<nat>, field: Deadline, conn: Deadline, threads: map<nat, Pc>)

  const FRESH := Writes(None, None, None, map[])

  datatype Action =
    | Begin(thread: nat, pc: Pc)
    | Run(thread: nat, goesOn: bool)  // `goesOn`: the connection is open, or the message has another frame

  predicate Enabled(c: Writes, a: Action) {
    match a
    case Begin(t, pc) => t !in c.threads && (pc.WriteWaits? || pc.SetTries?)
    case Run(t, _) => t in c.threads && !c.threads[t].Returned? && (c.threads[t].WriteWaits? ==> c.lock.None?)
  }

  function Step(c: Writes, a: Action): Writes
    requires Enabled(c, a)
  {
    match a
    case Begin(t, pc) => c.(threads := c.threads[t := pc])
    case Run(t, goesOn) => Advance(c.(threads := c.threads[t := NextPc(c, c.threads[t], goesOn)]), t, c.threads[t])
  }

  function NextPc(c: Writes, pc: Pc, goesOn: bool): Pc {
    match pc
    case WriteWaits => if goesOn then WriteHands else WriteUnlocks
    case WriteHands => WriteSends
    case WriteSends => if goesOn then WriteHands else WriteUnlocks
    case SetTries(deadline) => if c.lock.None? then SetField(deadline) else SetConn(deadline)
    case SetField(_) => SetUnlocks
    case _ => Returned
  }

  /** What the action of thread `t`, which stood at `pc`, does to the shared state. */
  function Advance(c: Writes, t: nat, pc: Pc): Writes {
    match pc
    case WriteWaits => c.(lock := Some(t))
    case WriteHands => c.(conn := c.field)
    case WriteUnlocks => c.(lock := None)
    case SetTries(_) => if c.lock.None? then c.(lock := Some(t)) else c
    case SetField(deadline) => c.(field := deadline)
    case SetUnlocks => c.(lock := None)
    case SetConn(deadline) => c.(conn := deadline)
    case _ => c
  }

  ghost predicate IsRun(c: Writes, actions: seq<Action>)
    decreases actions
  {
    actions == [] || (Enabled(c, actions[0]) && IsRun(Step(c, actions[0]), actions[1..]))
  }

  function After(c: Writes, actions: seq<Action>): Writes
    requires IsRun(c, actions)
    decreases actions
  {
    if actions == [] then c else After(Step(c, actions[0]), actions[1..])
  }

  // ---- One goroutine at a time on the write path ----

  predicate OnWritePath(pc: Pc) {
    pc.WriteHands? || pc.WriteSends? || pc.WriteUnlocks? || pc.SetField? || pc.SetUnlocks?
  }

  ghost predicate LockMatches(c: Writes) {
    forall t :: c.lock == Some(t) <==> t in c.threads && OnWritePath(c.threads[t])
  }

  lemma StepKeepsLock(c: Writes, a: Action)
    requires Enabled(c, a) && LockMatches(c)
    ensures LockMatches(Step(c, a))
  {
  }

  lemma {:induction false} RunKeepsLock(c: Writes, actions: seq<Action>)
    requires IsRun(c, actions) && LockMatches(c)
    ensures LockMatches(After(c, actions))
    decreases actions
  {
    if actions != [] {
      StepKeepsLock(c, actions[0]);
      RunKeepsLock(Step(c, actions[0]), actions[1..]);
    }
  }

  /**
   On every run, no frame is handed over, sent, or given a new deadline field while another thread does
   any of these.
   */
  lemma OneOnTheWritePath(actions: seq<Action>, t: nat, u: nat)
    requires IsRun(FRESH, actions)
    requires var threads := After(FRESH, actions).threads;
             t in threads && u in threads && OnWritePath(threads[t]) && OnWritePath(threads[u])
    ensures t == u
  {
    RunKeepsLock(FRESH, actions);
    assert After(FRESH, actions).lock == Some(t) && After(FRESH, actions).lock == Some(u);
  }

  // ---- A setter never waits ----

  predicate IsSetting(pc: Pc) {
    pc.SetTries? || pc.SetField? || pc.SetUnlocks? || pc.SetConn? || pc.Returned?
  }

  function SetterWork(pc: Pc): nat
    requires IsSetting(pc)
  {
    match pc
    case SetTries(_) => 3
    case SetField(_) => 2
    case SetUnlocks => 1
    case SetConn(_) => 1
    case Returned => 0
  }

  function OwnSteps(actions: seq<Action>, t: nat): nat {
    if actions == [] then 0
    else (if actions[0].Run? && actions[0].thread == t then 1 else 0) + OwnSteps(actions[1..], t)
  }

  /**
   Whatever writers and other setters do, a call to set the deadline can always take its next step,
   and it returns after at most three: it never waits behind a write in flight.
   */
  lemma {:induction false} SettersNeverWait(c: Writes, actions: seq<Action>, t: nat)
    requires IsRun(c, actions) && t in c.threads && IsSetting(c.threads[t])
    ensures var c' := After(c, actions);
            && t in c'.threads && IsSetting(c'.threads[t])
            && SetterWork(c'.threads[t]) + OwnSteps(actions, t) <= SetterWork(c.threads[t]) <= 3
            && (!c'.threads[t].Returned? ==> forall goesOn :: Enabled(c', Run(t, goesOn)))
    decreases actions
  {
    if actions != [] {
      SettersNeverWait(Step(c, actions[0]), actions[1..], t);
    }
  }

  // ---- Where a deadline arrives ----

  /** No step of the run sets the websocket's field. */
  ghost predicate LeavesField(c: Writes, actions: seq<Action>)
    requires IsRun(c, actions)
    decreases actions
  {
    actions == [] ||
    ((actions[0].Run? ==> !c.threads[actions[0].thread].SetField?) && LeavesField(Step(c, actions[0]), actions[1..]))
  }

  /** A deadline set under the lock governs every frame handed over from then on, until another is set there. */
  lemma {:induction false} FieldGovernsLaterFrames(c: Writes, later: seq<Action>, w: nat, goesOn: bool)
    requires IsRun(c, later) && LeavesField(c, later)
    requires w in After(c, later).threads && After(c, later).threads[w].WriteHands?
    ensures After(c, later).field == c.field
    ensures Step(After(c, later), Run(w, goesOn)).conn == c.field
    ensures Step(After(c, later), Run(w, goesOn)).threads[w].WriteSends?
    decreases later
  {
    if later != [] {
      FieldGovernsLaterFrames(Step(c, later[0]), later[1..], w, goesOn);
    }
  }

  /** Thread `w` itself does not move. */
  predicate Rests(actions: seq<Action>, w: nat) {
    forall i :: 0 <= i < |actions| ==> actions[i].Run? ==> actions[i].thread != w
  }

  /** While a writer stays where it is on the write path, nobody sets the field and nobody else hands a frame over. */
  lemma {:induction false} WriterKeepsTheField(c: Writes, later: seq<Action>, w: nat)
    requires LockMatches(c) && IsRun(c, later) && Rests(later, w)
    requires w in c.threads && (c.threads[w].WriteHands? || c.threads[w].WriteSends?)
    ensures var c' := After(c, later);
            && LockMatches(c') && c'.field == c.field && w in c'.threads && c'.threads[w] == c.threads[w]
    decreases later
  {
    if later != [] {
      assert c.lock == Some(w);
      StepKeepsLock(c, later[0]);
      OthersKeepTheField(c, later[0], w);
      assert forall i :: 0 <= i < |later[1..]| ==> later[1..][i] == later[i + 1];
      WriterKeepsTheField(Step(c, later[0]), later[1..], w);
    }
  }

  lemma OthersKeepTheField(c: Writes, a: Action, w: nat)
    requires LockMatches(c) && c.lock == Some(w) && Enabled(c, a) && (a.Run? ==> a.thread != w)
    ensures Step(c, a).field == c.field && w in Step(c, a).threads && Step(c, a).threads[w] == c.threads[w]
    ensures Step(c, a).conn == c.conn || (a.Run? && c.threads[a.thread].SetConn?)
  {
    assert a.Run? && OnWritePath(c.threads[a.thread]) ==> c.lock == Some(a.thread);
  }

  /** No setter that found the lock busy reaches the connection. */
  ghost predicate LeavesConn(c: Writes, actions: seq<Action>)
    requires IsRun(c, actions)
    decreases actions
  {
    actions == [] ||
    ((actions[0].Run? ==> !c.threads[actions[0].thread].SetConn?) && LeavesConn(Step(c, actions[0]), actions[1..]))
  }

  /**
   What stands on the connection while a frame is in flight stands until the frame is done or another
   busy setter comes.
   */
  lemma {:induction false} ConnStandsInFlight(c: Writes, later: seq<Action>, w: nat)
    requires LockMatches(c) && IsRun(c, later) && Rests(later, w) && LeavesConn(c, later)
    requires w in c.threads && c.threads[w].WriteSends?
    ensures After(c, later).conn == c.conn && w in After(c, later).threads && After(c, later).threads[w].WriteSends?
    decreases later
  {
    if later != [] {
      assert c.lock == Some(w);
      StepKeepsLock(c, later[0]);
      OthersKeepTheField(c, later[0], w);
      assert forall i :: 0 <= i < |later[1..]| ==> later[1..][i] == later[i + 1];
      ConnStandsInFlight(Step(c, later[0]), later[1..], w);
    }
  }

  /**
   On every run, a deadline that goes to the connection because the lock is busy governs the frame
   that is in flight at that moment, for as long as it is in flight and no other setter comes. It does
   not reach a frame that its writer is only about to hand over: whatever happens in between, that
   frame goes out under the deadline the websocket already had. So the deadline arrives exactly if a
   frame is in flight, or if it is the one that stood before.
   */
  lemma BusySetterReachesExactlyTheFrameInFlight(actions: seq<Action>, s: nat, w: nat, between: seq<Action>,
                                                 goesOn: bool)
    requires IsRun(FRESH, actions)
    requires var c := After(FRESH, actions);
             && s in c.threads && c.threads[s].SetConn?
             && w in c.threads && (c.threads[w].WriteHands? || c.threads[w].WriteSends?)
             && IsRun(Step(c, Run(s, goesOn)), between) && Rests(between, w)
             && (c.threads[w].WriteSends? ==> LeavesConn(Step(c, Run(s, goesOn)), between))
    ensures var c := After(FRESH, actions);
            var c' := After(Step(c, Run(s, goesOn)), between);
            && w in c'.threads && Enabled(c', Run(w, goesOn))
            && var sending := if c'.threads[w].WriteHands? then Step(c', Run(w, goesOn)) else c';
               sending.threads[w].WriteSends?
               && (sending.conn == c.threads[s].deadline
                   <==> c.threads[w].WriteSends? || c.field == c.threads[s].deadline)
  {
    RunKeepsLock(FRESH, actions);
    var c := After(FRESH, actions);
    StepKeepsLock(c, Run(s, goesOn));
    WriterKeepsTheField(Step(c, Run(s, goesOn)), between, w);
    if c.threads[w].WriteSends? {
      ConnStandsInFlight(Step(c, Run(s, goesOn)), between, w);
    }
  }

  /**
   Whoever holds the lock, another setter or a writer that is done included, a deadline that finds it
   busy is not kept for later frames: on every run, each frame handed over afterwards goes out under
   the deadline the websocket already had, until some setter does get the lock. So the deadline
   governs such a frame exactly if it is the one that stood before.
   */
  lemma BusySetterMissesLaterFrames(actions: seq<Action>, s: nat, w: nat, later: seq<Action>, goesOn: bool)
    requires IsRun(FRESH, actions)
    requires var c := After(FRESH, actions);
             && s in c.threads && c.threads[s].SetConn?
             && IsRun(Step(c, Run(s, goesOn)), later) && LeavesField(Step(c, Run(s, goesOn)), later)
             && var end := After(Step(c, Run(s, goesOn)), later);
                w in end.threads && end.threads[w].WriteHands?
    ensures var c := After(FRESH, actions);
            var sending := Step(After(Step(c, Run(s, goesOn)), later), Run(w, goesOn));
            && sending.threads[w].WriteSends? && sending.conn == c.field
            && (sending.conn == c.threads[s].deadline <==> c.field == c.threads[s].deadline)
  {
    FieldGovernsLaterFrames(Step(After(FRESH, actions), Run(s, goesOn)), later, w, goesOn);
  }

  lemma {:induction false} OneMore(c: Writes, actions: seq<Action>, a: Action)
    requires IsRun(c, actions) && Enabled(After(c, actions), a)
    ensures IsRun(c, actions + [a]) && After(c, actions + [a]) == Step(After(c, actions), a)
    decreases actions
  {
    if actions == [] {
      assert actions + [a] == [a] && [a][1..] == [];
    } else {
      assert (actions + [a])[1..] == actions[1..] + [a];
      OneMore(Step(c, actions[0]), actions[1..], a);
    }
  }

  const EARLIER: Deadline := Some(5)
  const LATER: Deadline := Some(7)

  /** Setter 0 takes the lock, setter 1 finds it busy. */
  const TWO_SETTERS: seq<Action> := [] + [Begin(0, SetTries(EARLIER))] + [Run(0, true)]
    + [Begin(1, SetTries(LATER))] + [Run(1, true)]

  /** Setter 0 returns, and after it setter 1. */
  const BOTH_RETURN: seq<Action> := TWO_SETTERS + [Run(0, true)] + [Run(0, true)] + [Run(1, true)]

  lemma TwoSettersMeet()
    ensures IsRun(FRESH, TWO_SETTERS)
    ensures After(FRESH, TWO_SETTERS) == Writes(Some(0), None, None, map[0 := SetField(EARLIER), 1 := SetConn(LATER)])
  {
    var actions: seq<Action> := [];
    OneMore(FRESH, actions, Begin(0, SetTries(EARLIER)));
    actions := actions + [Begin(0, SetTries(EARLIER))];
    OneMore(FRESH, actions, Run(0, true));
    actions := actions + [Run(0, true)];
    OneMore(FRESH, actions, Begin(1, SetTries(LATER)));
    actions := actions + [Begin(1, SetTries(LATER))];
    OneMore(FRESH, actions, Run(1, true));
  }

  lemma BothSettersReturn()
    ensures IsRun(FRESH, BOTH_RETURN)
    ensures After(FRESH, BOTH_RETURN) == Writes(None, EARLIER, LATER, map[0 := Returned, 1 := Returned])
  {
    TwoSettersMeet();
    OneMore(FRESH, TWO_SETTERS, Run(0, true));
    OneMore(FRESH, TWO_SETTERS + [Run(0, true)], Run(0, true));
    OneMore(FRESH, TWO_SETTERS + [Run(0, true)] + [Run(0, true)], Run(1, true));
  }

  /** A write from its call to its first frame in flight. */
  const FIRST_FRAME: seq<Action> := [Begin(2, WriteWaits)] + [Run(2, true)] + [Run(2, true)]

  /**
   A deadline can be lost for good with no write anywhere near: the setter returned last, no write was
   in flight, and yet the next frame goes out under the deadline of the setter before it.
   */
  lemma DeadlineIsLost()
    ensures IsRun(FRESH, BOTH_RETURN)
    ensures var c := After(FRESH, BOTH_RETURN);
            && c.threads == map[0 := Returned, 1 := Returned] && c.lock.None? && c.conn == LATER
            && IsRun(c, FIRST_FRAME)
            && var sending := After(c, FIRST_FRAME);
               2 in sending.threads && sending.threads[2].WriteSends? && sending.conn == EARLIER
  {
    BothSettersReturn();
    var c := After(FRESH, BOTH_RETURN);
    assert [] + [Begin(2, WriteWaits)] == [Begin(2, WriteWaits)];
    OneMore(c, [], Begin(2, WriteWaits));
    OneMore(c, [Begin(2, WriteWaits)], Run(2, true));
    OneMore(c, [Begin(2, WriteWaits)] + [Run(2, true)], Run(2, true));
  }

  /** A setter that finds the lock free sets the field by its next two steps, whatever others do before each of them. */
  lemma FreeSetterSetsTheField(c: Writes, s: nat, between: seq<Action>, goesOn: bool)
    requires LockMatches(c) && c.lock.None? && s in c.threads && c.threads[s].SetTries?
    requires IsRun(Step(c, Run(s, goesOn)), between) && Rests(between, s)
    ensures var c' := After(Step(c, Run(s, goesOn)), between);
            && c'.field == c.field && Enabled(c', Run(s, goesOn))
            && Step(c', Run(s, goesOn)).field == c.threads[s].deadline
  {
    StepKeepsLock(c, Run(s, goesOn));
    HolderKeepsTheField(Step(c, Run(s, goesOn)), between, s);
  }

  lemma {:induction false} HolderKeepsTheField(c: Writes, later: seq<Action>, s: nat)
    requires LockMatches(c) && IsRun(c, later) && Rests(later, s) && s in c.threads && c.threads[s].SetField?
    ensures After(c, later).field == c.field
    ensures s in After(c, later).threads && After(c, later).threads[s] == c.threads[s]
    decreases later
  {
    if later != [] {
      assert c.lock == Some(s);
      StepKeepsLock(c, later[0]);
      OthersKeepTheField(c, later[0], s);
      assert forall i :: 0 <= i < |later[1..]| ==> later[1..][i] == later[i + 1];
      HolderKeepsTheField(Step(c, later[0]), later[1..], s);
    }
  }
}
