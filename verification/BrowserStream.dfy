/**
 The browser connection as a byte stream: whole messages arrive from the socket and wait in a
 bounded queue, and a reader takes bytes out with buffers of any size. Each callback and each
 stretch of a read between two waits is one atomic step, as in the single-threaded browser.
 */
module BrowserStream {
  import opened Collections

  const MAX_QUEUED_MESSAGES: nat := 256
  const MAX_QUEUED_BYTES: nat := 16 * 1024 * 1024

  /**
   `leftover` is what an earlier read left of its message; `waiting` is the buffer size of a read
   that has found the queue empty and holds the read lock until it is woken.
   */
  datatype Stream = Stream(queue: seq<Bytes>, leftover: Bytes, isClosed: bool, waiting: Option<nat>)

  const OPEN_STREAM := Stream([], [], false, None)

  datatype Op =
    | Arrive(message: Bytes)
    | Read(size: nat)
    | Wake   // the waiting read takes the wake token and looks again
    | Fail   // the waiting read receives an error, or finds the error channel closed
    | Close

  datatype Answer =
    | Accepted
    | Ignored       // the connection was already closed
    | Overflowed
    | Got(bytes: Bytes)
    | ReadFailed
    | Waits
    | Blocked       // another read holds the lock, or nothing is waiting
    | ClosedNow

  predicate Overflows(queue: seq<Bytes>, message: Bytes) {
    || |queue| >= MAX_QUEUED_MESSAGES
    || MAX_QUEUED_BYTES - |message| < 0
    || TotalLength(queue) > MAX_QUEUED_BYTES - |message|
  }

  function Min(a: nat, b: nat): nat {
    if a < b then a else b
  }

  function CloseStream(s: Stream): Stream {
    if s.isClosed then s
    else s.(queue := [], isClosed := true, leftover := if s.waiting.Some? then s.leftover else [])
  }

  /** Take the next message, or wait for one. */
  function TakeMessage(s: Stream, size: nat): (Stream, Answer) {
    if s.queue == [] then
      (s.(waiting := Some(size)), Waits)
    else
      var n := Min(size, |s.queue[0]|);
      (s.(queue := s.queue[1..], leftover := s.queue[0][n..], waiting := None), Got(s.queue[0][..n]))
  }

  function Step(s: Stream, op: Op): (Stream, Answer) {
    match op
    case Arrive(message) =>
      if s.isClosed then (s, Ignored)
      else if Overflows(s.queue, message) then (CloseStream(s), Overflowed)
      else (s.(queue := s.queue + [message]), Accepted)
    case Read(size) =>
      if s.waiting.Some? then (s, Blocked)
      else if s.isClosed then (s, ReadFailed)
      else if s.leftover != [] then
        var n := Min(size, |s.leftover|);
        (s.(leftover := s.leftover[n..]), Got(s.leftover[..n]))
      else TakeMessage(s, size)
    case Wake =>
      if s.waiting.Some? then TakeMessage(s, s.waiting.value) else (s, Blocked)
    case Fail =>
      if s.waiting.Some? then (s.(waiting := None), ReadFailed) else (s, Blocked)
    case Close =>
      (CloseStream(s), ClosedNow)
  }

  function After(s: Stream, ops: seq<Op>): Stream
    decreases ops
  {
    if ops == [] then s else After(Step(s, ops[0]).0, ops[1..])
  }

  function TakenBy(op: Op, answer: Answer): Bytes {
    if op.Arrive? && answer.Accepted? then op.message else []
  }

  function GivenBy(answer: Answer): Bytes {
    if answer.Got? then answer.bytes else []
  }

  /** The bytes of every message the queue accepted, in order of arrival. */
  function AcceptedBytes(s: Stream, ops: seq<Op>): Bytes
    decreases ops
  {
    if ops == [] then []
    else
      var (s', answer) := Step(s, ops[0]);
      TakenBy(ops[0], answer) + AcceptedBytes(s', ops[1..])
  }

  /** The bytes every read returned, in order. */
  function DeliveredBytes(s: Stream, ops: seq<Op>): Bytes
    decreases ops
  {
    if ops == [] then []
    else
      var (s', answer) := Step(s, ops[0]);
      GivenBy(answer) + DeliveredBytes(s', ops[1..])
  }

  /** What the connection still owes its reader. */
  function Owed(s: Stream): Bytes {
    s.leftover + Flatten(s.queue)
  }

  ghost predicate StreamValid(s: Stream) {
    && |s.queue| <= MAX_QUEUED_MESSAGES && TotalLength(s.queue) <= MAX_QUEUED_BYTES
    && (s.waiting.Some? ==> s.leftover == [])
    && (s.isClosed ==> s.queue == [] && s.leftover == [])
  }

  lemma ArrivalMovesBytes(s: Stream, message: Bytes)
    requires StreamValid(s) && !s.isClosed && !Overflows(s.queue, message)
    ensures StreamValid(Step(s, Arrive(message)).0)
    ensures Owed(s) + message == Owed(Step(s, Arrive(message)).0)
  {
    FlattenAppend(s.queue, [message]);
    TotalLengthAppend(s.queue, [message]);
    FlattenOne(message);
    assert s.leftover + (Flatten(s.queue) + message) == Owed(s) + message;
  }

  lemma TakingMovesBytes(s: Stream, size: nat)
    requires StreamValid(s) && s.leftover == []
    ensures var (s', answer) := TakeMessage(s, size);
            StreamValid(s') && Owed(s) == GivenBy(answer) + Owed(s')
  {
    if s.queue != [] {
      assert s.queue == [s.queue[0]] + s.queue[1..];
      TotalLengthAppend([s.queue[0]], s.queue[1..]);
      var n := Min(size, |s.queue[0]|);
      assert s.queue[0] + Flatten(s.queue[1..]) == s.queue[0][..n] + (s.queue[0][n..] + Flatten(s.queue[1..]));
    }
  }

  lemma LeftoverMovesBytes(s: Stream, n: nat)
    requires n <= |s.leftover|
    ensures Owed(s) == s.leftover[..n] + Owed(s.(leftover := s.leftover[n..]))
  {
  }

  /** One step moves bytes from the socket to what is owed, and from what is owed to the reader. */
  lemma StepMovesBytes(s: Stream, op: Op)
    requires StreamValid(s)
    ensures var (s', answer) := Step(s, op);
            && StreamValid(s')
            && (s.isClosed ==> s'.isClosed && TakenBy(op, answer) == GivenBy(answer) == [])
            && (!s'.isClosed ==>
                  Owed(s) + TakenBy(op, answer) == GivenBy(answer) + Owed(s'))
            && (!s.isClosed && s'.isClosed ==> TakenBy(op, answer) == GivenBy(answer) == [])
  {
    match op
    case Arrive(message) =>
      if !s.isClosed && !Overflows(s.queue, message) {
        ArrivalMovesBytes(s, message);
      }
    case Read(size) =>
      if s.waiting.None? && !s.isClosed {
        if s.leftover == [] {
          TakingMovesBytes(s, size);
        } else {
          LeftoverMovesBytes(s, Min(size, |s.leftover|));
        }
      }
    case Wake =>
      if s.waiting.Some? {
        TakingMovesBytes(s, s.waiting.value);
      }
    case Fail =>
    case Close =>
  }

  /** What a read comes to: what an earlier one left over, else the oldest queued message. */
  function NextBytes(s: Stream): Option<Bytes> {
    if s.leftover != [] then Some(s.leftover) else if s.queue != [] then Some(s.queue[0]) else None
  }

  /** A read of `size` bytes took as many bytes as fit, and left the others for the next read. */
  ghost predicate TookWhatFits(s: Stream, size: nat, s': Stream, answer: Answer)
    requires NextBytes(s).Some?
  {
    var next := NextBytes(s).value;
    && answer.Got? && answer.bytes + s'.leftover == next
    && |answer.bytes| <= size && (|answer.bytes| < size ==> s'.leftover == [])
    && s'.queue == (if s.leftover != [] then s.queue else s.queue[1..])
    && s'.waiting.None? && s'.isClosed == s.isClosed
  }

  /**
   A read never returns more than its buffer holds, fills the buffer unless it comes to the end of its
   message, and keeps exactly the rest; it touches no message but the one it comes to. With nothing to
   come to it waits, and it fails exactly on a closed connection.
   */
  lemma ReadsTakeWhatFits(s: Stream, size: nat)
    requires StreamValid(s) && s.waiting.None?
    ensures var (s', answer) := Step(s, Read(size));
            && (answer.ReadFailed? <==> s.isClosed) && (s.isClosed ==> s' == s)
            && (!s.isClosed && NextBytes(s).Some? ==> TookWhatFits(s, size, s', answer))
            && (!s.isClosed && NextBytes(s).None? ==> answer.Waits? && s' == s.(waiting := Some(size)))
  {
  }

  /** The same holds of a read that is woken, for the buffer it waits with. */
  lemma WokenReadsTakeWhatFits(s: Stream)
    requires StreamValid(s) && s.waiting.Some?
    ensures var (s', answer) := Step(s, Wake);
            && (NextBytes(s).Some? ==> TookWhatFits(s, s.waiting.value, s', answer))
            && (NextBytes(s).None? ==> answer.Waits? && s' == s)
    ensures Step(s, Fail) == (s.(waiting := None), ReadFailed)
  {
  }

  /** Closing drops what nobody has read, for good: later messages are ignored, later reads fail. */
  lemma ClosingDropsTheRest(s: Stream, message: Bytes, size: nat)
    requires StreamValid(s)
    ensures var closed := Step(s, Close).0;
            && closed == Stream([], [], true, s.waiting)
            && Step(closed, Arrive(message)) == (closed, Ignored)
            && (s.waiting.None? ==> Step(closed, Read(size)) == (closed, ReadFailed))
  {
  }

  /** A message is refused exactly when the queue with it appended would hold too many messages or too many bytes. */
  lemma OverflowsExactlyAtTheLimits(s: Stream, message: Bytes)
    requires StreamValid(s) && !s.isClosed
    ensures var (s', answer) := Step(s, Arrive(message));
            && (answer.Overflowed? <==>
                  |s.queue + [message]| > 256 || TotalLength(s.queue + [message]) > 16_777_216)
            && (answer.Overflowed? <==> s'.isClosed)
            && (!answer.Overflowed? ==> answer.Accepted? && s'.queue == s.queue + [message])
  {
    TotalLengthAppend(s.queue, [message]);
    FlattenOne(message);
  }

  lemma EmptyTakeIffEmptyMessage(s: Stream, size: nat)
    requires size > 0
    ensures TakeMessage(s, size).1 == Got([]) <==> s.queue != [] && s.queue[0] == []
  {
    if s.queue != [] && s.queue[0] != [] {
      assert |s.queue[0][..Min(size, |s.queue[0]|)]| > 0;
    }
  }

  /**
   A read with room returns no bytes and no error exactly when it comes to an empty message, at once
   with nothing left over or woken after a wait; the native connection skips such messages.
   */
  lemma EmptyReadIffEmptyMessage(s: Stream, size: nat)
    requires StreamValid(s)
    ensures !s.isClosed && s.waiting.None? && size > 0 ==>
              (Step(s, Read(size)).1 == Got([]) <==> s.leftover == [] && s.queue != [] && s.queue[0] == [])
    ensures s.waiting.Some? && s.waiting.value > 0 ==>
              (Step(s, Wake).1 == Got([]) <==> s.queue != [] && s.queue[0] == [])
  {
    if s.waiting.Some? && s.waiting.value > 0 {
      EmptyTakeIffEmptyMessage(s, s.waiting.value);
    } else if s.leftover != [] && size > 0 {
      assert |s.leftover[..Min(size, |s.leftover|)]| > 0;
    } else if size > 0 {
      EmptyTakeIffEmptyMessage(s, size);
    }
  }

  /** Both happen: a read that finds an empty message, and a read that waits and is woken by one. */
  lemma EmptyReadsHappen(size: nat)
    ensures var s := After(OPEN_STREAM, [Arrive([])]);
            StreamValid(s) && Step(s, Read(size)).1 == Got([])
    ensures var s := After(OPEN_STREAM, [Read(size)] + [Arrive([])]);
            StreamValid(s) && s.waiting == Some(size) && Step(s, Wake).1 == Got([])
  {
    var message: Bytes := [];
    assert [Arrive(message)][1..] == [] && ([Read(size)] + [Arrive(message)])[1..] == [Arrive(message)];
    assert After(OPEN_STREAM, [Arrive(message)]) == Step(OPEN_STREAM, Arrive(message)).0;
    var parked := Step(OPEN_STREAM, Read(size)).0;
    assert After(parked, [Arrive(message)]) == Step(parked, Arrive(message)).0;
  }

  lemma {:induction false} ClosedDeliversNothing(s: Stream, ops: seq<Op>)
    requires StreamValid(s) && s.isClosed
    ensures After(s, ops).isClosed && AcceptedBytes(s, ops) == [] && DeliveredBytes(s, ops) == []
    decreases ops
  {
    if ops != [] {
      StepMovesBytes(s, ops[0]);
      ClosedDeliversNothing(Step(s, ops[0]).0, ops[1..]);
    }
  }

  /** What a step gives now and the rest of the run gives later, against what was owed and what arrives. */
  lemma BytesAddUp(owed: Bytes, taken: Bytes, arriving: Bytes, given: Bytes, owed': Bytes, delivered: Bytes,
                   left: Bytes)
    requires owed + taken == given + owed'
    ensures delivered <= owed' + arriving ==> given + delivered <= owed + (taken + arriving)
    ensures owed' + arriving == delivered + left ==> owed + (taken + arriving) == (given + delivered) + left
  {
    assert owed + (taken + arriving) == (owed + taken) + arriving == given + (owed' + arriving);
    assert given + (delivered + left) == (given + delivered) + left;
  }

  lemma {:induction false} FidelityFrom(s: Stream, ops: seq<Op>)
    requires StreamValid(s) && !s.isClosed
    ensures StreamValid(After(s, ops))
    ensures DeliveredBytes(s, ops) <= Owed(s) + AcceptedBytes(s, ops)
    ensures !After(s, ops).isClosed ==>
              Owed(s) + AcceptedBytes(s, ops) == DeliveredBytes(s, ops) + Owed(After(s, ops))
    decreases ops
  {
    if ops != [] {
      var (s', answer) := Step(s, ops[0]);
      StepMovesBytes(s, ops[0]);
      if s'.isClosed {
        ClosedDeliversNothing(s', ops[1..]);
        ClosedStaysValid(s', ops[1..]);
      } else {
        FidelityFrom(s', ops[1..]);
        BytesAddUp(Owed(s), TakenBy(ops[0], answer), AcceptedBytes(s', ops[1..]),
                   GivenBy(answer), Owed(s'), DeliveredBytes(s', ops[1..]), Owed(After(s', ops[1..])));
      }
    }
  }

  lemma {:induction false} ClosedStaysValid(s: Stream, ops: seq<Op>)
    requires StreamValid(s) && s.isClosed
    ensures StreamValid(After(s, ops))
    decreases ops
  {
    if ops != [] {
      StepMovesBytes(s, ops[0]);
      ClosedStaysValid(Step(s, ops[0]).0, ops[1..]);
    }
  }

  /**
   While the connection is open, the bytes of all accepted messages are exactly those already read,
   then the leftover, then the queued messages. Over every run, overflow and close included, what
   was read is a prefix of what was accepted, whatever the buffer sizes. The queue limits hold throughout.
   */
  lemma StreamFidelity(ops: seq<Op>)
    ensures var s := After(OPEN_STREAM, ops);
            && DeliveredBytes(OPEN_STREAM, ops) <= AcceptedBytes(OPEN_STREAM, ops)
            && (!s.isClosed ==>
                  AcceptedBytes(OPEN_STREAM, ops) == DeliveredBytes(OPEN_STREAM, ops) + (s.leftover + Flatten(s.queue)))
            && |s.queue| <= MAX_QUEUED_MESSAGES && TotalLength(s.queue) <= MAX_QUEUED_BYTES
  {
    FidelityFrom(OPEN_STREAM, ops);
    assert Owed(OPEN_STREAM) == [];
    assert [] + AcceptedBytes(OPEN_STREAM, ops) == AcceptedBytes(OPEN_STREAM, ops);
  }
}
