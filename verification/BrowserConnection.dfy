/**
 The representation behind the browser connection's queue: a growable array of messages with a
 moving head, compacted in place, and a byte counter kept alongside. Every method is proved
 against the byte stream of module BrowserStream.
 */
module BrowserConnection {
  import opened Collections
  import opened BrowserStream

  /** A slot of the backing array is empty when it keeps no message alive. */
  datatype Slot = Empty | Message(bytes: Bytes)

  ghost predicate AllMessages(slots: seq<Slot>) {
    forall i :: 0 <= i < |slots| ==> slots[i].Message?
  }

  ghost predicate AllEmpty(slots: seq<Slot>) {
    forall i :: 0 <= i < |slots| ==> slots[i] == Empty
  }

  ghost function Payloads(slots: seq<Slot>): (payloads: seq<Bytes>)
    requires AllMessages(slots)
    ensures |payloads| == |slots|
    ensures forall i :: 0 <= i < |slots| ==> payloads[i] == slots[i].bytes
  {
    seq(|slots|, i requires 0 <= i < |slots| => slots[i].bytes)
  }

  /** The overlapping copy of the tail of an array onto its front. */
  method CopyDown(slots: array<Slot>, start: nat, count: nat)
    requires start + count <= slots.Length
    modifies slots
    ensures forall i :: 0 <= i < count ==> slots[i] == old(slots[start + i])
    ensures forall i :: count <= i < slots.Length ==> slots[i] == old(slots[i])
  {
    ghost var before := slots[..];
    var i := 0;
    while i < count
      invariant 0 <= i <= count
      invariant forall j :: 0 <= j < i ==> slots[j] == before[start + j]
      invariant forall j :: i <= j < slots.Length ==> slots[j] == before[j]
    {
      slots[i] := slots[start + i];
      i := i + 1;
    }
  }

  /** Empty the slots between two positions. */
  method EmptySlots(slots: array<Slot>, from: nat, to: nat)
    requires from <= to <= slots.Length
    modifies slots
    ensures forall i :: from <= i < to ==> slots[i] == Empty
    ensures forall i :: 0 <= i < slots.Length && !(from <= i < to) ==> slots[i] == old(slots[i])
  {
    var i := from;
    while i < to
      invariant from <= i <= to
      invariant forall j :: from <= j < i ==> slots[j] == Empty
      invariant forall j :: 0 <= j < slots.Length && !(from <= j < i) ==> slots[j] == old(slots[j])
    {
      slots[i] := Empty;
      i := i + 1;
    }
  }

  /** Move the messages between head and length to the front, and empty every slot behind them. */
  method CompactSlots(slots: array<Slot>, head: nat, length: nat)
    requires head <= length <= slots.Length && AllEmpty(slots[length..])
    modifies slots
    ensures slots[..length - head] == old(slots[head..length])
    ensures AllEmpty(slots[length - head..])
  {
    ghost var before := slots[..];
    var keep := length - head;
    CopyDown(slots, head, keep);
    EmptySlots(slots, keep, length);
    assert forall i :: 0 <= i < keep ==> slots[i] == before[head + i];
    forall i | keep <= i < slots.Length
      ensures slots[i] == Empty
    {
      assert i >= length ==> before[i] == before[length..][i - length];
    }
  }

  class Connection {
    /** The queue is `slots[..length]`; `slots.Length` is its capacity. */
    var slots: array<Slot>
    var length: nat
    var head: nat
    var queuedBytes: int
    var readBuffer: Bytes
    var isClosed: bool
    var waiting: Option<nat>

    /** The live messages sit between head and length, and no other slot keeps a message alive. */
    ghost predicate Represents()
      reads this, slots
    {
      && head <= length <= slots.Length
      && AllEmpty(slots[..head]) && AllMessages(slots[head..length]) && AllEmpty(slots[length..])
      && queuedBytes == TotalLength(Payloads(slots[head..length]))
    }

    ghost function Live(): seq<Bytes>
      requires Represents()
      reads this, slots
    {
      Payloads(slots[head..length])
    }

    ghost function State(): Stream
      requires Represents()
      reads this, slots
    {
      Stream(Live(), readBuffer, isClosed, waiting)
    }

    /** In every state between two calls less than half of the array is consumed, unless none of it is. */
    ghost predicate Valid()
      reads this, slots
    {
      && Represents() && StreamValid(State())
      && (head == 0 || head < length / 2)
    }

    /** So the array in use is never more than twice the number of live messages. */
    lemma SpaceIsBounded()
      requires Valid()
      ensures length <= 2 * |Live()| <= 2 * MAX_QUEUED_MESSAGES
      ensures 0 <= queuedBytes <= MAX_QUEUED_BYTES
      ensures length == 0 <==> Live() == []
    {
    }

    constructor ()
      ensures Valid() && State() == OPEN_STREAM && fresh(slots)
    {
      slots := new Slot[8](i => Empty);
      length, head, queuedBytes := 0, 0, 0;
      readBuffer, isClosed, waiting := [], false, None;
    }

    /** Compact the array in place when much of it is consumed or it is full. */
    method ClearQueuedMessagesHead()
      requires Represents()
      modifies this`length, this`head, slots
      ensures Represents() && State() == old(State())
      ensures head == 0 || (head < length / 2 && length < slots.Length)
    {
      if head == 0 {
        return;
      }
      if head < length / 2 && length < slots.Length {
        return;
      }
      CompactSlots(slots, head, length);
      length, head := length - head, 0;
      assert slots[head..length] == slots[..length];
    }

    /** Append to the array, growing it by any amount when it is full. */
    method Append(message: Bytes, growth: nat)
      requires Represents()
      modifies this`slots, this`length, this`queuedBytes, slots
      ensures Represents() && head == old(head) && length == old(length) + 1
      ensures slots == old(slots) || fresh(slots)
      ensures State() == old(State()).(queue := old(Live()) + [message])
    {
      ghost var live := slots[head..length];
      Grow(growth);
      slots[length] := Message(message);
      length := length + 1;
      queuedBytes := queuedBytes + |message|;
      assert slots[head..length] == live + [Message(message)];
      assert Payloads(slots[head..length]) == Payloads(live) + [message];
      TotalLengthAppend(Payloads(live), [message]);
      FlattenOne(message);
    }

    /** Make room for one more message, by any amount of growth, when the array is full. */
    method Grow(growth: nat)
      requires Represents()
      modifies this`slots
      ensures Represents() && length < slots.Length
      ensures slots == old(slots) || fresh(slots)
      ensures slots[head..length] == old(slots[head..length])
    {
      ghost var before := slots[..];
      if length == slots.Length {
        var grown := new Slot[length + 1 + growth](i => Empty);
        forall i | 0 <= i < length {
          grown[i] := slots[i];
        }
        assert slots[..] == before && grown[..length] == before;
        assert grown[..head] == before[..head] && grown[head..length] == before[head..length];
        slots := grown;
      }
    }

    method StoreIncomingMessage(message: Bytes, growth: nat) returns (answer: Answer)
      requires Valid()
      modifies this, slots
      ensures Valid() && (slots == old(slots) || fresh(slots))
      ensures (State(), answer) == Step(old(State()), Arrive(message))
    {
      if isClosed {
        return Ignored;
      }
      var queueDepth := length - head;
      var queueBytes := queuedBytes;
      var availableQueueBytes := MAX_QUEUED_BYTES - |message|;
      StepMovesBytes(State(), Arrive(message));
      if queueDepth >= MAX_QUEUED_MESSAGES || availableQueueBytes < 0 || queueBytes > availableQueueBytes {
        CloseChannels();
        return Overflowed;
      }
      ClearQueuedMessagesHead();
      Append(message, growth);
      return Accepted;
    }

    /** Take the message at the head out of its slot. */
    method PopHead() returns (message: Bytes)
      requires Represents() && head < length
      modifies this`head, this`queuedBytes, slots
      ensures Represents() && head == old(head) + 1
      ensures message == old(Live())[0] && State() == old(State()).(queue := old(Live())[1..])
    {
      ghost var live, consumed := slots[head..length], slots[..head];
      assert Payloads(live) == [Payloads(live)[0]] + Payloads(live[1..]);
      TotalLengthAppend([Payloads(live)[0]], Payloads(live[1..]));
      FlattenOne(Payloads(live)[0]);
      message := slots[head].bytes;
      slots[head] := Empty;
      queuedBytes := queuedBytes - |message|;
      assert queuedBytes >= 0;  // the counter is exact, so the clamp never acts
      queuedBytes := if queuedBytes < 0 then 0 else queuedBytes;
      head := head + 1;
      assert slots[head..length] == live[1..];
      assert slots[..head] == consumed + [Empty];
    }

    /** Start again at the front of an array in which nothing is live. */
    method ResetEmptyQueue()
      requires Represents() && head == length
      modifies this`length, this`head
      ensures Represents() && State() == old(State()) && length == head == 0
    {
      assert slots[..] == slots[..head] + slots[head..];
      length := 0;
      head := 0;
    }

    /** Pop the next queued message. */
    method ShiftQueuedMessage() returns (message: Bytes, ok: bool)
      requires Valid()
      modifies this`length, this`head, this`queuedBytes, slots
      ensures Valid()
      ensures ok <==> old(Live()) != []
      ensures ok ==> message == old(Live())[0] && State() == old(State()).(queue := old(Live())[1..])
      ensures !ok ==> State() == old(State())
    {
      if head >= length {
        return [], false;
      }
      message := PopHead();
      if head >= length {
        ResetEmptyQueue();
      } else {
        ClearQueuedMessagesHead();
      }
      return message, true;
    }

    /** Close once: drop the queue, and the leftover too unless a read holds the read lock. */
    method CloseChannels()
      requires Valid()
      modifies this, slots
      ensures Valid() && (slots == old(slots) || fresh(slots))
      ensures State() == CloseStream(old(State()))
      ensures !old(isClosed) ==> AllEmpty(old(slots)[..])
    {
      if isClosed {
        return;
      }
      isClosed := true;
      EmptySlots(slots, 0, length);
      assert forall i :: length <= i < slots.Length ==> slots[i] == old(slots[length..])[i - length];
      slots := new Slot[0];
      length, head, queuedBytes := 0, 0, 0;
      if waiting.None? {
        readBuffer := [];
      }
    }

    /** The body of the read loop: deliver from the next message, or wait. */
    method TakeNextMessage(size: nat) returns (answer: Answer)
      requires Valid() && readBuffer == []
      modifies this`length, this`head, this`queuedBytes, this`readBuffer, this`waiting, slots
      ensures Valid()
      ensures (State(), answer) == TakeMessage(old(State()), size)
      ensures answer.Got? ==> |answer.bytes| <= size
    {
      var message, ok := ShiftQueuedMessage();
      if ok {
        var n := if size < |message| then size else |message|;
        if n < |message| {
          readBuffer := message[n..];
        }
        waiting := None;
        return Got(message[..n]);
      }
      waiting := Some(size);
      return Waits;
    }

    /** A read up to the point where it returns or waits. */
    method Read(size: nat) returns (answer: Answer)
      requires Valid() && waiting.None?
      modifies this`length, this`head, this`queuedBytes, this`readBuffer, this`waiting, slots
      ensures Valid()
      ensures (State(), answer) == Step(old(State()), BrowserStream.Read(size))
      ensures answer.Got? ==> |answer.bytes| <= size
    {
      if isClosed {
        return ReadFailed;
      }
      if |readBuffer| > 0 {
        var n := if size < |readBuffer| then size else |readBuffer|;
        answer := Got(readBuffer[..n]);
        readBuffer := readBuffer[n..];
        return;
      }
      answer := TakeNextMessage(size);
    }

    /** The waiting read takes the wake token and goes round its loop. */
    method WakeRead() returns (answer: Answer)
      requires Valid() && waiting.Some?
      modifies this`length, this`head, this`queuedBytes, this`readBuffer, this`waiting, slots
      ensures Valid()
      ensures (State(), answer) == Step(old(State()), Wake)
      ensures answer.Got? ==> |answer.bytes| <= old(waiting.value)
    {
      answer := TakeNextMessage(waiting.value);
    }

    /** The waiting read receives from the error channel and returns. */
    method FailRead() returns (answer: Answer)
      requires Valid() && waiting.Some?
      modifies this`waiting
      ensures Valid()
      ensures (State(), answer) == Step(old(State()), Fail)
    {
      waiting := None;
      return ReadFailed;
    }
  }
}
