/**
 The native connection adapter: a byte stream over the binary messages of a websocket. A write
 sends one binary message; a read hands out the payload of binary messages in pieces of any size,
 skips empty ones and reports every message that is not binary.
 */
module NativeConn {
  import opened Collections

  datatype Frame = Frame(isBinary: bool, payload: Bytes)

  /** How a read from the current message ended. */
  datatype FrameEnd = More | EndOfFrame | Broken

  datatype ReadError =
    | EndOfFile          // the adapter is closed or has no socket
    | SocketFailed       // the socket has no further message, or broke
    | UnexpectedMessage  // a message that is not binary

  datatype WriteError = ClosedPipe | SendFailed

  /** The payload of the binary messages, without that of any other. */
  function BinaryPayload(frames: seq<Frame>): Bytes {
    if frames == [] then []
    else (if frames[0].isBinary then frames[0].payload else []) + BinaryPayload(frames[1..])
  }

  lemma {:induction false} BinaryPayloadAppend(frames: seq<Frame>, more: seq<Frame>)
    ensures BinaryPayload(frames + more) == BinaryPayload(frames) + BinaryPayload(more)
  {
    if frames == [] {
      assert frames + more == more;
    } else {
      assert (frames + more)[1..] == frames[1..] + more;
      BinaryPayloadAppend(frames[1..], more);
    }
  }

  /** How many messages are not binary. */
  function Foreign(frames: seq<Frame>): nat {
    if frames == [] then 0 else AsCount(!frames[0].isBinary) + Foreign(frames[1..])
  }

  lemma {:induction false} ForeignAppend(frames: seq<Frame>, more: seq<Frame>)
    ensures Foreign(frames + more) == Foreign(frames) + Foreign(more)
  {
    if frames == [] {
      assert frames + more == more;
    } else {
      assert (frames + more)[1..] == frames[1..] + more;
      ForeignAppend(frames[1..], more);
    }
  }

  predicate IsSilent(frame: Frame) {
    frame.isBinary && frame.payload == []
  }

  /**
   What a connection knows of its incoming side: the unread rest of the current message, and the
   messages after it.
   */
  datatype Incoming = Incoming(reader: Option<Bytes>, frames: seq<Frame>)

  function Rest(i: Incoming): Bytes {
    if i.reader.Some? then i.reader.value else []
  }

  /** Every byte the connection may still hand out. */
  function Pending(i: Incoming): Bytes {
    Rest(i) + BinaryPayload(i.frames)
  }

  /**
   What one read promises, whatever partial reads the socket answers with; `broke` tells whether the
   socket broke off inside a message. A failure is reported exactly if it did, or had no message left.
   */
  ghost predicate Reads(before: Incoming, size: nat, data: Bytes, error: Option<ReadError>, broke: bool,
                        after: Incoming)
  {
    && |data| <= size
    && Pending(before) == data + Pending(after)
    && Foreign(before.frames) == Foreign(after.frames) + AsCount(error == Some(UnexpectedMessage))
    && (exists k :: 0 <= k <= |before.frames| && after.frames == before.frames[k..])
    && match error
       case None =>
         !broke && (data != [] || Rest(after) != [])
       case Some(EndOfFile) =>
         !broke && data == [] && after == before
       case Some(SocketFailed) =>
         if broke then after.reader.Some? else data == [] && after == Incoming(None, [])
       case Some(UnexpectedMessage) =>
         && !broke && data == [] && Rest(before) == [] && after.reader.None?
         && (exists k :: && 0 <= k < |before.frames| && !before.frames[k].isBinary
                         && after.frames == before.frames[k + 1..]
                         && forall j :: 0 <= j < k ==> IsSilent(before.frames[j]))
  }

  /** A read has passed over the first `k` messages, all of them silent, and is between two messages or in its first. */
  ghost predicate PassedOver(before: Incoming, k: nat, now: Incoming) {
    && k <= |before.frames| && now.frames == before.frames[k..]
    && Pending(before) == Pending(now) && Foreign(before.frames) == Foreign(now.frames)
    && (forall j :: 0 <= j < k ==> IsSilent(before.frames[j]))
    && (k > 0 ==> now.reader.None?)
    && (now.reader.None? ==> Rest(before) == [])
  }

  /** The message a read takes its bytes from: the current one, or the next. */
  ghost predicate Opens(now: Incoming, current: Incoming) {
    if now.reader.Some? then current == now
    else now.frames != [] && now.frames[0].isBinary && current == Incoming(Some(now.frames[0].payload), now.frames[1..])
  }

  lemma PassOverSilent(before: Incoming, k: nat, now: Incoming, current: Incoming)
    requires PassedOver(before, k, now) && Opens(now, current) && current.reader == Some([])
    ensures PassedOver(before, if now.reader.Some? then k else k + 1, Incoming(None, current.frames))
  {
    if now.reader.None? {
      assert before.frames[k..][1..] == before.frames[k + 1..];
      assert before.frames[k] == now.frames[0];
    }
  }

  lemma ReadsSomething(before: Incoming, k: nat, now: Incoming, current: Incoming, size: nat, data: Bytes,
                       end: FrameEnd, after: Incoming)
    requires PassedOver(before, k, now) && Opens(now, current)
    requires after.frames == current.frames && Rest(current) == data + Rest(after) && |data| <= size
    requires end.Broken? ==> after.reader.Some?
    requires !end.Broken? ==> data != [] || Rest(after) != []
    ensures Reads(before, size, data, if end.Broken? then Some(SocketFailed) else None, end.Broken?, after)
  {
    var taken := if now.reader.Some? then k else k + 1;
    assert before.frames[taken..] == after.frames;
    assert Pending(now) == Pending(current);
    assert (data + Rest(after)) + BinaryPayload(after.frames) == data + Pending(after);
  }

  lemma ReadBegins(before: Incoming)
    ensures PassedOver(before, 0, before)
  {
    assert before.frames[0..] == before.frames;
  }

  lemma ReadsAtEndOfFile(before: Incoming, size: nat)
    ensures Reads(before, size, [], Some(EndOfFile), false, before)
  {
    assert before.frames[0..] == before.frames;
    assert [] + Pending(before) == Pending(before);
  }

  lemma ReadsNothing(before: Incoming, k: nat, now: Incoming, size: nat, error: ReadError, after: Incoming)
    requires PassedOver(before, k, now) && now.reader.None? && after.reader.None?
    requires if error.SocketFailed? then now.frames == after.frames == []
             else
               && error.UnexpectedMessage? && now.frames != []
               && !now.frames[0].isBinary && after.frames == now.frames[1..]
    ensures Reads(before, size, [], Some(error), false, after)
  {
    if error.UnexpectedMessage? {
      assert before.frames[k] == now.frames[0] && before.frames[k + 1..] == after.frames;
    } else {
      assert before.frames[|before.frames|..] == [];
    }
  }

  /** The websocket: messages that have arrived, messages that were sent, and how often it was closed. */
  class Socket {
    var inbound: seq<Frame>
    var outbound: seq<Frame>
    var closeCalls: nat

    /** How often a message was read from, the room offered last, all bytes handed out, how often it broke off. */
    var readCalls: nat
    var room: nat
    var handed: Bytes
    var breaks: nat

    constructor (inbound: seq<Frame>)
      ensures this.inbound == inbound && outbound == [] && closeCalls == 0
      ensures readCalls == 0 && handed == [] && breaks == 0
    {
      this.inbound, outbound, closeCalls := inbound, [], 0;
      readCalls, room, handed, breaks := 0, 0, [], 0;
    }

    /** The next data message. */
    method NextReader() returns (frame: Option<Frame>)
      modifies this`inbound
      ensures frame.None? <==> old(inbound) == []
      ensures frame.None? ==> inbound == []
      ensures frame.Some? ==> old(inbound) == [frame.value] + inbound
    {
      if inbound == [] {
        return None;
      }
      frame := Some(inbound[0]);
      inbound := inbound[1..];
    }

    /** Some of the rest of a message: any number of bytes that fits, and the end no sooner than after the last. */
    method ReadFrame(rest: Bytes, size: nat) returns (n: nat, end: FrameEnd)
      modifies this`readCalls, this`room, this`handed, this`breaks
      ensures n <= size && n <= |rest|
      ensures readCalls == old(readCalls) + 1 && room == size && handed == old(handed) + rest[..n]
      ensures breaks == old(breaks) + if end.Broken? then 1 else 0
      ensures end.EndOfFrame? ==> n == |rest|
      ensures rest == [] ==> !end.More?
    {
      var limit := if size < |rest| then size else |rest|;
      n :| 0 <= n <= limit;
      end :| (end.EndOfFrame? ==> n == |rest|) && (rest == [] ==> !end.More?);
      readCalls, room, handed := readCalls + 1, size, handed + rest[..n];
      breaks := breaks + if end.Broken? then 1 else 0;
    }

    method WriteMessage(payload: Bytes) returns (ok: bool)
      modifies this`outbound
      ensures outbound == if ok then old(outbound) + [Frame(true, payload)] else old(outbound)
    {
      ok := *;
      if ok {
        outbound := outbound + [Frame(true, payload)];
      }
    }

    method Close()
      modifies this`closeCalls
      ensures closeCalls == old(closeCalls) + 1
    {
      closeCalls := closeCalls + 1;
    }
  }

  class WebSocketConn {
    const ws: Socket?
    var reader: Option<Bytes>
    var isClosed: bool

    constructor (ws: Socket?)
      ensures this.ws == ws && reader == None && !isClosed
    {
      this.ws, reader, isClosed := ws, None, false;
    }

    ghost function Source(): Incoming
      reads this, ws
    {
      Incoming(reader, if ws == null then [] else ws.inbound)
    }

    /** Step to the next message, which must be binary. */
    method OpenNextFrame() returns (error: Option<ReadError>)
      requires ws != null && reader.None?
      modifies this`reader, ws`inbound
      ensures match error
              case None =>
                && old(ws.inbound) != [] && old(ws.inbound)[0].isBinary
                && ws.inbound == old(ws.inbound)[1..] && reader == Some(old(ws.inbound)[0].payload)
              case Some(SocketFailed) =>
                old(ws.inbound) == ws.inbound == [] && reader.None?
              case Some(UnexpectedMessage) =>
                && old(ws.inbound) != [] && !old(ws.inbound)[0].isBinary
                && ws.inbound == old(ws.inbound)[1..] && reader.None?
              case Some(EndOfFile) =>
                false
    {
      var frame := ws.NextReader();
      if frame.None? {
        return Some(SocketFailed);
      }
      assert frame.value == old(ws.inbound)[0] && ws.inbound == old(ws.inbound)[1..];
      if !frame.value.isBinary {
        return Some(UnexpectedMessage);
      }
      reader := Some(frame.value.payload);
      return None;
    }

    /** Read on in the current message; at its end there is no current message any more. */
    method ReadCurrent(size: nat) returns (data: Bytes, end: FrameEnd)
      requires ws != null && reader.Some?
      modifies this`reader, ws`readCalls, ws`room, ws`handed, ws`breaks
      ensures |data| <= size
      ensures ws.readCalls == old(ws.readCalls) + 1 && ws.room == size && ws.handed == old(ws.handed) + data
      ensures ws.breaks == old(ws.breaks) + if end.Broken? then 1 else 0
      ensures if end.EndOfFrame? then reader.None? && data == old(reader.value)
              else reader.Some? && old(reader.value) == data + reader.value
      ensures old(reader.value) == [] ==> !end.More?
    {
      var rest := reader.value;
      var n;
      n, end := ws.ReadFrame(rest, size);
      data := rest[..n];
      reader := if end.EndOfFrame? then None else Some(rest[n..]);
    }

    /** One round of the read loop: either the read is answered, or one more silent message is passed over. */
    method ReadOnce(size: nat, ghost before: Incoming, ghost k: nat)
      returns (data: Bytes, error: Option<ReadError>, isAnswered: bool, ghost k': nat)
      requires ws != null && PassedOver(before, k, Source())
      modifies this`reader, ws`inbound, ws`readCalls, ws`room, ws`handed, ws`breaks
      ensures isAnswered ==> Reads(before, size, data, error, ws.breaks > old(ws.breaks), Source())
      ensures isAnswered ==> error != Some(EndOfFile)
      ensures error.None? ==> ws.readCalls > old(ws.readCalls) && ws.room == size
      ensures ws.handed == old(ws.handed) + data && (!isAnswered ==> data == [] && error.None?)
      ensures ws.readCalls >= old(ws.readCalls) && ws.breaks >= old(ws.breaks)
      ensures !isAnswered ==> ws.breaks == old(ws.breaks)
      ensures !isAnswered ==> PassedOver(before, k', Source()) && reader.None?
      ensures !isAnswered ==> |ws.inbound| < old(|ws.inbound|) || (ws.inbound == old(ws.inbound) && old(reader.Some?))
    {
      ghost var now := Source();
      k', data := k, [];
      if reader.None? {
        error := OpenNextFrame();
        if error.Some? {
          ReadsNothing(before, k, now, size, error.value, Source());
          return data, error, true, k;
        }
      }
      ghost var current := Source();
      var end;
      data, end := ReadCurrent(size);
      if end.EndOfFrame? && |data| == 0 {
        PassOverSilent(before, k, now, current);
        return data, None, false, if now.reader.Some? then k else k + 1;
      }
      error := if end.Broken? then Some(SocketFailed) else None;
      ReadsSomething(before, k, now, current, size, data, end, Source());
      return data, error, true, k;
    }

    method Read(size: nat) returns (data: Bytes, error: Option<ReadError>)
      modifies this`reader, ws
      ensures Reads(old(Source()), size, data, error, ws != null && ws.breaks > old(ws.breaks), Source())
      ensures old(isClosed) || ws == null <==> error == Some(EndOfFile)
      ensures ws != null ==> ws.handed == old(ws.handed) + data
      ensures ws != null && error.None? ==> ws.readCalls > old(ws.readCalls) && ws.room == size
      ensures ws != null ==> ws.outbound == old(ws.outbound) && ws.closeCalls == old(ws.closeCalls)
    {
      ghost var before := Source();
      if isClosed || ws == null {
        ReadsAtEndOfFile(before, size);
        return [], Some(EndOfFile);
      }
      ReadBegins(before);
      ghost var k := 0;
      var isAnswered := false;
      data, error := [], None;
      while !isAnswered
        invariant if isAnswered then Reads(before, size, data, error, ws.breaks > old(ws.breaks), Source())
                  else PassedOver(before, k, Source()) && data == [] && ws.breaks == old(ws.breaks)
        invariant isAnswered ==> error != Some(EndOfFile)
        invariant ws.handed == old(ws.handed) + data
        invariant isAnswered && error.None? ==> ws.readCalls > old(ws.readCalls) && ws.room == size
        invariant ws.readCalls >= old(ws.readCalls)
        invariant ws.outbound == old(ws.outbound) && ws.closeCalls == old(ws.closeCalls)
        decreases !isAnswered, |ws.inbound|, if reader.Some? then 1 else 0
      {
        data, error, isAnswered, k := ReadOnce(size, before, k);
      }
    }

    method Write(payload: Bytes) returns (n: nat, error: Option<WriteError>)
      modifies ws
      ensures isClosed || ws == null <==> error == Some(ClosedPipe)
      ensures ws != null ==> ws.inbound == old(ws.inbound) && ws.closeCalls == old(ws.closeCalls)
      ensures ws != null ==>
                ws.outbound == if error.None? then old(ws.outbound) + [Frame(true, payload)] else old(ws.outbound)
      ensures n == if error.None? then |payload| else 0
    {
      if isClosed || ws == null {
        return 0, Some(ClosedPipe);
      }
      var ok := ws.WriteMessage(payload);
      if !ok {
        return 0, Some(SendFailed);
      }
      return |payload|, None;
    }

    /** Closing a second time does nothing; the socket is closed exactly once. */
    method Close()
      modifies this`isClosed, ws
      ensures isClosed
      ensures ws != null ==> ws.inbound == old(ws.inbound) && ws.outbound == old(ws.outbound)
      ensures ws != null ==> ws.closeCalls == old(ws.closeCalls) + if old(isClosed) then 0 else 1
    {
      if isClosed {
        return;
      }
      isClosed := true;
      if ws == null {
        return;
      }
      ws.Close();
    }
  }

  // ---- Whole connections ----

  /** One message arrives, or one read completes and leaves the connection in `after`. */
  datatype Event =
    | Arrives(frame: Frame)
    | ReadDone(size: nat, data: Bytes, error: Option<ReadError>, broke: bool, after: Incoming)

  function Next(i: Incoming, e: Event): Incoming {
    if e.Arrives? then i.(frames := i.frames + [e.frame]) else e.after
  }

  ghost predicate KeepsPromise(i: Incoming, e: Event)
    requires e.ReadDone?
  {
    Reads(i, e.size, e.data, e.error, e.broke, e.after)
  }

  /** Messages arrive and reads complete in any order, each read keeping its promise. */
  ghost predicate History(i: Incoming, events: seq<Event>)
    decreases events
  {
    events == [] ||
    ((events[0].ReadDone? ==> KeepsPromise(i, events[0]))
     && History(Next(i, events[0]), events[1..]))
  }

  function End(i: Incoming, events: seq<Event>): Incoming
    decreases events
  {
    if events == [] then i else End(Next(i, events[0]), events[1..])
  }

  function Arrived(events: seq<Event>): seq<Frame> {
    if events == [] then [] else (if events[0].Arrives? then [events[0].frame] else []) + Arrived(events[1..])
  }

  function Delivered(events: seq<Event>): Bytes {
    if events == [] then [] else (if events[0].ReadDone? then events[0].data else []) + Delivered(events[1..])
  }

  function Reports(events: seq<Event>): nat {
    if events == [] then 0
    else AsCount(events[0].ReadDone? && events[0].error == Some(UnexpectedMessage)) + Reports(events[1..])
  }

  lemma ArrivalIsOwed(i: Incoming, frame: Frame, later: seq<Frame>)
    ensures Pending(i) + BinaryPayload([frame] + later) == Pending(Next(i, Arrives(frame))) + BinaryPayload(later)
    ensures Foreign(i.frames) + Foreign([frame] + later) == Foreign(Next(i, Arrives(frame)).frames) + Foreign(later)
  {
    BinaryPayloadAppend(i.frames, [frame]);
    BinaryPayloadAppend([frame], later);
    ForeignAppend(i.frames, [frame]);
    ForeignAppend([frame], later);
    RegroupFour(Rest(i), BinaryPayload(i.frames), BinaryPayload([frame]), BinaryPayload(later));
  }

  lemma RegroupFour(a: Bytes, b: Bytes, c: Bytes, d: Bytes)
    ensures (a + b) + (c + d) == (a + (b + c)) + d
  {
  }

  lemma AccountsAddUp(owed: Bytes, arriving: Bytes, data: Bytes, owed': Bytes, delivered: Bytes, left: Bytes)
    requires owed == data + owed' && owed' + arriving == delivered + left
    ensures owed + arriving == (data + delivered) + left
  {
    assert owed + arriving == data + (owed' + arriving);
  }

  lemma {:induction false} NothingIsLostOrInvented(i: Incoming, events: seq<Event>)
    requires History(i, events)
    ensures Pending(i) + BinaryPayload(Arrived(events)) == Delivered(events) + Pending(End(i, events))
    ensures Foreign(i.frames) + Foreign(Arrived(events)) == Reports(events) + Foreign(End(i, events).frames)
    decreases events
  {
    if events != [] {
      var e, i', rest := events[0], Next(i, events[0]), events[1..];
      NothingIsLostOrInvented(i', rest);
      if e.Arrives? {
        ArrivalIsOwed(i, e.frame, Arrived(rest));
        assert [] + Delivered(rest) == Delivered(rest);
      } else {
        assert [] + Arrived(rest) == Arrived(rest);
        AccountsAddUp(Pending(i), BinaryPayload(Arrived(rest)), e.data,
                      Pending(i'), Delivered(rest), Pending(End(i', rest)));
      }
    }
  }

  /**
   Whatever arrives, what the reads return is a prefix of the payload of the binary messages alone,
   and every message that is not binary is reported by exactly one read once it has been passed.
   */
  lemma OnlyBinaryPayloadIsDelivered(events: seq<Event>)
    requires History(Incoming(None, []), events)
    ensures Delivered(events) <= BinaryPayload(Arrived(events))
    ensures Reports(events) <= Foreign(Arrived(events))
    ensures End(Incoming(None, []), events).frames == [] ==> Reports(events) == Foreign(Arrived(events))
  {
    NothingIsLostOrInvented(Incoming(None, []), events);
    assert Pending(Incoming(None, [])) + BinaryPayload(Arrived(events)) == BinaryPayload(Arrived(events));
  }

  /** As long as something is owed, a read on an unbroken socket never reports the end of the socket. */
  lemma SocketEndMeansDrained(before: Incoming, size: nat, data: Bytes, after: Incoming)
    requires Reads(before, size, data, Some(SocketFailed), false, after)
    ensures data == [] && Pending(before) == [] && Foreign(before.frames) == 0
  {
  }

  /** The read finds no further message on the socket, and did not break off inside one. */
  predicate FindsSocketExhausted(e: Event) {
    e.ReadDone? && e.error == Some(SocketFailed) && !e.broke
  }

  lemma {:induction false} HistoryAt(i: Incoming, events: seq<Event>, n: nat)
    requires History(i, events) && n < |events|
    ensures History(i, events[..n])
    ensures events[n].ReadDone? ==> KeepsPromise(End(i, events[..n]), events[n])
    decreases n
  {
    if n > 0 {
      HistoryAt(Next(i, events[0]), events[1..], n - 1);
      assert events[..n][1..] == events[1..][..n - 1];
    }
  }

  /**
   By the time a read finds the socket exhausted, the reads before it have handed out and reported
   everything that arrived.
   */
  lemma ExhaustedMeansDelivered(events: seq<Event>, n: nat)
    requires History(Incoming(None, []), events) && n < |events| && FindsSocketExhausted(events[n])
    ensures Delivered(events[..n]) == BinaryPayload(Arrived(events[..n]))
    ensures Reports(events[..n]) == Foreign(Arrived(events[..n]))
  {
    var start := Incoming(None, []);
    HistoryAt(start, events, n);
    SocketEndMeansDrained(End(start, events[..n]), events[n].size, events[n].data, events[n].after);
    NothingIsLostOrInvented(start, events[..n]);
    assert Delivered(events[..n]) + [] == Delivered(events[..n]);
    assert Pending(start) + BinaryPayload(Arrived(events[..n])) == BinaryPayload(Arrived(events[..n]));
  }

  lemma {:induction false} ArrivedSoFar(events: seq<Event>, n: nat)
    requires n <= |events|
    ensures Arrived(events[..n]) <= Arrived(events)
    decreases n
  {
    if n > 0 {
      ArrivedSoFar(events[1..], n - 1);
      assert events[..n][1..] == events[1..][..n - 1];
    }
  }

  /** The messages that a sequence of writes sends. */
  function Written(slices: seq<Bytes>): seq<Frame> {
    if slices == [] then [] else [Frame(true, slices[0])] + Written(slices[1..])
  }

  lemma {:induction false} WrittenPayload(slices: seq<Bytes>)
    ensures BinaryPayload(Written(slices)) == Flatten(slices) && Foreign(Written(slices)) == 0
  {
    if slices != [] {
      WrittenPayload(slices[1..]);
      assert Written(slices)[1..] == Written(slices[1..]);
    }
  }

  /** What has arrived of the messages of some writes are the messages of the first of them. */
  lemma {:induction false} WrittenSoFar(slices: seq<Bytes>, frames: seq<Frame>)
    requires frames <= Written(slices)
    ensures |frames| <= |slices| && BinaryPayload(frames) == Flatten(slices[..|frames|])
    decreases slices
  {
    if frames != [] {
      var n := |frames|;
      assert frames[1..] <= Written(slices)[1..];
      WrittenSoFar(slices[1..], frames[1..]);
      assert frames[0] == Frame(true, slices[0]);
      assert slices[..n][1..] == slices[1..][..n - 1];
    }
  }

  lemma {:induction false} NoReports(events: seq<Event>, n: nat)
    requires Reports(events) == 0 && n < |events|
    ensures events[n].ReadDone? && events[n].error.Some? ==>
              FindsSocketExhausted(events[n]) || events[n].broke || events[n].error == Some(EndOfFile)
    decreases n
  {
    if n > 0 {
      NoReports(events[1..], n - 1);
    } else if events[0].ReadDone? && events[0].error.Some? {
      assert events[0].error != Some(UnexpectedMessage);
      match events[0].error.value
      case EndOfFile =>
      case SocketFailed =>
      case UnexpectedMessage =>
    }
  }

  /**
   Write on one side, read on the other: with any slices, empty ones included, any buffer sizes and
   any partial reads, the bytes read are a prefix of the slices joined together, no message is ever
   reported as foreign, and a read that finds the socket exhausted has been preceded by every byte
   of the slices that had arrived. Until then no read reports an error, unless the socket breaks off
   inside a message or the connection has been closed on this side.
   */
  lemma WriteReadRoundTrip(slices: seq<Bytes>, events: seq<Event>)
    requires History(Incoming(None, []), events) && Arrived(events) == Written(slices)
    ensures Delivered(events) <= Flatten(slices)
    ensures Reports(events) == 0
    ensures var end := End(Incoming(None, []), events);
            && Flatten(slices) == Delivered(events) + Pending(end)
            && (end.frames == [] && Rest(end) == [] ==> Delivered(events) == Flatten(slices))
    ensures forall n :: 0 <= n < |events| && FindsSocketExhausted(events[n]) ==>
              var arrived := |Arrived(events[..n])|;
              arrived <= |slices| && Delivered(events[..n]) == Flatten(slices[..arrived])
    ensures forall n :: 0 <= n < |events| && events[n].ReadDone? && events[n].error.Some? ==>
              FindsSocketExhausted(events[n]) || events[n].broke || events[n].error == Some(EndOfFile)
  {
    NothingIsLostOrInvented(Incoming(None, []), events);
    OnlyBinaryPayloadIsDelivered(events);
    WrittenPayload(slices);
    forall n | 0 <= n < |events| && events[n].ReadDone? && events[n].error.Some?
      ensures FindsSocketExhausted(events[n]) || events[n].broke || events[n].error == Some(EndOfFile)
    {
      NoReports(events, n);
    }
    forall n | 0 <= n < |events| && FindsSocketExhausted(events[n])
      ensures |Arrived(events[..n])| <= |slices| && Delivered(events[..n]) == Flatten(slices[..|Arrived(events[..n])|])
    {
      ExhaustedRoundTrip(slices, events, n);
    }
  }

  lemma ExhaustedRoundTrip(slices: seq<Bytes>, events: seq<Event>, n: nat)
    requires History(Incoming(None, []), events) && Arrived(events) == Written(slices)
    requires n < |events| && FindsSocketExhausted(events[n])
    ensures |Arrived(events[..n])| <= |slices| && Delivered(events[..n]) == Flatten(slices[..|Arrived(events[..n])|])
  {
    ExhaustedMeansDelivered(events, n);
    ArrivedSoFar(events, n);
    WrittenSoFar(slices, Arrived(events[..n]));
  }
}
