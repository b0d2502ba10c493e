/** What the data callback reads: the receive buffer from the read offset on, received or stale. */
module Dispatch {
  import opened Types
  import opened Arithmetic
  import opened Framing
  import opened Codec

  /** Every field of every message ends within this many bytes. */
  const LONGEST := 53

  // ---------- One callback ----------

  predicate IsControl(kind: Kind) {
    kind.Logon? || kind.Logout? || kind.Heartbeat?
  }

  /** The kinds that `on_data_impl` hands to the session. */
  predicate ForSession(p: Protocol, kind: Kind) {
    match p
    case ProtocolA => kind.NewOrderSingle? || kind.CancelReplaceRequest? || kind.CancelRequest?
    case ProtocolB => kind.ExecutionReport? || kind.CancelReject?
  }

  /** What becomes of a message. Nobody looks at the fields of a control message. */
  datatype Delivery = Control(kind: Kind) | Application(msg: Message) | Invalid

  /** A session message with fields that do not lie within the given bytes. */
  predicate Short(p: Protocol, msgType: nat, bytes: seq<byte>) {
    var kind := KindOf(p, msgType);
    kind.Some? && ForSession(p, kind.value) && |bytes| < FieldsEnd(p, kind.value)
  }

  /** The switch of `on_data_impl`: the session's message is laid over the bytes, whatever its size field says. */
  function Deliver(p: Protocol, msgType: nat, bytes: seq<byte>): Delivery
    requires !Short(p, msgType, bytes)
  {
    match KindOf(p, msgType)
    case None => Invalid
    case Some(kind) =>
      if IsControl(kind) then Control(kind)
      else if ForSession(p, kind) then Application(ReadStruct(p, kind, bytes))
      else Invalid
  }

  lemma LongEnough(p: Protocol, msgType: nat, bytes: seq<byte>)
    requires LONGEST <= |bytes|
    ensures !Short(p, msgType, bytes)
  {
    var kind := KindOf(p, msgType);
    if kind.Some? {
      SizesFit(p, kind.value);
    }
  }

  predicate ShortFrame(p: Protocol, frame: Frame) {
    Short(p, frame.msgType, frame.bytes)
  }

  /** What a message is if only its own bytes are looked at. */
  function FrameDelivery(p: Protocol, frame: Frame): Delivery
    requires !ShortFrame(p, frame)
  {
    Deliver(p, frame.msgType, frame.bytes)
  }

  lemma {:induction false} ReadFieldsPrefix(widths: seq<nat>, a: seq<byte>, b: seq<byte>)
    requires Sum(widths) <= |a| && Sum(widths) <= |b|
    ensures a[..Sum(widths)] == b[..Sum(widths)] <==> ReadFields(widths, a) == ReadFields(widths, b)
    decreases |widths|
  {
    if widths != [] {
      var w, n := widths[0], Sum(widths[1..]);
      ReadFieldsPrefix(widths[1..], a[w..], b[w..]);
      FromBytesInjective(a[..w], b[..w]);
      SplitPrefix(a, w, n);
      SplitPrefix(b, w, n);
      var x, y := ReadFields(widths[1..], a[w..]), ReadFields(widths[1..], b[w..]);
      assert ReadFields(widths, a)[0] == FromBytes(a[..w]) && ReadFields(widths, a)[1..] == x;
      assert ReadFields(widths, b)[0] == FromBytes(b[..w]) && ReadFields(widths, b)[1..] == y;
    }
  }

  lemma SplitPrefix(a: seq<byte>, w: nat, n: nat)
    requires w + n <= |a|
    ensures a[..w + n] == a[..w] + a[w..][..n]
    ensures a[..w + n][..w] == a[..w] && a[..w + n][w..] == a[w..][..n]
  {
  }

  lemma {:induction false} FromBytesInjective(a: seq<byte>, b: seq<byte>)
    requires |a| == |b|
    ensures FromBytes(a) == FromBytes(b) <==> a == b
    decreases |a|
  {
    if a != [] {
      FromBytesInjective(a[1..], b[1..]);
      assert a == [a[0]] + a[1..] && b == [b[0]] + b[1..];
    }
  }

  /** A structure is read from its field bytes and from nothing else, and every one of them counts. */
  lemma StructReadsItsFields(p: Protocol, kind: Kind, a: seq<byte>, b: seq<byte>)
    requires FieldsEnd(p, kind) <= |a| && FieldsEnd(p, kind) <= |b|
    ensures ReadStruct(p, kind, a) == ReadStruct(p, kind, b) <==>
            a[HeaderLength(p)..FieldsEnd(p, kind)] == b[HeaderLength(p)..FieldsEnd(p, kind)]
  {
    var h, n := HeaderLength(p), Sum(Widths(p, kind));
    ReadFieldsPrefix(Widths(p, kind), a[h..], b[h..]);
    PrefixBehind(a, h, n);
    PrefixBehind(b, h, n);
  }

  lemma PrefixBehind(a: seq<byte>, h: nat, n: nat)
    requires h + n <= |a|
    ensures a[h..][..n] == a[h..h + n]
  {
  }

  /** A message that was cut off, and what became of it. */
  datatype Callback = Callback(frame: Frame, delivery: Delivery)

  /** The callback on received bytes; it may read on into what lies in memory behind them. */
  function CallbackOn(p: Protocol, data: seq<byte>, behind: seq<byte>): Callback
    requires Complete(p, data) && LONGEST <= |behind|
  {
    LongEnough(p, TypeField(p, data), data + behind);
    Callback(Head(p, data), Deliver(p, TypeField(p, data), data + behind))
  }

  lemma SameSlice(data: seq<byte>, n: nat, behind: seq<byte>, from: nat, end: nat)
    requires from <= end <= n <= |data|
    ensures data[..n][from..end] == (data + behind)[from..end]
  {
  }

  /** A message that is not short is read from its frame alone. */
  lemma DeliveredFromFrame(p: Protocol, data: seq<byte>, behind: seq<byte>)
    requires LONGEST <= |behind|
    requires Complete(p, data) && !ShortFrame(p, Head(p, data))
    ensures CallbackOn(p, data, behind).delivery == FrameDelivery(p, Head(p, data))
  {
    var frame := Head(p, data);
    var kind := KindOf(p, frame.msgType);
    LongEnough(p, frame.msgType, data + behind);
    if kind.Some? && ForSession(p, kind.value) {
      SameSlice(data, SizeField(data), behind, HeaderLength(p), FieldsEnd(p, kind.value));
      StructReadsItsFields(p, kind.value, data + behind, frame.bytes);
    }
  }

  // ---------- One call of process_data ----------

  /** The callbacks while received bytes are consumed. */
  function Callbacks(p: Protocol, data: seq<byte>, behind: seq<byte>): seq<Callback>
    requires LONGEST <= |behind|
    decreases |data|
  {
    if Consumes(p, data) then [CallbackOn(p, data, behind)] + Callbacks(p, data[SizeField(data)..], behind)
    else if ZeroHead(p, data) then [CallbackOn(p, data, behind)]
    else []
  }

  function FramesOf(callbacks: seq<Callback>): (frames: seq<Frame>)
    ensures |frames| == |callbacks|
    ensures forall i :: 0 <= i < |frames| ==> frames[i] == callbacks[i].frame
  {
    seq(|callbacks|, i requires 0 <= i < |callbacks| => callbacks[i].frame)
  }

  predicate FromFrames(p: Protocol, callbacks: seq<Callback>) {
    forall i :: 0 <= i < |callbacks| ==>
      !ShortFrame(p, callbacks[i].frame) ==> callbacks[i].delivery == FrameDelivery(p, callbacks[i].frame)
  }

  lemma FramesOfAppend(a: seq<Callback>, b: seq<Callback>)
    ensures FramesOf(a + b) == FramesOf(a) + FramesOf(b)
  {
  }

  lemma FramesOfFirst(first: Callback, later: seq<Callback>)
    ensures FramesOf([first] + later) == [first.frame] + FramesOf(later)
    ensures FramesOf([first]) == [first.frame]
  {
  }

  /** Where messages end does not depend on what lies behind them. */
  lemma {:induction false} CallbackFrames(p: Protocol, data: seq<byte>, behind: seq<byte>)
    requires LONGEST <= |behind|
    ensures FramesOf(Callbacks(p, data, behind)) == Dispatched(p, data)
    decreases |data|
  {
    if Consumes(p, data) {
      var later := data[SizeField(data)..];
      CallbackFrames(p, later, behind);
      FramesOfFirst(CallbackOn(p, data, behind), Callbacks(p, later, behind));
      DispatchedFirst(p, data);
    } else if ZeroHead(p, data) {
      FramesOfFirst(CallbackOn(p, data, behind), []);
    }
  }

  /** Only a short message is read from what lies behind it. */
  lemma {:induction false} CallbacksFromFrames(p: Protocol, data: seq<byte>, behind: seq<byte>)
    requires LONGEST <= |behind|
    ensures FromFrames(p, Callbacks(p, data, behind))
    decreases |data|
  {
    if Complete(p, data) {
      if !ShortFrame(p, Head(p, data)) {
        DeliveredFromFrame(p, data, behind);
      }
      if Consumes(p, data) {
        CallbacksFromFrames(p, data[SizeField(data)..], behind);
      }
    }
  }

  lemma DispatchedFirst(p: Protocol, view: seq<byte>)
    requires Consumes(p, view)
    ensures Dispatched(p, view) == [Head(p, view)] + Dispatched(p, view[SizeField(view)..])
  {
    var later := view[SizeField(view)..];
    var zero := if ZeroHead(p, Residue(p, later)) then [Head(p, Residue(p, later))] else [];
    Associate([Head(p, view)], Frames(p, later), zero);
  }

  // ---------- A connection ----------

  /** The receive buffer and the write offset. */
  datatype Memory = Memory(buffer: seq<byte>, length: nat)

  predicate IsMemory(m: Memory) {
    m.length <= |m.buffer| == CAPACITY
  }

  function Front(m: Memory): seq<byte>
    requires IsMemory(m)
  {
    m.buffer[..m.length]
  }

  /** One read, and what lies in memory behind the receive buffer at that time. */
  datatype Read = Read(chunk: seq<byte>, beyond: seq<byte>)

  function Chunks(inputs: seq<Read>): (chunks: seq<seq<byte>>)
    ensures |chunks| == |inputs|
    ensures forall i :: 0 <= i < |chunks| ==> chunks[i] == inputs[i].chunk
  {
    seq(|inputs|, i requires 0 <= i < |inputs| => inputs[i].chunk)
  }

  predicate Fitting(p: Protocol, rest: seq<byte>, inputs: seq<Read>) {
    && Fits(p, rest, Chunks(inputs))
    && forall i :: 0 <= i < |inputs| ==> LONGEST <= |inputs[i].beyond|
  }

  /** The array after a read: everything behind the new bytes is left as it was. */
  function Fill(m: Memory, chunk: seq<byte>): (buffer: seq<byte>)
    requires IsMemory(m) && m.length + |chunk| <= CAPACITY
    ensures |buffer| == CAPACITY && buffer[..m.length + |chunk|] == Front(m) + chunk
  {
    Front(m) + chunk + m.buffer[m.length + |chunk|..]
  }

  /** The array after the residue was moved to the front, again with the rest left as it was. */
  function Settle(p: Protocol, buffer: seq<byte>, length: nat): (m: Memory)
    requires length <= |buffer| == CAPACITY
    ensures IsMemory(m) && Front(m) == Residue(p, buffer[..length])
  {
    var rest := Residue(p, buffer[..length]);
    Memory(rest + buffer[|rest|..], |rest|)
  }

  /** The memory after one read event. */
  function AfterRead(p: Protocol, m: Memory, input: Read): (m': Memory)
    requires IsMemory(m) && m.length + |input.chunk| <= CAPACITY
    ensures IsMemory(m') && Front(m') == Residue(p, Front(m) + input.chunk)
  {
    Settle(p, Fill(m, input.chunk), m.length + |input.chunk|)
  }

  /** What lies behind the received bytes after a read: the rest of the array, and what follows it. */
  function Behind(m: Memory, input: Read): seq<byte>
    requires IsMemory(m) && m.length + |input.chunk| <= CAPACITY
  {
    m.buffer[m.length + |input.chunk|..] + input.beyond
  }

  /** The callbacks of one read event. */
  function CallbacksOf(p: Protocol, m: Memory, input: Read): seq<Callback>
    requires IsMemory(m) && m.length + |input.chunk| <= CAPACITY && LONGEST <= |input.beyond|
  {
    Callbacks(p, Front(m) + input.chunk, Behind(m, input))
  }

  function After(p: Protocol, m: Memory, inputs: seq<Read>): (m': Memory)
    requires IsMemory(m) && Fitting(p, Front(m), inputs)
    ensures IsMemory(m')
    decreases |inputs|
  {
    if inputs == [] then m
    else
      FittingFirst(p, Front(m), inputs);
      After(p, AfterRead(p, m, inputs[0]), inputs[1..])
  }

  function CallbacksBy(p: Protocol, m: Memory, inputs: seq<Read>): seq<Callback>
    requires IsMemory(m) && Fitting(p, Front(m), inputs)
    decreases |inputs|
  {
    if inputs == [] then []
    else
      FittingFirst(p, Front(m), inputs);
      CallbacksOf(p, m, inputs[0]) + CallbacksBy(p, AfterRead(p, m, inputs[0]), inputs[1..])
  }

  lemma FittingFirst(p: Protocol, rest: seq<byte>, inputs: seq<Read>)
    requires Fitting(p, rest, inputs) && inputs != []
    ensures inputs[0].chunk != [] && |rest| + |inputs[0].chunk| <= CAPACITY && LONGEST <= |inputs[0].beyond|
    ensures Fitting(p, Residue(p, rest + inputs[0].chunk), inputs[1..])
    ensures Chunks(inputs) == [inputs[0].chunk] + Chunks(inputs[1..])
  {
    assert Chunks(inputs)[1..] == Chunks(inputs[1..]);
  }

  lemma FirstOfCallbacks(p: Protocol, m: Memory, input: Read, later: seq<Read>)
    requires IsMemory(m) && Fitting(p, Front(m), [input] + later)
    ensures m.length + |input.chunk| <= CAPACITY && LONGEST <= |input.beyond|
    ensures Fitting(p, Front(AfterRead(p, m, input)), later)
    ensures CallbacksBy(p, m, [input] + later) ==
            CallbacksOf(p, m, input) + CallbacksBy(p, AfterRead(p, m, input), later)
  {
    FittingFirst(p, Front(m), [input] + later);
    assert ([input] + later)[1..] == later;
  }

  lemma FromFramesAppend(p: Protocol, a: seq<Callback>, b: seq<Callback>)
    requires FromFrames(p, a) && FromFrames(p, b)
    ensures FromFrames(p, a + b)
    ensures FramesOf(a + b) == FramesOf(a) + FramesOf(b)
  {
  }

  lemma CallbacksOfFrames(p: Protocol, m: Memory, input: Read)
    requires IsMemory(m) && m.length + |input.chunk| <= CAPACITY && LONGEST <= |input.beyond|
    ensures FramesOf(CallbacksOf(p, m, input)) == Dispatched(p, Front(m) + input.chunk)
    ensures FromFrames(p, CallbacksOf(p, m, input))
  {
    CallbackFrames(p, Front(m) + input.chunk, Behind(m, input));
    CallbacksFromFrames(p, Front(m) + input.chunk, Behind(m, input));
  }

  /**
   * On a whole connection: the frames and the residue are those of the reads' bytes, and a message
   * that is not short is read from its frame, whatever lay in memory before.
   */
  lemma {:induction false} StaleBytesBehindFrames(p: Protocol, m: Memory, inputs: seq<Read>)
    requires IsMemory(m) && Fitting(p, Front(m), inputs)
    ensures FramesOf(CallbacksBy(p, m, inputs)) == DispatchedBy(p, Front(m), Chunks(inputs))
    ensures Front(After(p, m, inputs)) == ResidueAfter(p, Front(m), Chunks(inputs))
    ensures FromFrames(p, CallbacksBy(p, m, inputs))
    decreases |inputs|
  {
    if inputs != [] {
      FittingFirst(p, Front(m), inputs);
      var m' := AfterRead(p, m, inputs[0]);
      StaleBytesBehindFrames(p, m', inputs[1..]);
      CallbacksOfFrames(p, m, inputs[0]);
      FromFramesAppend(p, CallbacksOf(p, m, inputs[0]), CallbacksBy(p, m', inputs[1..]));
    }
  }

  // ---------- When the stream alone decides ----------

  /** A connection: what the array holds when it is made, and the reads that follow. */
  datatype Execution = Execution(buffer: seq<byte>, inputs: seq<Read>)

  /** The reads fit and bring exactly these bytes. */
  predicate Brings(p: Protocol, chunks: seq<seq<byte>>, data: seq<byte>) {
    Fits(p, [], chunks) && Concat(chunks) == data
  }

  /** The reads bring exactly these bytes, split in any way that fits, with anything behind the array. */
  predicate Reading(p: Protocol, x: Execution, data: seq<byte>) {
    && |x.buffer| == CAPACITY
    && Brings(p, Chunks(x.inputs), data)
    && forall i :: 0 <= i < |x.inputs| ==> LONGEST <= |x.inputs[i].beyond|
  }

  function Handled(p: Protocol, x: Execution): seq<Callback>
    requires |x.buffer| == CAPACITY && Fitting(p, [], x.inputs)
  {
    CallbacksBy(p, Memory(x.buffer, 0), x.inputs)
  }

  /** However the stream is split and whatever stale bytes lie around, the callbacks are the same. */
  ghost predicate Settled(p: Protocol, data: seq<byte>) {
    forall x, y :: Reading(p, x, data) && Reading(p, y, data) ==> Handled(p, x) == Handled(p, y)
  }

  /** No short message, and nothing behind a header of size zero. */
  ghost predicate Clean(p: Protocol, data: seq<byte>) {
    && (forall frame :: frame in Dispatched(p, data) ==> !ShortFrame(p, frame))
    && !(ZeroHead(p, Residue(p, data)) && HeaderLength(p) < |Residue(p, data)|)
  }

  /** The callbacks that the frames alone call for. */
  function Plain(p: Protocol, frames: seq<Frame>): (callbacks: seq<Callback>)
    requires forall frame :: frame in frames ==> !ShortFrame(p, frame)
    ensures FramesOf(callbacks) == frames && FromFrames(p, callbacks)
  {
    seq(|frames|, i requires 0 <= i < |frames| => Callback(frames[i], FrameDelivery(p, frames[i])))
  }

  lemma PlainUnique(p: Protocol, callbacks: seq<Callback>)
    requires FromFrames(p, callbacks)
    requires forall frame :: frame in FramesOf(callbacks) ==> !ShortFrame(p, frame)
    ensures callbacks == Plain(p, FramesOf(callbacks))
  {
    forall i | 0 <= i < |callbacks|
      ensures callbacks[i] == Plain(p, FramesOf(callbacks))[i]
    {
      assert FramesOf(callbacks)[i] in FramesOf(callbacks);
    }
  }

  /** A clean stream is handled as its frames call for, in every execution. */
  lemma CleanStream(p: Protocol, x: Execution, data: seq<byte>)
    requires Reading(p, x, data) && Clean(p, data)
    ensures Handled(p, x) == Plain(p, Dispatched(p, data))
  {
    var chunks, m := Chunks(x.inputs), Memory(x.buffer, 0);
    assert Front(m) == [];
    StaleBytesBehindFrames(p, m, x.inputs);
    DispatchedOnce(p, chunks);
    PlainUnique(p, Handled(p, x));
  }

  // ---------- Streams that can be read ----------

  /** Every message fits the buffer, and so does what is left behind. */
  predicate Readable(p: Protocol, data: seq<byte>)
    decreases |data|
  {
    if Consumes(p, data) then SizeField(data) <= CAPACITY && Readable(p, data[SizeField(data)..])
    else |data| <= CAPACITY
  }

  lemma {:induction false} ReadableInTwoSteps(p: Protocol, a: seq<byte>, b: seq<byte>)
    requires |a| <= CAPACITY
    ensures Readable(p, a + b) <==> Readable(p, Residue(p, a) + b)
    decreases |a|
  {
    if Consumes(p, a) {
      HeadStays(p, a, b);
      var n := SizeField(a);
      assert (a + b)[n..] == a[n..] + b;
      ReadableInTwoSteps(p, a[n..], b);
    }
  }

  lemma {:induction false} FittingIsReadable(p: Protocol, rest: seq<byte>, chunks: seq<seq<byte>>)
    requires Fits(p, rest, chunks) && |rest| <= CAPACITY && !Consumes(p, rest)
    ensures Readable(p, rest + Concat(chunks))
    decreases |chunks|
  {
    if chunks == [] {
      assert rest + [] == rest;
    } else {
      var data, later := rest + chunks[0], Concat(chunks[1..]);
      FittingIsReadable(p, Residue(p, data), chunks[1..]);
      ReadableInTwoSteps(p, data, later);
      Associate(rest, chunks[0], later);
    }
  }

  /** A stream read byte by byte. */
  function Singles(data: seq<byte>): (chunks: seq<seq<byte>>)
    ensures Concat(chunks) == data
  {
    if data == [] then []
    else
      assert ([[data[0]]] + Singles(data[1..]))[1..] == Singles(data[1..]);
      assert [data[0]] + data[1..] == data;
      [[data[0]]] + Singles(data[1..])
  }

  /** One more byte of a readable stream always fits. */
  lemma RoomForOne(p: Protocol, rest: seq<byte>, data: seq<byte>)
    requires !Consumes(p, rest) && |rest| <= CAPACITY && Readable(p, rest + data) && data != []
    ensures |rest| + 1 <= CAPACITY
  {
    if HeaderLength(p) <= |rest| {
      HeadStays(p, rest, data);
    }
  }

  lemma {:induction false} SinglesFit(p: Protocol, rest: seq<byte>, data: seq<byte>)
    requires !Consumes(p, rest) && |rest| <= CAPACITY && Readable(p, rest + data)
    ensures Fits(p, rest, Singles(data))
    decreases |data|
  {
    if data != [] {
      RoomForOne(p, rest, data);
      var next, later := rest + [data[0]], data[1..];
      assert rest + data == next + later;
      ReadableInTwoSteps(p, next, later);
      SinglesFit(p, Residue(p, next), later);
      assert Singles(data)[1..] == Singles(later);
    }
  }

  /** Streams that reads can bring at all are exactly the readable ones. */
  lemma ReadableExactly(p: Protocol, data: seq<byte>)
    ensures Readable(p, data) <==> exists chunks :: Brings(p, chunks, data)
  {
    assert [] + data == data;
    if Readable(p, data) {
      SinglesFit(p, [], data);
      assert Brings(p, Singles(data), data);
    }
    forall chunks | Brings(p, chunks, data)
      ensures Readable(p, data)
    {
      FittingIsReadable(p, [], chunks);
    }
  }

  /** Reads with the same bytes behind the array each time. */
  function WithBeyond(chunks: seq<seq<byte>>, beyond: seq<byte>): (inputs: seq<Read>)
    ensures Chunks(inputs) == chunks
    ensures forall i :: 0 <= i < |inputs| ==> inputs[i].beyond == beyond
  {
    seq(|chunks|, i requires 0 <= i < |chunks| => Read(chunks[i], beyond))
  }

  function WithZeros(chunks: seq<seq<byte>>): (inputs: seq<Read>)
    ensures Chunks(inputs) == chunks
    ensures forall i :: 0 <= i < |inputs| ==> inputs[i].beyond == Zeros(LONGEST)
  {
    WithBeyond(chunks, Zeros(LONGEST))
  }

  // ---------- When stale bytes decide ----------

  /** What lies behind the first read of a connection. */
  function FirstBehind(buffer: seq<byte>, chunk: seq<byte>, beyond: seq<byte>): (behind: seq<byte>)
    requires |chunk| <= |buffer|
    ensures |beyond| <= |behind|
  {
    buffer[|chunk|..] + beyond
  }

  /** The first callback of a connection whose first read brings at least a whole message. */
  lemma FirstCallback(p: Protocol, x: Execution, data: seq<byte>)
    requires Reading(p, x, data) && x.inputs != [] && Complete(p, x.inputs[0].chunk)
    ensures var chunk, beyond := x.inputs[0].chunk, x.inputs[0].beyond;
            && |chunk| <= CAPACITY && LONGEST <= |beyond|
            && |Handled(p, x)| > 0
            && Handled(p, x)[0] == CallbackOn(p, chunk, FirstBehind(x.buffer, chunk, beyond))
  {
    var m, input := Memory(x.buffer, 0), x.inputs[0];
    FittingFirst(p, Front(m), x.inputs);
    assert Front(m) + input.chunk == input.chunk;
  }

  /** Two memories with different bytes in a field of the session message at their front. */
  lemma FieldByteDecides(p: Protocol, kind: Kind, a: seq<byte>, b: seq<byte>, at: nat)
    requires HeaderLength(p) <= at < FieldsEnd(p, kind)
    requires FieldsEnd(p, kind) <= |a| && FieldsEnd(p, kind) <= |b| && a[at] != b[at]
    ensures ReadStruct(p, kind, a) != ReadStruct(p, kind, b)
  {
    var h, e := HeaderLength(p), FieldsEnd(p, kind);
    assert a[h..e][at - h] != b[h..e][at - h];
    StructReadsItsFields(p, kind, a, b);
  }

  lemma HeadFields(p: Protocol, data: seq<byte>, n: nat)
    requires Complete(p, data) && HeaderLength(p) <= n <= |data| && SizeField(data) <= n
    ensures Complete(p, data[..n]) && TypeField(p, data[..n]) == TypeField(p, data)
  {
    HeadStays(p, data[..n], data[n..]);
    assert data[..n] + data[n..] == data;
  }

  /** As many callbacks as there are messages, and one more for each read that saw a size-zero head. */
  lemma CallbackCount(p: Protocol, chunks: seq<seq<byte>>) returns (x: Execution)
    requires Fits(p, [], chunks)
    ensures Reading(p, x, Concat(chunks))
    ensures ZeroHead(p, Residue(p, Concat(chunks))) ==>
              |Handled(p, x)| == |Frames(p, Concat(chunks))| + ZeroReads(p, [], chunks)
  {
    x := Execution(Zeros(CAPACITY), WithZeros(chunks));
    var m := Memory(x.buffer, 0);
    assert Front(m) == [] && [] + Concat(chunks) == Concat(chunks);
    StaleBytesBehindFrames(p, m, x.inputs);
    ReadsRefineParse(p, [], chunks);
  }

  /** Bytes behind a size-zero header make the number of its callbacks depend on the split. */
  lemma ZeroHeadUnsettled(p: Protocol, data: seq<byte>)
    requires Readable(p, data)
    requires ZeroHead(p, Residue(p, data)) && HeaderLength(p) < |Residue(p, data)|
    ensures !Settled(p, data)
  {
    assert [] + data == data;
    SinglesFit(p, [], data);
    var chunks' := Resplit(p, [], Singles(data));
    var x := CallbackCount(p, Singles(data));
    var y := CallbackCount(p, chunks');
    assert Handled(p, x) != Handled(p, y);
  }

  lemma CleanFirst(p: Protocol, data: seq<byte>)
    requires Consumes(p, data)
    ensures Clean(p, data) <==> !ShortFrame(p, Head(p, data)) && Clean(p, data[SizeField(data)..])
  {
    DispatchedFirst(p, data);
    assert forall frame :: frame in Dispatched(p, data) <==>
             frame == Head(p, data) || frame in Dispatched(p, data[SizeField(data)..]);
  }

  lemma CleanIsSettled(p: Protocol, data: seq<byte>)
    requires Clean(p, data)
    ensures Settled(p, data)
  {
    forall x, y | Reading(p, x, data) && Reading(p, y, data)
      ensures Handled(p, x) == Handled(p, y)
    {
      CleanStream(p, x, data);
      CleanStream(p, y, data);
    }
  }

  // ---------- Encoded streams ----------

  /** What the protocol makes of a message that was sent to it. */
  function DeliveryOf(p: Protocol, msg: Message): Delivery {
    if IsControl(msg.kind) then Control(msg.kind)
    else if ForSession(p, msg.kind) then Application(msg)
    else Invalid
  }

  function DeliveriesOf(p: Protocol, msgs: seq<Message>): seq<Delivery> {
    if msgs == [] then [] else [DeliveryOf(p, msgs[0])] + DeliveriesOf(p, msgs[1..])
  }

  function Deliveries(callbacks: seq<Callback>): seq<Delivery> {
    if callbacks == [] then [] else [callbacks[0].delivery] + Deliveries(callbacks[1..])
  }

  /** A receiver that decodes a frame and the endpoint's switch make the same of it. */
  lemma DecodedDelivered(p: Protocol, frame: Frame)
    ensures Decode(p, frame).Some? ==>
              && !ShortFrame(p, frame)
              && FrameDelivery(p, frame) == DeliveryOf(p, Decode(p, frame).value.msg)
    ensures Decode(p, frame).None? && !ShortFrame(p, frame) ==> !FrameDelivery(p, frame).Application?
  {
  }

  lemma EncodedDelivery(p: Protocol, msg: Message, seqNo: uint64)
    requires ValidMessage(p, msg)
    ensures var b := Encode(p, msg, seqNo);
            && Consumes(p, b) && SizeField(b) == |b| && !ShortFrame(p, Head(p, b))
            && FrameDelivery(p, Head(p, b)) == DeliveryOf(p, msg)
  {
    EncodedFrame(p, msg, seqNo);
    DecodedDelivered(p, Head(p, Encode(p, msg, seqNo)));
  }

  lemma PlainFirst(p: Protocol, head: Frame, later: seq<Frame>)
    requires !ShortFrame(p, head) && forall frame :: frame in later ==> !ShortFrame(p, frame)
    ensures (forall frame :: frame in [head] + later ==> !ShortFrame(p, frame))
    ensures Deliveries(Plain(p, [head] + later)) == [FrameDelivery(p, head)] + Deliveries(Plain(p, later))
  {
    assert Plain(p, [head] + later)[1..] == Plain(p, later);
  }

  lemma NothingComplete(p: Protocol, cut: seq<byte>)
    requires !Complete(p, cut)
    ensures Dispatched(p, cut) == [] && Residue(p, cut) == cut && Clean(p, cut)
  {
  }

  /** A stream of encoded messages is clean, and each message is delivered as it was sent; a last one may be cut off. */
  lemma {:induction false} EncodedIsClean(p: Protocol, last: uint64, msgs: seq<Message>, cut: seq<byte>)
    requires ValidMessages(p, msgs) && !Complete(p, cut)
    ensures Clean(p, EncodeAll(p, last, msgs) + cut)
    ensures Deliveries(Plain(p, Dispatched(p, EncodeAll(p, last, msgs) + cut))) == DeliveriesOf(p, msgs)
    decreases |msgs|
  {
    if msgs == [] {
      assert [] + cut == cut;
      NothingComplete(p, cut);
    } else {
      var b, rest := Encode(p, msgs[0], NextSequence(last)), EncodeAll(p, NextSequence(last), msgs[1..]);
      EncodedIsClean(p, NextSequence(last), msgs[1..], cut);
      Associate(b, rest, cut);
      EncodedFirst(p, msgs[0], NextSequence(last), rest + cut);
    }
  }

  lemma EncodedFirst(p: Protocol, msg: Message, seqNo: uint64, rest: seq<byte>)
    requires ValidMessage(p, msg) && Clean(p, rest)
    ensures var data := Encode(p, msg, seqNo) + rest;
            && Clean(p, data)
            && Deliveries(Plain(p, Dispatched(p, data))) ==
               [DeliveryOf(p, msg)] + Deliveries(Plain(p, Dispatched(p, rest)))
  {
    var b := Encode(p, msg, seqNo);
    EncodedDelivery(p, msg, seqNo);
    HeadStays(p, b, rest);
    assert (b + rest)[|b|..] == rest;
    CleanFirst(p, b + rest);
    DispatchedFirst(p, b + rest);
    PlainFirst(p, Head(p, b), Dispatched(p, rest));
  }

  /**
   * Whatever the split and the stale bytes, a session is handed exactly the messages sent to it, in
   * order, also if the connection breaks off in the middle of another one.
   */
  lemma EncodedStreamHandled(p: Protocol, last: uint64, msgs: seq<Message>, cut: seq<byte>, x: Execution)
    requires ValidMessages(p, msgs) && !Complete(p, cut) && Reading(p, x, EncodeAll(p, last, msgs) + cut)
    ensures Deliveries(Handled(p, x)) == DeliveriesOf(p, msgs)
  {
    EncodedIsClean(p, last, msgs, cut);
    CleanStream(p, x, EncodeAll(p, last, msgs) + cut);
  }
}
