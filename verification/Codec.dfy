/** Byte layout of the messages of both protocols, and streams of encoded messages. */
module Codec {
  import opened Types
  import opened Arithmetic
  import opened WireIds
  import opened Framing
  import M = Messages

  datatype Kind =
    | Logon | Logout | Heartbeat
    | NewOrderSingle | CancelReplaceRequest | CancelRequest
    | ExecutionReport | CancelReject

  function KindIndex(kind: Kind): (i: nat)
    ensures i < 8
  {
    match kind
    case Logon => 0
    case Logout => 1
    case Heartbeat => 2
    case NewOrderSingle => 3
    case CancelReplaceRequest => 4
    case CancelRequest => 5
    case ExecutionReport => 6
    case CancelReject => 7
  }

  /** `MsgType`: 0 to 7 in protocol A, 10 to 17 in protocol B. */
  function TypeCode(p: Protocol, kind: Kind): nat {
    KindIndex(kind) + if p.ProtocolA? then 0 else 10
  }

  const KINDS := [Logon, Logout, Heartbeat, NewOrderSingle, CancelReplaceRequest, CancelRequest,
                  ExecutionReport, CancelReject]

  function KindOf(p: Protocol, code: nat): Option<Kind> {
    var base := if p.ProtocolA? then 0 else 10;
    if base <= code < base + 8 then Some(KINDS[code - base]) else None
  }

  /** Widths in bytes of the fields that follow the header, in schema order. */
  function Widths(p: Protocol, kind: Kind): seq<nat> {
    match p
    case ProtocolA =>
      [4, 4] + (match kind
                case Logon => []
                case Logout => []
                case Heartbeat => []
                case NewOrderSingle => [8]
                case CancelReplaceRequest => [8, 8]
                case CancelRequest => [8, 8]
                case ExecutionReport => [8, 8, 8, 8]
                case CancelReject => [8, 8])
    case ProtocolB =>
      [4, 4] + (match kind
                case Logon => []
                case Logout => []
                case Heartbeat => []
                case NewOrderSingle => [4]
                case CancelReplaceRequest => [4, 4]
                case CancelRequest => [4, 4]
                case ExecutionReport => [4, 4, 4]
                case CancelReject => [4, 4])
  }

  /** Bytes that round a protocol B structure up to its alignment of eight. */
  function Padding(p: Protocol, kind: Kind): nat {
    if p.ProtocolB? && (kind.NewOrderSingle? || kind.ExecutionReport?) then 4 else 0
  }

  function Sum(widths: seq<nat>): nat {
    if widths == [] then 0 else widths[0] + Sum(widths[1..])
  }

  /** Where the last field of a message ends. */
  function FieldsEnd(p: Protocol, kind: Kind): nat {
    HeaderLength(p) + Sum(Widths(p, kind))
  }

  /** `sizeof` of a message, which its header announces. */
  function SizeOf(p: Protocol, kind: Kind): nat {
    FieldsEnd(p, kind) + Padding(p, kind)
  }

  function Power256(n: nat): nat {
    if n == 0 then 1 else 256 * Power256(n - 1)
  }

  /** Digit i of a value to the base 256. */
  function Digit(value: nat, i: nat): byte
    decreases i
  {
    if i == 0 then value % 256 else Digit(value / 256, i - 1)
  }

  /** Little-endian bytes of a value that fits. */
  function ToBytes(value: nat, width: nat): (b: seq<byte>)
    ensures |b| == width
  {
    seq(width, i requires 0 <= i < width => Digit(value, i))
  }

  lemma {:induction false} FromToBytes(value: nat, width: nat)
    requires value < Power256(width)
    ensures FromBytes(ToBytes(value, width)) == value
    decreases width
  {
    if width != 0 {
      FromToBytes(value / 256, width - 1);
      assert ToBytes(value, width)[1..] == ToBytes(value / 256, width - 1);
    }
  }

  // ---------- Fields ----------

  predicate WordFits(widths: seq<nat>, words: seq<nat>, i: nat) {
    i < |words| == |widths| ==> words[i] < Power256(widths[i])
  }

  ghost predicate WordsFit(widths: seq<nat>, words: seq<nat>) {
    |words| == |widths| && forall i :: 0 <= i < |words| ==> WordFits(widths, words, i)
  }

  function WriteFields(widths: seq<nat>, words: seq<nat>): (b: seq<byte>)
    requires |widths| == |words|
    ensures |b| == Sum(widths)
    decreases |widths|
  {
    if widths == [] then [] else ToBytes(words[0], widths[0]) + WriteFields(widths[1..], words[1..])
  }

  function ReadFields(widths: seq<nat>, b: seq<byte>): (words: seq<nat>)
    requires Sum(widths) <= |b|
    ensures |words| == |widths|
    decreases |widths|
  {
    if widths == [] then []
    else [FromBytes(b[..widths[0]])] + ReadFields(widths[1..], b[widths[0]..])
  }

  lemma TailFits(widths: seq<nat>, words: seq<nat>)
    requires WordsFit(widths, words) && widths != []
    ensures words[0] < Power256(widths[0]) && WordsFit(widths[1..], words[1..])
  {
    assert WordFits(widths, words, 0);
    forall i | 0 <= i < |words| - 1
      ensures WordFits(widths[1..], words[1..], i)
    {
      assert WordFits(widths, words, i + 1);
    }
  }

  lemma {:induction false} ReadWritten(widths: seq<nat>, words: seq<nat>, rest: seq<byte>)
    requires WordsFit(widths, words)
    ensures ReadFields(widths, WriteFields(widths, words) + rest) == words
    decreases |widths|
  {
    if widths != [] {
      var first, later := ToBytes(words[0], widths[0]), WriteFields(widths[1..], words[1..]);
      var b := WriteFields(widths, words) + rest;
      TailFits(widths, words);
      Associate(first, later, rest);
      assert b[..widths[0]] == first && b[widths[0]..] == later + rest;
      FromToBytes(words[0], widths[0]);
      ReadWritten(widths[1..], words[1..], rest);
    }
  }

  // ---------- Messages ----------

  datatype Message = Message(kind: Kind, words: seq<nat>)

  ghost predicate ValidMessage(p: Protocol, msg: Message) {
    WordsFit(Widths(p, msg.kind), msg.words)
  }

  /** Type field and, in protocol B, version 1 and the padding before the sequence number. */
  function Middle(p: Protocol, kind: Kind): (b: seq<byte>)
    ensures |b| == HeaderLength(p) - 12
  {
    if p.ProtocolA? then ToBytes(TypeCode(p, kind), 1) else ToBytes(TypeCode(p, kind), 4) + [1] + Zeros(7)
  }

  /** A message as bytes, under sequence number seqNo. */
  function Encode(p: Protocol, msg: Message, seqNo: uint64): (b: seq<byte>)
    requires |msg.words| == |Widths(p, msg.kind)|
    ensures |b| == SizeOf(p, msg.kind)
  {
    ToBytes(SizeOf(p, msg.kind), 4) + Middle(p, msg.kind) + ToBytes(seqNo, 8)
    + WriteFields(Widths(p, msg.kind), msg.words) + Zeros(Padding(p, msg.kind))
  }

  /** A structure laid over memory: its fields are read whatever the header says about the size. */
  function ReadStruct(p: Protocol, kind: Kind, memory: seq<byte>): Message
    requires FieldsEnd(p, kind) <= |memory|
  {
    Message(kind, ReadFields(Widths(p, kind), memory[HeaderLength(p)..]))
  }

  datatype Stamped = Stamped(msg: Message, seqNo: nat)

  /** What a receiver reads out of a frame, if its type is known and all its fields lie in the frame. */
  function Decode(p: Protocol, frame: Frame): Option<Stamped> {
    match KindOf(p, frame.msgType)
    case None => None
    case Some(kind) =>
      if |frame.bytes| < FieldsEnd(p, kind) then None
      else
        var h := HeaderLength(p);
        Some(Stamped(ReadStruct(p, kind, frame.bytes), FromBytes(frame.bytes[h - 8..h])))
  }

  lemma SizesFit(p: Protocol, kind: Kind)
    ensures HeaderLength(p) + 8 <= SizeOf(p, kind) <= 53
  {
    var widths := Widths(p, kind);
    assert Sum(widths) == widths[0] + Sum(widths[1..]);
    assert widths[1..][1..] == widths[2..];
    assert Sum(widths[1..]) == widths[1] + Sum(widths[2..]);
    SumBounded(widths[2..], if p.ProtocolA? then 8 else 4);
  }

  lemma {:induction false} SumBounded(widths: seq<nat>, w: nat)
    requires forall i :: 0 <= i < |widths| ==> widths[i] <= w
    ensures Sum(widths) <= |widths| * w
    decreases |widths|
  {
    if widths != [] {
      SumBounded(widths[1..], w);
    }
  }

  lemma Powers()
    ensures Power256(1) == 256 && Power256(4) == TWO32 && Power256(8) == TWO64
  {
    assert Power256(2) == 65536 && Power256(3) == 256 * Power256(2);
    assert Power256(5) == 256 * Power256(4) && Power256(6) == 256 * Power256(5);
    assert Power256(7) == 256 * Power256(6) && Power256(8) == 256 * Power256(7);
  }

  lemma KindRoundTrip(p: Protocol, kind: Kind)
    ensures KindOf(p, TypeCode(p, kind)) == Some(kind)
  {
  }

  lemma PartsOfFive(a: seq<byte>, b: seq<byte>, c: seq<byte>, d: seq<byte>, e: seq<byte>)
    ensures var all := a + b + c + d + e;
            && all[..|a|] == a && all[|a|..|a| + |b|] == b
            && all[|a| + |b|..|a| + |b| + |c|] == c && all[|a| + |b| + |c|..] == d + e
  {
    var all := a + b + c + d + e;
    assert all == a + (b + c + d + e);
    assert all == (a + b) + (c + d + e);
    assert all == (a + b + c) + (d + e);
  }

  /** Where the parts of an encoded message lie. */
  lemma EncodedParts(p: Protocol, msg: Message, seqNo: uint64)
    requires |msg.words| == |Widths(p, msg.kind)|
    ensures var b, h := Encode(p, msg, seqNo), HeaderLength(p);
            && b[..4] == ToBytes(SizeOf(p, msg.kind), 4)
            && b[4..h - 8] == Middle(p, msg.kind)
            && b[h - 8..h] == ToBytes(seqNo, 8)
            && b[h..] == WriteFields(Widths(p, msg.kind), msg.words) + Zeros(Padding(p, msg.kind))
  {
    PartsOfFive(ToBytes(SizeOf(p, msg.kind), 4), Middle(p, msg.kind), ToBytes(seqNo, 8),
                WriteFields(Widths(p, msg.kind), msg.words), Zeros(Padding(p, msg.kind)));
  }

  lemma TypeOfMiddle(p: Protocol, msg: Message, seqNo: uint64)
    requires |msg.words| == |Widths(p, msg.kind)|
    ensures HeaderLength(p) <= |Encode(p, msg, seqNo)|
    ensures TypeField(p, Encode(p, msg, seqNo)) == TypeCode(p, msg.kind)
  {
    var b := Encode(p, msg, seqNo);
    EncodedParts(p, msg, seqNo);
    if p.ProtocolA? {
      assert b[4] == b[4..5][0] == Digit(TypeCode(p, msg.kind), 0);
    } else {
      Powers();
      var code := ToBytes(TypeCode(p, msg.kind), 4);
      assert b[4..8] == b[4..16][..4] && Middle(p, msg.kind)[..4] == code;
      WordIsLittleEndian(b, 4);
      FromToBytes(TypeCode(p, msg.kind), 4);
    }
  }

  lemma SizeOfEncoded(p: Protocol, msg: Message, seqNo: uint64)
    requires |msg.words| == |Widths(p, msg.kind)|
    ensures var b := Encode(p, msg, seqNo); 4 <= |b| == SizeField(b)
  {
    var b := Encode(p, msg, seqNo);
    EncodedParts(p, msg, seqNo);
    Powers();
    SizesFit(p, msg.kind);
    FromToBytes(SizeOf(p, msg.kind), 4);
    WordIsLittleEndian(b, 0);
  }

  /** An encoded message is one frame that decodes to itself. */
  lemma EncodedFrame(p: Protocol, msg: Message, seqNo: uint64)
    requires ValidMessage(p, msg)
    ensures var b := Encode(p, msg, seqNo);
            && Consumes(p, b) && SizeField(b) == |b| && Head(p, b) == Frame(TypeCode(p, msg.kind), b)
            && Decode(p, Head(p, b)) == Some(Stamped(msg, seqNo))
  {
    var b := Encode(p, msg, seqNo);
    SizesFit(p, msg.kind);
    SizeOfEncoded(p, msg, seqNo);
    TypeOfMiddle(p, msg, seqNo);
    KindRoundTrip(p, msg.kind);
    EncodedParts(p, msg, seqNo);
    Powers();
    FromToBytes(seqNo, 8);
    ReadWritten(Widths(p, msg.kind), msg.words, Zeros(Padding(p, msg.kind)));
  }

  lemma WholeFrameFirst(p: Protocol, b: seq<byte>, rest: seq<byte>)
    requires Consumes(p, b) && SizeField(b) == |b|
    ensures Frames(p, b + rest) == [Head(p, b)] + Frames(p, rest)
    ensures Residue(p, b + rest) == Residue(p, rest)
  {
    HeadStays(p, b, rest);
    assert (b + rest)[|b|..] == rest;
  }

  /** The receiver cuts an encoded message off as one frame and decodes it back, whatever follows. */
  lemma EncodeDecode(p: Protocol, msg: Message, seqNo: uint64, rest: seq<byte>)
    requires ValidMessage(p, msg)
    ensures var b := Encode(p, msg, seqNo);
            && Consumes(p, b) && Head(p, b) == Frame(TypeCode(p, msg.kind), b)
            && Decode(p, Head(p, b)) == Some(Stamped(msg, seqNo))
            && Frames(p, b + rest) == [Head(p, b)] + Frames(p, rest)
            && Residue(p, b + rest) == Residue(p, rest)
  {
    EncodedFrame(p, msg, seqNo);
    WholeFrameFirst(p, Encode(p, msg, seqNo), rest);
  }

  // ---------- Streams ----------

  /** The next sequence number: `++` on an unsigned 64-bit counter. */
  function NextSequence(seqNo: uint64): uint64 {
    (seqNo + 1) % TWO64
  }

  /** Messages with consecutive sequence numbers, the first one after `last`. */
  function Stamp(last: uint64, msgs: seq<Message>): seq<Stamped>
    decreases |msgs|
  {
    if msgs == [] then []
    else [Stamped(msgs[0], NextSequence(last))] + Stamp(NextSequence(last), msgs[1..])
  }

  ghost predicate ValidMessages(p: Protocol, msgs: seq<Message>) {
    forall i :: 0 <= i < |msgs| ==> ValidMessage(p, msgs[i])
  }

  predicate Shaped(p: Protocol, msgs: seq<Message>) {
    forall i :: 0 <= i < |msgs| ==> |msgs[i].words| == |Widths(p, msgs[i].kind)|
  }

  function EncodeAll(p: Protocol, last: uint64, msgs: seq<Message>): seq<byte>
    requires Shaped(p, msgs)
    decreases |msgs|
  {
    if msgs == [] then []
    else Encode(p, msgs[0], NextSequence(last)) + EncodeAll(p, NextSequence(last), msgs[1..])
  }

  /** What a receiver reads out of frames, unreadable ones dropped. */
  function DecodeAll(p: Protocol, frames: seq<Frame>): seq<Stamped> {
    if frames == [] then []
    else
      (match Decode(p, frames[0])
       case Some(stamped) => [stamped]
       case None => []) + DecodeAll(p, frames[1..])
  }

  lemma DecodeFirst(p: Protocol, head: Frame, later: seq<Frame>, stamped: Stamped)
    requires Decode(p, head) == Some(stamped)
    ensures DecodeAll(p, [head] + later) == [stamped] + DecodeAll(p, later)
  {
    assert ([head] + later)[1..] == later;
  }

  /** A good stream stays good with one more encoded message in front. */
  lemma GoodFirst(p: Protocol, msg: Message, seqNo: uint64, rest: seq<byte>)
    requires ValidMessage(p, msg) && GoodStream(p, rest)
    ensures GoodStream(p, Encode(p, msg, seqNo) + rest)
  {
    EncodeDecode(p, msg, seqNo, rest);
    SizesFit(p, msg.kind);
  }

  /** An encoded stream parses into exactly its messages, in order, under consecutive numbers. */
  lemma {:induction false} StreamRoundTrip(p: Protocol, last: uint64, msgs: seq<Message>)
    requires ValidMessages(p, msgs)
    ensures DecodeAll(p, Frames(p, EncodeAll(p, last, msgs))) == Stamp(last, msgs)
    ensures GoodStream(p, EncodeAll(p, last, msgs))
    decreases |msgs|
  {
    if msgs != [] {
      var next := NextSequence(last);
      var rest := EncodeAll(p, next, msgs[1..]);
      StreamRoundTrip(p, next, msgs[1..]);
      EncodeDecode(p, msgs[0], next, rest);
      GoodFirst(p, msgs[0], next, rest);
      DecodeFirst(p, Head(p, Encode(p, msgs[0], next)), Frames(p, rest), Stamped(msgs[0], next));
    }
  }

  /**
   * Delivery: however the transport splits the stream of an endpoint's messages into reads, the
   * peer dispatches exactly these messages, in order and once each, and keeps nothing back; and
   * no prefix of the reads ever fills its buffer.
   */
  lemma StreamDelivery(p: Protocol, last: uint64, msgs: seq<Message>, chunks: seq<seq<byte>>)
    requires ValidMessages(p, msgs)
    requires Concat(chunks) == EncodeAll(p, last, msgs)
    ensures DecodeAll(p, DispatchedBy(p, [], chunks)) == Stamp(last, msgs)
    ensures ResidueAfter(p, [], chunks) == []
    ensures forall n :: 0 <= n <= |chunks| ==> |ResidueAfter(p, [], chunks[..n])| < CAPACITY
  {
    StreamRoundTrip(p, last, msgs);
    BoundariesIndependent(p, chunks, chunks);
    assert [] + Concat(chunks) == Concat(chunks);
    ReadsRefineParse(p, [], chunks);
    RoomAtEveryRead(p, chunks);
  }

  lemma RoomAtEveryRead(p: Protocol, chunks: seq<seq<byte>>)
    requires GoodStream(p, Concat(chunks))
    ensures forall n :: 0 <= n <= |chunks| ==> |ResidueAfter(p, [], chunks[..n])| < CAPACITY
  {
    forall n | 0 <= n <= |chunks|
      ensures |ResidueAfter(p, [], chunks[..n])| < CAPACITY
    {
      ConcatSplits(chunks, n);
      GoodStreamLeavesRoom(p, chunks[..n], Concat(chunks[n..]));
    }
  }

  lemma {:induction false} ConcatSplits(chunks: seq<seq<byte>>, n: nat)
    requires n <= |chunks|
    ensures Concat(chunks) == Concat(chunks[..n]) + Concat(chunks[n..])
    decreases n
  {
    if n != 0 {
      assert chunks[..n][1..] == chunks[1..][..n - 1] && chunks[n..] == chunks[1..][n - 1..];
      ConcatSplits(chunks[1..], n - 1);
    }
  }

  /** Sequence number reached after n more messages. */
  function SequenceAfter(last: uint64, n: nat): uint64 {
    (last + n) % TWO64
  }

  lemma SequenceAdds(last: uint64, n: nat)
    ensures SequenceAfter(NextSequence(last), n) == SequenceAfter(last, n + 1)
    ensures NextSequence(SequenceAfter(last, n)) == SequenceAfter(last, n + 1)
    ensures SequenceAfter(last, 0) == last
  {
    ModAdds(last + 1, n);
    ModAdds(last + n, 1);
  }

  lemma ModAdds(x: nat, y: nat)
    ensures (x % TWO64 + y) % TWO64 == (x + y) % TWO64
  {
  }

  /** Going on after a restart with the stored number is one uninterrupted numbering. */
  lemma {:induction false} StampAcrossRestart(last: uint64, before: seq<Message>, after: seq<Message>)
    ensures Stamp(last, before + after) == Stamp(last, before) + Stamp(SequenceAfter(last, |before|), after)
    decreases |before|
  {
    SequenceAdds(last, |before|);
    if before == [] {
      assert before + after == after;
    } else {
      assert (before + after)[1..] == before[1..] + after;
      SequenceAdds(last, |before| - 1);
      StampAcrossRestart(NextSequence(last), before[1..], after);
    }
  }

  lemma {:induction false} EncodeAcrossRestart(p: Protocol, last: uint64, before: seq<Message>, after: seq<Message>)
    requires Shaped(p, before) && Shaped(p, after) && Shaped(p, before + after)
    ensures EncodeAll(p, last, before + after) ==
            EncodeAll(p, last, before) + EncodeAll(p, SequenceAfter(last, |before|), after)
    decreases |before|
  {
    if before == [] {
      SequenceAdds(last, 0);
      assert before + after == after;
    } else {
      var next, all := NextSequence(last), before + after;
      assert all[0] == before[0] && all[1..] == before[1..] + after;
      EncodeAcrossRestart(p, next, before[1..], after);
      SequenceAdds(last, |before| - 1);
      EncodeFirst(p, last, all);
      EncodeFirst(p, last, before);
      Associate(EncodeAll(p, last, [before[0]]), EncodeAll(p, next, before[1..]),
                  EncodeAll(p, SequenceAfter(last, |before|), after));
    }
  }

  lemma EncodeFirst(p: Protocol, last: uint64, msgs: seq<Message>)
    requires Shaped(p, msgs) && msgs != []
    ensures EncodeAll(p, last, msgs) == EncodeAll(p, last, [msgs[0]]) + EncodeAll(p, NextSequence(last), msgs[1..])
  {
    assert [msgs[0]][1..] == [];
  }

  /** One more message adds its encoding, under the number after the last one. */
  lemma AppendEncoding(p: Protocol, last: uint64, msgs: seq<Message>, msg: Message)
    requires Shaped(p, msgs) && |msg.words| == |Widths(p, msg.kind)|
    ensures NextSequence(SequenceAfter(last, |msgs|)) == SequenceAfter(last, |msgs + [msg]|)
    ensures EncodeAll(p, last, msgs + [msg]) ==
            EncodeAll(p, last, msgs) + Encode(p, msg, SequenceAfter(last, |msgs + [msg]|))
  {
    var next := SequenceAfter(last, |msgs|);
    SequenceAdds(last, |msgs|);
    EncodeAcrossRestart(p, last, msgs, [msg]);
    assert [msg][1..] == [];
    assert EncodeAll(p, next, [msg]) == Encode(p, msg, NextSequence(next)) + [];
  }

  /** The i-th message of a stream carries number last + i + 1, modulo 2^64. */
  lemma {:induction false} ConsecutiveNumbers(last: uint64, msgs: seq<Message>, i: nat)
    requires i < |msgs|
    ensures |Stamp(last, msgs)| == |msgs|
    ensures Stamp(last, msgs)[i] == Stamped(msgs[i], SequenceAfter(last, i + 1))
    decreases |msgs|
  {
    SequenceAdds(last, i);
    SequenceAdds(last, 0);
    if |msgs| > 1 {
      ConsecutiveNumbers(NextSequence(last), msgs[1..], if i == 0 then 0 else i - 1);
      if i > 0 {
        SequenceAdds(last, i);
      }
    }
  }

  // ---------- The application messages ----------

  /** A client request in protocol A's layout. */
  function RequestMessage(req: M.Request): Message {
    match req
    case NewOrderSingle(a, b, id) => Message(NewOrderSingle, [a, b, id])
    case CancelReplaceRequest(a, b, id, orig) => Message(CancelReplaceRequest, [a, b, id, orig])
    case CancelRequest(a, b, id, orig) => Message(CancelRequest, [a, b, id, orig])
  }

  /** The request that protocol A's dispatch hands to the session; other messages give none. */
  function RequestOf(msg: Message): seq<M.Request> {
    match msg.kind
    case NewOrderSingle =>
      if |msg.words| == 3 && IsUint32(msg.words[..2]) && msg.words[2] < TWO64
      then [M.NewOrderSingle(msg.words[0], msg.words[1], msg.words[2])] else []
    case CancelReplaceRequest =>
      if |msg.words| == 4 && IsUint32(msg.words[..2]) && msg.words[2] < TWO64 && msg.words[3] < TWO64
      then [M.CancelReplaceRequest(msg.words[0], msg.words[1], msg.words[2], msg.words[3])] else []
    case CancelRequest =>
      if |msg.words| == 4 && IsUint32(msg.words[..2]) && msg.words[2] < TWO64 && msg.words[3] < TWO64
      then [M.CancelRequest(msg.words[0], msg.words[1], msg.words[2], msg.words[3])] else []
    case _ => []
  }

  predicate IsUint32(words: seq<nat>) {
    forall i :: 0 <= i < |words| ==> words[i] < TWO32
  }

  /** A forwarded request in protocol B's layout: a cancel has o before c, a replace c before o. */
  function WireRequestMessage(msg: M.WireRequest): Message {
    var a, b, c := ToUint32(msg.a), ToUint32(msg.b), ToUint32(msg.c);
    match msg
    case WireNewOrderSingle(_, _, _) => Message(NewOrderSingle, [a, b, c])
    case WireCancelReplaceRequest(_, _, _, o) => Message(CancelReplaceRequest, [a, b, c, ToUint32(o)])
    case WireCancelRequest(_, _, _, o) => Message(CancelRequest, [a, b, ToUint32(o), c])
  }

  /** What a venue reads out of protocol B's layout. */
  function WireRequestOf(msg: Message): seq<M.WireRequest> {
    var w := msg.words;
    if !IsUint32(w) then []
    else
      match msg.kind
      case NewOrderSingle =>
        if |w| == 3 then [M.WireNewOrderSingle(Narrow(w[0]), Narrow(w[1]), Narrow(w[2]))] else []
      case CancelReplaceRequest =>
        if |w| == 4 then [M.WireCancelReplaceRequest(Narrow(w[0]), Narrow(w[1]), Narrow(w[2]), Narrow(w[3]))] else []
      case CancelRequest =>
        if |w| == 4 then [M.WireCancelRequest(Narrow(w[0]), Narrow(w[1]), Narrow(w[3]), Narrow(w[2]))] else []
      case _ => []
  }

  /** A venue's reply in protocol B's layout; fields o and e are zero here. */
  function WireReplyMessage(reply: M.WireReply): Message {
    var words := [ToUint32(reply.a), ToUint32(reply.b), ToUint32(reply.c), 0];
    match reply.kind
    case ExecutionReport => Message(ExecutionReport, words + [0])
    case CancelReject => Message(CancelReject, words)
  }

  /** The reply that protocol B's dispatch hands to the session. */
  function WireReplyOf(msg: Message): seq<M.WireReply> {
    var w := msg.words;
    if |w| < 4 || !IsUint32(w) then []
    else
      match msg.kind
      case ExecutionReport => [M.WireReply(M.ExecutionReport, Narrow(w[0]), Narrow(w[1]), Narrow(w[2]))]
      case CancelReject => [M.WireReply(M.CancelReject, Narrow(w[0]), Narrow(w[1]), Narrow(w[2]))]
      case _ => []
  }

  /** A message for a client in protocol A's layout; the ids that are never set are zero. */
  function ClientMessageMessage(msg: M.ClientMessage): Message {
    match msg.kind
    case ExecutionReport => Message(ExecutionReport, [msg.a, msg.b, msg.clOrdId, 0, 0, 0])
    case CancelReject => Message(CancelReject, [msg.a, msg.b, msg.clOrdId, 0])
  }

  /** What a client reads out of protocol A's layout. */
  function ClientMessageOf(msg: Message): seq<M.ClientMessage> {
    var w := msg.words;
    if |w| < 3 || !IsUint32(w[..2]) || TWO64 <= w[2] then []
    else
      match msg.kind
      case ExecutionReport => [M.ClientMessage(M.ExecutionReport, w[0], w[1], w[2])]
      case CancelReject => [M.ClientMessage(M.CancelReject, w[0], w[1], w[2])]
      case _ => []
  }

  function MapAll<T>(write: T -> Message, items: seq<T>): (msgs: seq<Message>)
    ensures |msgs| == |items|
    ensures forall i :: 0 <= i < |items| ==> msgs[i] == write(items[i])
  {
    if items == [] then [] else [write(items[0])] + MapAll(write, items[1..])
  }

  /** Everything that is read out of messages, in order; a message that is none of the wanted ones gives nothing. */
  function Gather<T>(parse: Message -> seq<T>, msgs: seq<Message>): seq<T> {
    if msgs == [] then [] else parse(msgs[0]) + Gather(parse, msgs[1..])
  }

  function MessagesOf(stamped: seq<Stamped>): (msgs: seq<Message>)
    ensures |msgs| == |stamped|
    ensures forall i :: 0 <= i < |msgs| ==> msgs[i] == stamped[i].msg
  {
    seq(|stamped|, i requires 0 <= i < |stamped| => stamped[i].msg)
  }

  lemma {:induction false} MessagesStamped(last: uint64, msgs: seq<Message>)
    ensures MessagesOf(Stamp(last, msgs)) == msgs
    decreases |msgs|
  {
    if msgs != [] {
      MessagesStamped(NextSequence(last), msgs[1..]);
      assert MessagesOf(Stamp(last, msgs))[1..] == MessagesOf(Stamp(NextSequence(last), msgs[1..]));
    }
  }

  /** Reading undoes writing, and everything written has its type's layout. */
  ghost predicate Layout<T(!new)>(p: Protocol, write: T -> Message, read: Message -> seq<T>) {
    forall item :: ValidMessage(p, write(item)) && read(write(item)) == [item]
  }

  lemma {:induction false} GatherWritten<T(!new)>(p: Protocol, items: seq<T>, write: T -> Message,
                                                  read: Message -> seq<T>)
    requires Layout(p, write, read)
    ensures Gather(read, MapAll(write, items)) == items
    decreases |items|
  {
    if items != [] {
      GatherWritten(p, items[1..], write, read);
      assert read(write(items[0])) == [items[0]];
      assert MapAll(write, items)[1..] == MapAll(write, items[1..]);
    }
  }

  /** Whatever is written in a protocol's layout arrives complete and in order, however it is split. */
  lemma Arrival<T(!new)>(p: Protocol, last: uint64, items: seq<T>, chunks: seq<seq<byte>>,
                         write: T -> Message, read: Message -> seq<T>)
    requires Layout(p, write, read)
    ensures Shaped(p, MapAll(write, items))
    ensures Concat(chunks) == EncodeAll(p, last, MapAll(write, items)) ==>
              Gather(read, MessagesOf(DecodeAll(p, DispatchedBy(p, [], chunks)))) == items
  {
    var msgs := MapAll(write, items);
    assert forall i :: 0 <= i < |items| ==> ValidMessage(p, write(items[i]));
    if Concat(chunks) == EncodeAll(p, last, msgs) {
      StreamDelivery(p, last, msgs, chunks);
      MessagesStamped(last, msgs);
      GatherWritten(p, items, write, read);
    }
  }

  lemma SignedRoundTrip(c: int32)
    ensures Narrow(ToUint32(c)) == c
  {
  }

  lemma RequestLayout()
    ensures Layout(ProtocolA, RequestMessage, RequestOf)
  {
    forall req: M.Request
      ensures ValidMessage(ProtocolA, RequestMessage(req)) && RequestOf(RequestMessage(req)) == [req]
    {
      Powers();
    }
  }

  lemma WireRequestLayout()
    ensures Layout(ProtocolB, WireRequestMessage, WireRequestOf)
  {
    forall msg: M.WireRequest
      ensures ValidMessage(ProtocolB, WireRequestMessage(msg)) && WireRequestOf(WireRequestMessage(msg)) == [msg]
    {
      Powers();
      SignedRoundTrip(msg.a);
      SignedRoundTrip(msg.b);
      SignedRoundTrip(msg.c);
      if !msg.WireNewOrderSingle? {
        SignedRoundTrip(msg.o);
      }
    }
  }

  lemma WireReplyLayout()
    ensures Layout(ProtocolB, WireReplyMessage, WireReplyOf)
  {
    forall reply: M.WireReply
      ensures ValidMessage(ProtocolB, WireReplyMessage(reply)) && WireReplyOf(WireReplyMessage(reply)) == [reply]
    {
      Powers();
      SignedRoundTrip(reply.a);
      SignedRoundTrip(reply.b);
      SignedRoundTrip(reply.c);
    }
  }

  lemma ClientMessageLayout()
    ensures Layout(ProtocolA, ClientMessageMessage, ClientMessageOf)
  {
    forall msg: M.ClientMessage
      ensures ValidMessage(ProtocolA, ClientMessageMessage(msg)) && ClientMessageOf(ClientMessageMessage(msg)) == [msg]
    {
      Powers();
      assert ClientMessageMessage(msg).words[..2] == [msg.a, msg.b];
    }
  }

  /** From client to session: the source session receives exactly the requests its client encoded. */
  lemma RequestsArrive(last: uint64, reqs: seq<M.Request>, chunks: seq<seq<byte>>)
    ensures Shaped(ProtocolA, MapAll(RequestMessage, reqs))
    ensures Concat(chunks) == EncodeAll(ProtocolA, last, MapAll(RequestMessage, reqs)) ==>
              Gather(RequestOf, MessagesOf(DecodeAll(ProtocolA, DispatchedBy(ProtocolA, [], chunks)))) == reqs
  {
    RequestLayout();
    Arrival(ProtocolA, last, reqs, chunks, RequestMessage, RequestOf);
  }

  /** From session to venue: exactly the forwarded requests, each field in its place. */
  lemma ForwardsArrive(last: uint64, msgs: seq<M.WireRequest>, chunks: seq<seq<byte>>)
    ensures Shaped(ProtocolB, MapAll(WireRequestMessage, msgs))
    ensures Concat(chunks) == EncodeAll(ProtocolB, last, MapAll(WireRequestMessage, msgs)) ==>
              Gather(WireRequestOf, MessagesOf(DecodeAll(ProtocolB, DispatchedBy(ProtocolB, [], chunks)))) == msgs
  {
    WireRequestLayout();
    Arrival(ProtocolB, last, msgs, chunks, WireRequestMessage, WireRequestOf);
  }

  /** From venue to session: exactly the replies sent. */
  lemma RepliesArrive(last: uint64, replies: seq<M.WireReply>, chunks: seq<seq<byte>>)
    ensures Shaped(ProtocolB, MapAll(WireReplyMessage, replies))
    ensures Concat(chunks) == EncodeAll(ProtocolB, last, MapAll(WireReplyMessage, replies)) ==>
              Gather(WireReplyOf, MessagesOf(DecodeAll(ProtocolB, DispatchedBy(ProtocolB, [], chunks)))) == replies
  {
    WireReplyLayout();
    Arrival(ProtocolB, last, replies, chunks, WireReplyMessage, WireReplyOf);
  }

  /** From session to client: exactly the messages handed to its transport. */
  lemma HandedArrive(last: uint64, msgs: seq<M.ClientMessage>, chunks: seq<seq<byte>>)
    ensures Shaped(ProtocolA, MapAll(ClientMessageMessage, msgs))
    ensures Concat(chunks) == EncodeAll(ProtocolA, last, MapAll(ClientMessageMessage, msgs)) ==>
              Gather(ClientMessageOf, MessagesOf(DecodeAll(ProtocolA, DispatchedBy(ProtocolA, [], chunks)))) == msgs
  {
    ClientMessageLayout();
    Arrival(ProtocolA, last, msgs, chunks, ClientMessageMessage, ClientMessageOf);
  }
}
