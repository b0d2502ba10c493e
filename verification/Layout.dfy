/**
 * The wire formats in numbers: sizes, type codes and the offset of every field, for what is sent and for
 * what is received. Nothing here is stated in terms of the tables that the codec works with.
 */
module Layout {
  import opened Types
  import opened Arithmetic
  import opened WireIds
  import opened Framing
  import opened Codec
  import opened Dispatch
  import M = Messages

  /** The four bytes from `at` on as an unsigned little-endian value. */
  function U32(b: seq<byte>, at: nat): uint32
    requires at + 4 <= |b|
  {
    b[at] as int + 0x100 * (b[at + 1] as int) + 0x1_0000 * (b[at + 2] as int) + 0x100_0000 * (b[at + 3] as int)
  }

  function U64(b: seq<byte>, at: nat): uint64
    requires at + 8 <= |b|
  {
    U32(b, at) + 0x1_0000_0000 * U32(b, at + 4)
  }

  /** The signed reading of an unsigned value, in two's complement. */
  function Signed(u: uint32): int32 {
    if u < 0x8000_0000 then u else u - 0x1_0000_0000
  }

  // ---------- Fields of a structure ----------

  lemma {:induction false} FromBytesOfSum(a: seq<byte>, b: seq<byte>)
    ensures FromBytes(a + b) == FromBytes(a) + Power256(|a|) * FromBytes(b)
    decreases |a|
  {
    if a == [] {
      assert a + b == b;
    } else {
      assert (a + b)[1..] == a[1..] + b;
      FromBytesOfSum(a[1..], b);
      assert 256 * (Power256(|a| - 1) * FromBytes(b)) == Power256(|a|) * FromBytes(b);
    }
  }

  lemma FourBytes(b: seq<byte>, at: nat)
    requires at + 4 <= |b|
    ensures FromBytes(b[at..at + 4]) == U32(b, at) == Word(b, at)
  {
    WordIsLittleEndian(b, at);
  }

  lemma EightBytes(b: seq<byte>, at: nat)
    requires at + 8 <= |b|
    ensures FromBytes(b[at..at + 8]) == U64(b, at)
  {
    assert b[at..at + 8] == b[at..at + 4] + b[at + 4..at + 8];
    FromBytesOfSum(b[at..at + 4], b[at + 4..at + 8]);
    FourBytes(b, at);
    FourBytes(b, at + 4);
    Powers();
  }

  lemma Field4(b: seq<byte>, at: nat, widths: seq<nat>)
    requires at + 4 + Sum(widths) <= |b|
    ensures Sum([4] + widths) == 4 + Sum(widths)
    ensures ReadFields([4] + widths, b[at..]) == [U32(b, at)] + ReadFields(widths, b[at + 4..])
  {
    FourBytes(b, at);
    FirstField(b, at, 4, widths);
  }

  lemma Field8(b: seq<byte>, at: nat, widths: seq<nat>)
    requires at + 8 + Sum(widths) <= |b|
    ensures Sum([8] + widths) == 8 + Sum(widths)
    ensures ReadFields([8] + widths, b[at..]) == [U64(b, at)] + ReadFields(widths, b[at + 8..])
  {
    EightBytes(b, at);
    FirstField(b, at, 8, widths);
  }

  lemma FirstField(b: seq<byte>, at: nat, width: nat, widths: seq<nat>)
    requires at + width + Sum(widths) <= |b|
    ensures Sum([width] + widths) == width + Sum(widths)
    ensures ReadFields([width] + widths, b[at..]) ==
            [FromBytes(b[at..at + width])] + ReadFields(widths, b[at + width..])
  {
    assert ([width] + widths)[1..] == widths;
    assert b[at..][..width] == b[at..at + width] && b[at..][width..] == b[at + width..];
  }

  lemma TwoWidths(p: Protocol, kind: Kind, more: seq<nat>)
    requires Widths(p, kind) == [4, 4] + more
    ensures FieldsEnd(p, kind) == HeaderLength(p) + 8 + Sum(more)
  {
    assert [4, 4] + more == [4] + ([4] + more);
    SumFirst(4, more);
    SumFirst(4, [4] + more);
  }

  lemma ReadTwo(b: seq<byte>, h: nat, more: seq<nat>)
    requires h + 8 + Sum(more) <= |b|
    ensures Sum([4, 4] + more) <= |b| - h
    ensures ReadFields([4, 4] + more, b[h..]) == [U32(b, h), U32(b, h + 4)] + ReadFields(more, b[h + 8..])
  {
    assert [4, 4] + more == [4] + ([4] + more);
    Field4(b, h + 4, more);
    Field4(b, h, [4] + more);
    Associate([U32(b, h)], [U32(b, h + 4)], ReadFields(more, b[h + 8..]));
  }

  /** Two fields of four bytes, and then others. */
  lemma TwoFields(p: Protocol, kind: Kind, b: seq<byte>, more: seq<nat>)
    requires Widths(p, kind) == [4, 4] + more
    ensures FieldsEnd(p, kind) == HeaderLength(p) + 8 + Sum(more)
    ensures FieldsEnd(p, kind) <= |b| ==>
              var h := HeaderLength(p);
              ReadStruct(p, kind, b).words == [U32(b, h), U32(b, h + 4)] + ReadFields(more, b[h + 8..])
  {
    TwoWidths(p, kind, more);
    if FieldsEnd(p, kind) <= |b| {
      ReadTwo(b, HeaderLength(p), more);
    }
  }

  lemma SumFirst(width: nat, widths: seq<nat>)
    ensures Sum([width] + widths) == width + Sum(widths)
  {
    assert ([width] + widths)[1..] == widths;
  }

  lemma OrderA(b: seq<byte>)
    ensures FieldsEnd(ProtocolA, NewOrderSingle) == 29
    ensures 29 <= |b| ==>
              ReadStruct(ProtocolA, NewOrderSingle, b).words == [U32(b, 13), U32(b, 17), U64(b, 21)]
  {
    Longs([8]);
    TwoFields(ProtocolA, NewOrderSingle, b, [8]);
    if 29 <= |b| {
      ReadLong(b, 21);
    }
  }

  /** Replaces, cancels and cancel rejects of protocol A. */
  lemma CancelA(kind: Kind, b: seq<byte>)
    requires kind.CancelReplaceRequest? || kind.CancelRequest? || kind.CancelReject?
    ensures FieldsEnd(ProtocolA, kind) == 37
    ensures 37 <= |b| ==>
              ReadStruct(ProtocolA, kind, b).words == [U32(b, 13), U32(b, 17), U64(b, 21), U64(b, 29)]
  {
    Longs([8, 8]);
    TwoFields(ProtocolA, kind, b, [8, 8]);
    if 37 <= |b| {
      ReadTwoLongs(b, 21);
    }
  }

  lemma ReportA(b: seq<byte>)
    ensures FieldsEnd(ProtocolA, ExecutionReport) == 53
    ensures 53 <= |b| ==>
              ReadStruct(ProtocolA, ExecutionReport, b).words ==
              [U32(b, 13), U32(b, 17), U64(b, 21), U64(b, 29), U64(b, 37), U64(b, 45)]
  {
    Longs([8, 8, 8, 8]);
    TwoFields(ProtocolA, ExecutionReport, b, [8, 8, 8, 8]);
    if 53 <= |b| {
      ReadFourLongs(b, 21);
    }
  }

  lemma Longs(longs: seq<nat>)
    requires longs == [] || longs == [8] || longs == [8, 8] || longs == [8, 8, 8, 8]
    ensures Sum(longs) == 8 * |longs|
  {
    if longs != [] {
      assert longs[1..] == [] || longs[1..] == [8] || longs[1..] == [8, 8, 8];
      assert [8, 8, 8][1..] == [8, 8] && [8, 8][1..] == [8] && [8][1..] == [];
      assert Sum([8]) == 8 && Sum([8, 8]) == 16 && Sum([8, 8, 8]) == 24;
    }
  }

  lemma ReadLong(b: seq<byte>, at: nat)
    requires at + 8 <= |b|
    ensures Sum([8]) == 8 && ReadFields([8], b[at..]) == [U64(b, at)]
  {
    Field8(b, at, []);
    assert [8] + [] == [8];
  }

  lemma ReadTwoLongs(b: seq<byte>, at: nat)
    requires at + 16 <= |b|
    ensures Sum([8, 8]) == 16 && ReadFields([8, 8], b[at..]) == [U64(b, at), U64(b, at + 8)]
  {
    ReadLong(b, at + 8);
    Field8(b, at, [8]);
    assert [8] + [8] == [8, 8];
  }

  lemma ReadFourLongs(b: seq<byte>, at: nat)
    requires at + 32 <= |b|
    ensures Sum([8, 8, 8, 8]) == 32
    ensures ReadFields([8, 8, 8, 8], b[at..]) == [U64(b, at), U64(b, at + 8), U64(b, at + 16), U64(b, at + 24)]
  {
    ReadTwoLongs(b, at + 16);
    Field8(b, at + 8, [8, 8]);
    assert [8] + [8, 8] == [8, 8, 8];
    Field8(b, at, [8, 8, 8]);
    assert [8] + [8, 8, 8] == [8, 8, 8, 8];
  }

  lemma OrderB(b: seq<byte>)
    ensures FieldsEnd(ProtocolB, NewOrderSingle) == 36
    ensures 36 <= |b| ==>
              ReadStruct(ProtocolB, NewOrderSingle, b).words == [U32(b, 24), U32(b, 28), U32(b, 32)]
  {
    Ints([4]);
    TwoFields(ProtocolB, NewOrderSingle, b, [4]);
    if 36 <= |b| {
      ReadInt(b, 32);
    }
  }

  /** Replaces, cancels and cancel rejects of protocol B. */
  lemma CancelB(kind: Kind, b: seq<byte>)
    requires kind.CancelReplaceRequest? || kind.CancelRequest? || kind.CancelReject?
    ensures FieldsEnd(ProtocolB, kind) == 40
    ensures 40 <= |b| ==>
              ReadStruct(ProtocolB, kind, b).words == [U32(b, 24), U32(b, 28), U32(b, 32), U32(b, 36)]
  {
    Ints([4, 4]);
    TwoFields(ProtocolB, kind, b, [4, 4]);
    if 40 <= |b| {
      ReadTwoInts(b, 32);
    }
  }

  lemma ReportB(b: seq<byte>)
    ensures FieldsEnd(ProtocolB, ExecutionReport) == 44
    ensures 44 <= |b| ==>
              ReadStruct(ProtocolB, ExecutionReport, b).words ==
              [U32(b, 24), U32(b, 28), U32(b, 32), U32(b, 36), U32(b, 40)]
  {
    Ints([4, 4, 4]);
    TwoFields(ProtocolB, ExecutionReport, b, [4, 4, 4]);
    if 44 <= |b| {
      ReadThreeInts(b, 32);
    }
  }

  lemma Ints(ints: seq<nat>)
    requires ints == [] || ints == [4] || ints == [4, 4] || ints == [4, 4, 4]
    ensures Sum(ints) == 4 * |ints|
  {
    assert [4, 4, 4][1..] == [4, 4] && [4, 4][1..] == [4] && [4][1..] == [];
    assert Sum([4]) == 4 && Sum([4, 4]) == 8 && Sum([4, 4, 4]) == 12;
  }

  lemma ReadInt(b: seq<byte>, at: nat)
    requires at + 4 <= |b|
    ensures Sum([4]) == 4 && ReadFields([4], b[at..]) == [U32(b, at)]
  {
    Field4(b, at, []);
    assert [4] + [] == [4];
  }

  lemma ReadTwoInts(b: seq<byte>, at: nat)
    requires at + 8 <= |b|
    ensures Sum([4, 4]) == 8 && ReadFields([4, 4], b[at..]) == [U32(b, at), U32(b, at + 4)]
  {
    ReadInt(b, at + 4);
    Field4(b, at, [4]);
    assert [4] + [4] == [4, 4];
  }

  lemma ReadThreeInts(b: seq<byte>, at: nat)
    requires at + 12 <= |b|
    ensures Sum([4, 4, 4]) == 12 && ReadFields([4, 4, 4], b[at..]) == [U32(b, at), U32(b, at + 4), U32(b, at + 8)]
  {
    ReadTwoInts(b, at + 4);
    Field4(b, at, [4, 4]);
    assert [4] + [4, 4] == [4, 4, 4];
  }

  // ---------- What is sent ----------

  /** Protocol A's packed header: size, type in one byte, sequence number. */
  predicate HeaderA(b: seq<byte>, size: nat, code: nat, seqNo: uint64) {
    |b| == size && 13 <= size && U32(b, 0) == size && b[4] == code && U64(b, 5) == seqNo
  }

  /** Protocol B's header, aligned: size, type in four bytes, version 1, sequence number. */
  predicate HeaderB(b: seq<byte>, size: nat, code: nat, seqNo: uint64) {
    |b| == size && 24 <= size && U32(b, 0) == size && U32(b, 4) == code && b[8] == 1 && U64(b, 16) == seqNo
  }

  lemma SequenceBytes(p: Protocol, msg: Message, seqNo: uint64)
    requires |msg.words| == |Widths(p, msg.kind)|
    ensures var b, h := Encode(p, msg, seqNo), HeaderLength(p); h <= |b| && U64(b, h - 8) == seqNo
  {
    var b, h := Encode(p, msg, seqNo), HeaderLength(p);
    SizesFit(p, msg.kind);
    EncodedParts(p, msg, seqNo);
    Powers();
    FromToBytes(seqNo, 8);
    EightBytes(b, h - 8);
  }

  lemma VersionByte(msg: Message, seqNo: uint64)
    requires |msg.words| == |Widths(ProtocolB, msg.kind)|
    ensures 16 <= |Encode(ProtocolB, msg, seqNo)| && Encode(ProtocolB, msg, seqNo)[8] == 1
  {
    var b := Encode(ProtocolB, msg, seqNo);
    SizesFit(ProtocolB, msg.kind);
    EncodedParts(ProtocolB, msg, seqNo);
    assert b[8] == b[4..16][4] && Middle(ProtocolB, msg.kind)[4] == 1;
  }

  /** An encoded message is its structure: the fields are read back from where they stand. */
  lemma EncodedStruct(p: Protocol, msg: Message, seqNo: uint64)
    requires ValidMessage(p, msg)
    ensures var b := Encode(p, msg, seqNo); FieldsEnd(p, msg.kind) <= |b| && ReadStruct(p, msg.kind, b) == msg
  {
    EncodedFrame(p, msg, seqNo);
    KindRoundTrip(p, msg.kind);
  }

  lemma EncodedHeaderA(msg: Message, seqNo: uint64)
    requires ValidMessage(ProtocolA, msg)
    ensures HeaderA(Encode(ProtocolA, msg, seqNo), SizeOf(ProtocolA, msg.kind), TypeCode(ProtocolA, msg.kind), seqNo)
  {
    SizeOfEncoded(ProtocolA, msg, seqNo);
    TypeOfMiddle(ProtocolA, msg, seqNo);
    SequenceBytes(ProtocolA, msg, seqNo);
    FourBytes(Encode(ProtocolA, msg, seqNo), 0);
  }

  lemma EncodedHeaderB(msg: Message, seqNo: uint64)
    requires ValidMessage(ProtocolB, msg)
    ensures HeaderB(Encode(ProtocolB, msg, seqNo), SizeOf(ProtocolB, msg.kind), TypeCode(ProtocolB, msg.kind), seqNo)
  {
    SizeOfEncoded(ProtocolB, msg, seqNo);
    TypeOfMiddle(ProtocolB, msg, seqNo);
    SequenceBytes(ProtocolB, msg, seqNo);
    VersionByte(msg, seqNo);
    FourBytes(Encode(ProtocolB, msg, seqNo), 0);
    FourBytes(Encode(ProtocolB, msg, seqNo), 4);
  }

  lemma OrderBytes(a: uint32, x: uint32, id: uint64, seqNo: uint64)
    requires ValidMessage(ProtocolA, Message(NewOrderSingle, [a, x, id]))
    ensures var b := Encode(ProtocolA, Message(NewOrderSingle, [a, x, id]), seqNo);
            HeaderA(b, 29, 3, seqNo) && U32(b, 13) == a && U32(b, 17) == x && U64(b, 21) == id
  {
    var msg := Message(NewOrderSingle, [a, x, id]);
    EncodedHeaderA(msg, seqNo);
    EncodedStruct(ProtocolA, msg, seqNo);
    OrderA(Encode(ProtocolA, msg, seqNo));
  }

  lemma CancelBytes(kind: Kind, a: uint32, x: uint32, id: uint64, other: uint64, seqNo: uint64)
    requires kind.CancelReplaceRequest? || kind.CancelRequest? || kind.CancelReject?
    requires ValidMessage(ProtocolA, Message(kind, [a, x, id, other]))
    ensures var b := Encode(ProtocolA, Message(kind, [a, x, id, other]), seqNo);
            && HeaderA(b, 37, if kind.CancelReplaceRequest? then 4 else if kind.CancelRequest? then 5 else 7, seqNo)
            && U32(b, 13) == a && U32(b, 17) == x && U64(b, 21) == id && U64(b, 29) == other
  {
    var msg := Message(kind, [a, x, id, other]);
    CancelSizeA(kind);
    EncodedHeaderA(msg, seqNo);
    CancelFieldsA(msg, seqNo);
    assert msg.words[0] == a && msg.words[1] == x && msg.words[2] == id && msg.words[3] == other;
  }

  lemma CancelSizeA(kind: Kind)
    requires kind.CancelReplaceRequest? || kind.CancelRequest? || kind.CancelReject?
    ensures SizeOf(ProtocolA, kind) == 37
  {
    Longs([8, 8]);
    TwoWidths(ProtocolA, kind, [8, 8]);
  }

  lemma CancelFieldsA(msg: Message, seqNo: uint64)
    requires msg.kind.CancelReplaceRequest? || msg.kind.CancelRequest? || msg.kind.CancelReject?
    requires ValidMessage(ProtocolA, msg)
    ensures var b := Encode(ProtocolA, msg, seqNo);
            37 <= |b| && msg.words == [U32(b, 13), U32(b, 17), U64(b, 21), U64(b, 29)]
  {
    EncodedStruct(ProtocolA, msg, seqNo);
    CancelA(msg.kind, Encode(ProtocolA, msg, seqNo));
  }

  /** A client's requests: types 3, 4 and 5. */
  lemma RequestBytes(req: M.Request, seqNo: uint64)
    ensures ValidMessage(ProtocolA, RequestMessage(req))
    ensures var b := Encode(ProtocolA, RequestMessage(req), seqNo);
            match req
            case NewOrderSingle(a, x, id) =>
              HeaderA(b, 29, 3, seqNo) && U32(b, 13) == a && U32(b, 17) == x && U64(b, 21) == id
            case CancelReplaceRequest(a, x, id, original) =>
              HeaderA(b, 37, 4, seqNo) && U32(b, 13) == a && U32(b, 17) == x && U64(b, 21) == id
              && U64(b, 29) == original
            case CancelRequest(a, x, id, original) =>
              HeaderA(b, 37, 5, seqNo) && U32(b, 13) == a && U32(b, 17) == x && U64(b, 21) == id
              && U64(b, 29) == original
  {
    RequestLayout();
    assert ValidMessage(ProtocolA, RequestMessage(req));
    match req
    case NewOrderSingle(a, x, id) => OrderBytes(a, x, id, seqNo);
    case CancelReplaceRequest(a, x, id, original) => CancelBytes(CancelReplaceRequest, a, x, id, original, seqNo);
    case CancelRequest(a, x, id, original) => CancelBytes(CancelRequest, a, x, id, original, seqNo);
  }

  /** Messages for a client: types 6 and 7; what is never set is zero. */
  lemma ClientMessageBytes(msg: M.ClientMessage, seqNo: uint64)
    ensures ValidMessage(ProtocolA, ClientMessageMessage(msg))
    ensures var b := Encode(ProtocolA, ClientMessageMessage(msg), seqNo);
            match msg.kind
            case ExecutionReport =>
              HeaderA(b, 53, 6, seqNo) && U32(b, 13) == msg.a && U32(b, 17) == msg.b && U64(b, 21) == msg.clOrdId
              && U64(b, 29) == 0 && U64(b, 37) == 0 && U64(b, 45) == 0
            case CancelReject =>
              HeaderA(b, 37, 7, seqNo) && U32(b, 13) == msg.a && U32(b, 17) == msg.b && U64(b, 21) == msg.clOrdId
              && U64(b, 29) == 0
  {
    var m := ClientMessageMessage(msg);
    ClientMessageLayout();
    assert ValidMessage(ProtocolA, ClientMessageMessage(msg));
    EncodedHeaderA(m, seqNo);
    EncodedStruct(ProtocolA, m, seqNo);
    var b := Encode(ProtocolA, m, seqNo);
    if m.kind.ExecutionReport? {
      ReportA(b);
    } else {
      CancelA(CancelReject, b);
    }
  }

  lemma SignedFields(c: int32)
    ensures Signed(ToUint32(c)) == c
  {
  }

  lemma WireOrderBytes(a: int32, x: int32, c: int32, seqNo: uint64)
    requires ValidMessage(ProtocolB, Message(NewOrderSingle, [ToUint32(a), ToUint32(x), ToUint32(c)]))
    ensures var b := Encode(ProtocolB, Message(NewOrderSingle, [ToUint32(a), ToUint32(x), ToUint32(c)]), seqNo);
            && HeaderB(b, 40, 13, seqNo)
            && Signed(U32(b, 24)) == a && Signed(U32(b, 28)) == x && Signed(U32(b, 32)) == c
  {
    var msg := Message(NewOrderSingle, [ToUint32(a), ToUint32(x), ToUint32(c)]);
    EncodedHeaderB(msg, seqNo);
    EncodedStruct(ProtocolB, msg, seqNo);
    OrderB(Encode(ProtocolB, msg, seqNo));
    SignedFields(a);
    SignedFields(x);
    SignedFields(c);
  }

  lemma CancelSizeB(kind: Kind)
    requires kind.CancelReplaceRequest? || kind.CancelRequest? || kind.CancelReject?
    ensures SizeOf(ProtocolB, kind) == 40
  {
    Ints([4, 4]);
    TwoWidths(ProtocolB, kind, [4, 4]);
  }

  lemma CancelFieldsB(msg: Message, seqNo: uint64)
    requires msg.kind.CancelReplaceRequest? || msg.kind.CancelRequest? || msg.kind.CancelReject?
    requires ValidMessage(ProtocolB, msg)
    ensures var b := Encode(ProtocolB, msg, seqNo);
            40 <= |b| && msg.words == [U32(b, 24), U32(b, 28), U32(b, 32), U32(b, 36)]
  {
    EncodedStruct(ProtocolB, msg, seqNo);
    CancelB(msg.kind, Encode(ProtocolB, msg, seqNo));
  }

  lemma WireCancelBytes(kind: Kind, a: int32, x: int32, y: int32, z: int32, seqNo: uint64)
    requires kind.CancelReplaceRequest? || kind.CancelRequest?
    requires ValidMessage(ProtocolB, Message(kind, [ToUint32(a), ToUint32(x), ToUint32(y), ToUint32(z)]))
    ensures var b := Encode(ProtocolB, Message(kind, [ToUint32(a), ToUint32(x), ToUint32(y), ToUint32(z)]), seqNo);
            && HeaderB(b, 40, if kind.CancelReplaceRequest? then 14 else 15, seqNo)
            && Signed(U32(b, 24)) == a && Signed(U32(b, 28)) == x && Signed(U32(b, 32)) == y && Signed(U32(b, 36)) == z
  {
    var msg := Message(kind, [ToUint32(a), ToUint32(x), ToUint32(y), ToUint32(z)]);
    CancelSizeB(kind);
    EncodedHeaderB(msg, seqNo);
    CancelFieldsB(msg, seqNo);
    assert msg.words[0] == ToUint32(a) && msg.words[1] == ToUint32(x);
    assert msg.words[2] == ToUint32(y) && msg.words[3] == ToUint32(z);
    SignedFields(a);
    SignedFields(x);
    SignedFields(y);
    SignedFields(z);
  }

  /** Forwarded requests: types 13, 14 and 15. A replace has c before o, a cancel o before c. */
  lemma WireRequestBytes(req: M.WireRequest, seqNo: uint64)
    ensures ValidMessage(ProtocolB, WireRequestMessage(req))
    ensures var b := Encode(ProtocolB, WireRequestMessage(req), seqNo);
            match req
            case WireNewOrderSingle(a, x, c) =>
              HeaderB(b, 40, 13, seqNo) && Signed(U32(b, 24)) == a && Signed(U32(b, 28)) == x && Signed(U32(b, 32)) == c
            case WireCancelReplaceRequest(a, x, c, o) =>
              HeaderB(b, 40, 14, seqNo) && Signed(U32(b, 24)) == a && Signed(U32(b, 28)) == x && Signed(U32(b, 32)) == c
              && Signed(U32(b, 36)) == o
            case WireCancelRequest(a, x, c, o) =>
              HeaderB(b, 40, 15, seqNo) && Signed(U32(b, 24)) == a && Signed(U32(b, 28)) == x && Signed(U32(b, 32)) == o
              && Signed(U32(b, 36)) == c
  {
    WireRequestLayout();
    assert ValidMessage(ProtocolB, WireRequestMessage(req));
    match req
    case WireNewOrderSingle(a, x, c) => WireOrderBytes(a, x, c, seqNo);
    case WireCancelReplaceRequest(a, x, c, o) => WireCancelBytes(CancelReplaceRequest, a, x, c, o, seqNo);
    case WireCancelRequest(a, x, c, o) => WireCancelBytes(CancelRequest, a, x, o, c, seqNo);
  }

  lemma ReportFields(msg: Message, seqNo: uint64)
    requires msg.kind.ExecutionReport? && ValidMessage(ProtocolB, msg)
    ensures var b := Encode(ProtocolB, msg, seqNo);
            44 <= |b| && msg.words == [U32(b, 24), U32(b, 28), U32(b, 32), U32(b, 36), U32(b, 40)]
  {
    EncodedStruct(ProtocolB, msg, seqNo);
    ReportB(Encode(ProtocolB, msg, seqNo));
  }

  lemma ReportHeader(msg: Message, seqNo: uint64)
    requires msg.kind.ExecutionReport? && ValidMessage(ProtocolB, msg)
    ensures HeaderB(Encode(ProtocolB, msg, seqNo), 48, 16, seqNo)
  {
    ReportSize();
    EncodedHeaderB(msg, seqNo);
  }

  lemma ReportSize()
    ensures SizeOf(ProtocolB, ExecutionReport) == 48 && TypeCode(ProtocolB, ExecutionReport) == 16
  {
    Ints([4, 4, 4]);
    TwoWidths(ProtocolB, ExecutionReport, [4, 4, 4]);
  }

  lemma ReportBytes(a: int32, x: int32, c: int32, seqNo: uint64)
    requires ValidMessage(ProtocolB, Message(ExecutionReport, [ToUint32(a), ToUint32(x), ToUint32(c), 0, 0]))
    ensures var b := Encode(ProtocolB, Message(ExecutionReport, [ToUint32(a), ToUint32(x), ToUint32(c), 0, 0]), seqNo);
            && HeaderB(b, 48, 16, seqNo)
            && Signed(U32(b, 24)) == a && Signed(U32(b, 28)) == x && Signed(U32(b, 32)) == c
  {
    var msg := Message(ExecutionReport, [ToUint32(a), ToUint32(x), ToUint32(c), 0, 0]);
    ReportHeader(msg, seqNo);
    ReportFields(msg, seqNo);
    assert msg.words[0] == ToUint32(a) && msg.words[1] == ToUint32(x) && msg.words[2] == ToUint32(c);
    SignedFields(a);
    SignedFields(x);
    SignedFields(c);
  }

  lemma CancelRejectBytes(a: int32, x: int32, c: int32, seqNo: uint64)
    requires ValidMessage(ProtocolB, Message(CancelReject, [ToUint32(a), ToUint32(x), ToUint32(c), 0]))
    ensures var b := Encode(ProtocolB, Message(CancelReject, [ToUint32(a), ToUint32(x), ToUint32(c), 0]), seqNo);
            && HeaderB(b, 40, 17, seqNo)
            && Signed(U32(b, 24)) == a && Signed(U32(b, 28)) == x && Signed(U32(b, 32)) == c
  {
    var msg := Message(CancelReject, [ToUint32(a), ToUint32(x), ToUint32(c), 0]);
    CancelSizeB(CancelReject);
    EncodedHeaderB(msg, seqNo);
    CancelFieldsB(msg, seqNo);
    assert msg.words[0] == ToUint32(a) && msg.words[1] == ToUint32(x) && msg.words[2] == ToUint32(c);
    SignedFields(a);
    SignedFields(x);
    SignedFields(c);
  }

  /** A venue's replies: types 16 and 17. */
  lemma WireReplyBytes(reply: M.WireReply, seqNo: uint64)
    ensures ValidMessage(ProtocolB, WireReplyMessage(reply))
    ensures var b := Encode(ProtocolB, WireReplyMessage(reply), seqNo);
            && (reply.kind == M.ExecutionReport ==> HeaderB(b, 48, 16, seqNo))
            && (reply.kind == M.CancelReject ==> HeaderB(b, 40, 17, seqNo))
            && 36 <= |b| && Signed(U32(b, 24)) == reply.a && Signed(U32(b, 28)) == reply.b
            && Signed(U32(b, 32)) == reply.c
  {
    WireReplyLayout();
    assert ValidMessage(ProtocolB, WireReplyMessage(reply));
    match reply.kind
    case ExecutionReport => ReportBytes(reply.a, reply.b, reply.c, seqNo);
    case CancelReject => CancelRejectBytes(reply.a, reply.b, reply.c, seqNo);
  }

  /** Logons, logouts and heartbeats: types 0 to 2 and 10 to 12, with two fields that stay zero. */
  lemma ControlBytes(kind: Kind, seqNo: uint64)
    requires kind.Logon? || kind.Logout? || kind.Heartbeat?
    ensures ValidMessage(ProtocolA, Message(kind, [0, 0])) && ValidMessage(ProtocolB, Message(kind, [0, 0]))
    ensures var b := Encode(ProtocolA, Message(kind, [0, 0]), seqNo);
            && HeaderA(b, 21, if kind.Logon? then 0 else if kind.Logout? then 1 else 2, seqNo)
            && U32(b, 13) == 0 && U32(b, 17) == 0
    ensures var b := Encode(ProtocolB, Message(kind, [0, 0]), seqNo);
            && HeaderB(b, 32, if kind.Logon? then 10 else if kind.Logout? then 11 else 12, seqNo)
            && U32(b, 24) == 0 && U32(b, 28) == 0
  {
    ControlBytesOf(ProtocolA, kind, seqNo);
    ControlBytesOf(ProtocolB, kind, seqNo);
    EncodedHeaderA(Message(kind, [0, 0]), seqNo);
    EncodedHeaderB(Message(kind, [0, 0]), seqNo);
  }

  lemma ControlBytesOf(p: Protocol, kind: Kind, seqNo: uint64)
    requires kind.Logon? || kind.Logout? || kind.Heartbeat?
    ensures ValidMessage(p, Message(kind, [0, 0])) && SizeOf(p, kind) == if p.ProtocolA? then 21 else 32
    ensures var b, h := Encode(p, Message(kind, [0, 0]), seqNo), if p.ProtocolA? then 13 else 24;
            h + 8 <= |b| && U32(b, h) == 0 && U32(b, h + 4) == 0
  {
    var msg := Message(kind, [0, 0]);
    ControlSize(p, kind);
    ZeroFields(p, kind);
    EncodedStruct(p, msg, seqNo);
    ControlWords(p, kind, Encode(p, msg, seqNo));
    assert msg.words[0] == 0 && msg.words[1] == 0;
  }

  lemma ControlSize(p: Protocol, kind: Kind)
    requires kind.Logon? || kind.Logout? || kind.Heartbeat?
    ensures SizeOf(p, kind) == FieldsEnd(p, kind) == if p.ProtocolA? then 21 else 32
  {
    TwoWidths(p, kind, []);
  }

  lemma ControlWords(p: Protocol, kind: Kind, b: seq<byte>)
    requires kind.Logon? || kind.Logout? || kind.Heartbeat?
    requires FieldsEnd(p, kind) <= |b|
    ensures var h := HeaderLength(p); h + 8 <= |b| && ReadStruct(p, kind, b).words == [U32(b, h), U32(b, h + 4)]
  {
    TwoFields(p, kind, b, []);
  }

  lemma ZeroFields(p: Protocol, kind: Kind)
    requires kind.Logon? || kind.Logout? || kind.Heartbeat?
    ensures ValidMessage(p, Message(kind, [0, 0]))
  {
    Powers();
  }

  // ---------- What is received ----------

  /** What is complete, and which bytes a message is. */
  lemma HeadInNumbers(data: seq<byte>)
    ensures Complete(ProtocolA, data) <==> 13 <= |data| && U32(data, 0) <= |data|
    ensures Complete(ProtocolB, data) <==> 24 <= |data| && U32(data, 0) <= |data|
    ensures Complete(ProtocolA, data) ==> Head(ProtocolA, data) == Frame(data[4], data[..U32(data, 0)])
    ensures Complete(ProtocolB, data) ==> Head(ProtocolB, data) == Frame(U32(data, 4), data[..U32(data, 0)])
  {
    if 8 <= |data| {
      FourBytes(data, 0);
      FourBytes(data, 4);
    }
  }

  lemma OrderOfWords(a: uint32, x: uint32, id: uint64)
    ensures RequestOf(Message(NewOrderSingle, [a, x, id])) == [M.NewOrderSingle(a, x, id)]
  {
  }

  lemma CancelOfWords(a: uint32, x: uint32, id: uint64, original: uint64)
    ensures RequestOf(Message(CancelReplaceRequest, [a, x, id, original])) ==
            [M.CancelReplaceRequest(a, x, id, original)]
    ensures RequestOf(Message(CancelRequest, [a, x, id, original])) == [M.CancelRequest(a, x, id, original)]
  {
  }

  lemma RequestFromClient(b: seq<byte>)
    requires 53 <= |b|
    ensures FieldsEnd(ProtocolA, NewOrderSingle) <= |b| && FieldsEnd(ProtocolA, CancelReplaceRequest) <= |b|
    ensures FieldsEnd(ProtocolA, CancelRequest) <= |b|
    ensures RequestOf(ReadStruct(ProtocolA, NewOrderSingle, b)) ==
            [M.NewOrderSingle(U32(b, 13), U32(b, 17), U64(b, 21))]
    ensures RequestOf(ReadStruct(ProtocolA, CancelReplaceRequest, b)) ==
            [M.CancelReplaceRequest(U32(b, 13), U32(b, 17), U64(b, 21), U64(b, 29))]
    ensures RequestOf(ReadStruct(ProtocolA, CancelRequest, b)) ==
            [M.CancelRequest(U32(b, 13), U32(b, 17), U64(b, 21), U64(b, 29))]
  {
    OrderA(b);
    CancelA(CancelReplaceRequest, b);
    CancelA(CancelRequest, b);
    OrderOfWords(U32(b, 13), U32(b, 17), U64(b, 21));
    CancelOfWords(U32(b, 13), U32(b, 17), U64(b, 21), U64(b, 29));
  }

  /** What a client's endpoint makes of a message, by its type byte. */
  lemma ReceivedFromClient(data: seq<byte>, behind: seq<byte>)
    requires 13 <= |data| && U32(data, 0) <= |data| && 53 <= |behind|
    ensures Complete(ProtocolA, data)
    ensures var delivery, b := CallbackOn(ProtocolA, data, behind).delivery, data + behind;
            && (data[4] == 0 ==> delivery == Control(Logon))
            && (data[4] == 1 ==> delivery == Control(Logout))
            && (data[4] == 2 ==> delivery == Control(Heartbeat))
            && (data[4] == 3 ==>
                  && delivery.Application?
                  && RequestOf(delivery.msg) == [M.NewOrderSingle(U32(b, 13), U32(b, 17), U64(b, 21))])
            && (data[4] == 4 ==>
                  && delivery.Application?
                  && RequestOf(delivery.msg) ==
                     [M.CancelReplaceRequest(U32(b, 13), U32(b, 17), U64(b, 21), U64(b, 29))])
            && (data[4] == 5 ==>
                  && delivery.Application?
                  && RequestOf(delivery.msg) ==
                     [M.CancelRequest(U32(b, 13), U32(b, 17), U64(b, 21), U64(b, 29))])
            && (data[4] > 5 ==> delivery == Invalid)
  {
    HeadInNumbers(data);
    LongEnough(ProtocolA, data[4], data + behind);
    RequestFromClient(data + behind);
  }

  lemma ReplyOfWords(a: uint32, x: uint32, c: uint32, o: uint32, e: uint32)
    ensures WireReplyOf(Message(ExecutionReport, [a, x, c, o, e])) ==
            [M.WireReply(M.ExecutionReport, Signed(a), Signed(x), Signed(c))]
    ensures WireReplyOf(Message(CancelReject, [a, x, c, o])) ==
            [M.WireReply(M.CancelReject, Signed(a), Signed(x), Signed(c))]
  {
    NarrowIsSigned(a);
    NarrowIsSigned(x);
    NarrowIsSigned(c);
  }

  lemma NarrowIsSigned(u: uint32)
    ensures Narrow(u) == Signed(u)
  {
  }

  lemma ReplyFromVenue(b: seq<byte>)
    requires 53 <= |b|
    ensures FieldsEnd(ProtocolB, ExecutionReport) <= |b| && FieldsEnd(ProtocolB, CancelReject) <= |b|
    ensures WireReplyOf(ReadStruct(ProtocolB, ExecutionReport, b)) ==
            [M.WireReply(M.ExecutionReport, Signed(U32(b, 24)), Signed(U32(b, 28)), Signed(U32(b, 32)))]
    ensures WireReplyOf(ReadStruct(ProtocolB, CancelReject, b)) ==
            [M.WireReply(M.CancelReject, Signed(U32(b, 24)), Signed(U32(b, 28)), Signed(U32(b, 32)))]
  {
    ReportB(b);
    CancelB(CancelReject, b);
    ReplyOfWords(U32(b, 24), U32(b, 28), U32(b, 32), U32(b, 36), U32(b, 40));
  }

  /** What a venue's endpoint makes of a message, by its type field. */
  lemma ReceivedFromVenue(data: seq<byte>, behind: seq<byte>)
    requires 24 <= |data| && U32(data, 0) <= |data| && 53 <= |behind|
    ensures Complete(ProtocolB, data)
    ensures var code, delivery, b := U32(data, 4), CallbackOn(ProtocolB, data, behind).delivery, data + behind;
            && (code == 10 ==> delivery == Control(Logon))
            && (code == 11 ==> delivery == Control(Logout))
            && (code == 12 ==> delivery == Control(Heartbeat))
            && (code == 16 ==>
                  && delivery.Application?
                  && WireReplyOf(delivery.msg) ==
                     [M.WireReply(M.ExecutionReport, Signed(U32(b, 24)), Signed(U32(b, 28)), Signed(U32(b, 32)))])
            && (code == 17 ==>
                  && delivery.Application?
                  && WireReplyOf(delivery.msg) ==
                     [M.WireReply(M.CancelReject, Signed(U32(b, 24)), Signed(U32(b, 28)), Signed(U32(b, 32)))])
            && (code != 10 && code != 11 && code != 12 && code != 16 && code != 17 ==> delivery == Invalid)
  {
    HeadInNumbers(data);
    LongEnough(ProtocolB, U32(data, 4), data + behind);
    ReplyFromVenue(data + behind);
    DispatchFromVenue(U32(data, 4), data + behind);
  }

  lemma DispatchFromVenue(code: nat, b: seq<byte>)
    requires 53 <= |b| && FieldsEnd(ProtocolB, ExecutionReport) <= |b| && FieldsEnd(ProtocolB, CancelReject) <= |b|
    ensures !Short(ProtocolB, code, b)
    ensures var delivery := Deliver(ProtocolB, code, b);
            && (code == 10 ==> delivery == Control(Logon))
            && (code == 11 ==> delivery == Control(Logout))
            && (code == 12 ==> delivery == Control(Heartbeat))
            && (code == 16 ==> delivery == Application(ReadStruct(ProtocolB, ExecutionReport, b)))
            && (code == 17 ==> delivery == Application(ReadStruct(ProtocolB, CancelReject, b)))
            && (code != 10 && code != 11 && code != 12 && code != 16 && code != 17 ==> delivery == Invalid)
  {
    LongEnough(ProtocolB, code, b);
  }
}
