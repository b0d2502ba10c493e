/** Concrete byte streams on which a receiver does not do what its peer may expect. */
module StreamLimits {
  import opened Types
  import opened Framing
  import opened Codec
  import opened Dispatch
  import opened Staleness
  import opened Transport

  // ---------- A message shorter than its fields ----------

  /** A NewOrderSingle header that announces its own 13 bytes only. */
  const SHORT_ORDER: seq<byte> := [13, 0, 0, 0, 3, 1, 0, 0, 0, 0, 0, 0, 0]

  const LOGON: seq<byte> := [21, 0, 0, 0, 0, 2, 0, 0, 0, 0, 0, 0, 0, 0, 0, 0, 0, 0, 0, 0, 0]

  lemma ShortOrderHead()
    ensures Consumes(ProtocolA, SHORT_ORDER) && Head(ProtocolA, SHORT_ORDER) == Frame(3, SHORT_ORDER)
  {
    assert SHORT_ORDER[..13] == SHORT_ORDER;
  }

  lemma LogonHead()
    ensures Consumes(ProtocolA, LOGON) && Head(ProtocolA, LOGON) == Frame(0, LOGON)
  {
    assert LOGON[..21] == LOGON;
  }

  lemma WholeFrame(p: Protocol, b: seq<byte>, msgType: nat)
    requires Consumes(p, b) && Head(p, b) == Frame(msgType, b)
    ensures Dispatched(p, b) == [Frame(msgType, b)] && Residue(p, b) == []
  {
    WholeFrameFirst(p, b, []);
    assert b + [] == b;
  }

  lemma TwoWholeFrames(p: Protocol, a: seq<byte>, s: nat, b: seq<byte>, t: nat)
    requires Consumes(p, a) && Head(p, a) == Frame(s, a)
    requires Consumes(p, b) && Head(p, b) == Frame(t, b)
    ensures Dispatched(p, a + b) == [Frame(s, a), Frame(t, b)] && Residue(p, a + b) == []
  {
    WholeFrame(p, b, t);
    WholeFrameFirst(p, a, b);
  }

  /** Where the messages end is clear: the order is followed by the logon. */
  lemma ShortOrderFrames()
    ensures Dispatched(ProtocolA, SHORT_ORDER + LOGON) == [Frame(3, SHORT_ORDER), Frame(0, LOGON)]
    ensures Residue(ProtocolA, SHORT_ORDER + LOGON) == []
    ensures Consumes(ProtocolA, SHORT_ORDER) && Residue(ProtocolA, SHORT_ORDER) == []
  {
    ShortOrderHead();
    LogonHead();
    WholeFrame(ProtocolA, SHORT_ORDER, 3);
    TwoWholeFrames(ProtocolA, SHORT_ORDER, 3, LOGON, 0);
  }

  /** The first field of a message is the word behind its header. */
  lemma FirstField(p: Protocol, kind: Kind, memory: seq<byte>)
    requires FieldsEnd(p, kind) <= |memory|
    ensures HeaderLength(p) + 4 <= |memory|
    ensures ReadStruct(p, kind, memory).words != []
    ensures ReadStruct(p, kind, memory).words[0] == Word(memory, HeaderLength(p))
  {
    var h, widths := HeaderLength(p), Widths(p, kind);
    assert Sum(widths) == 4 + Sum(widths[1..]);
    assert memory[h..][..4] == memory[h..h + 4];
    WordIsLittleEndian(memory, h);
  }

  /** The session is handed a new order with this price. */
  predicate OrderPriced(callback: Callback, a: nat) {
    && callback.delivery.Application? && callback.delivery.msg.kind == NewOrderSingle
    && callback.delivery.msg.words != [] && callback.delivery.msg.words[0] == a
  }

  lemma PriceIsRead(data: seq<byte>, behind: seq<byte>)
    requires Complete(ProtocolA, data) && TypeField(ProtocolA, data) == 3 && LONGEST <= |behind|
    ensures OrderPriced(CallbackOn(ProtocolA, data, behind), Word(data + behind, 13))
  {
    SizesFit(ProtocolA, NewOrderSingle);
    FirstField(ProtocolA, NewOrderSingle, data + behind);
  }

  /** Reads of these chunks into an array of zeros. */
  lemma FirstPrice(chunks: seq<seq<byte>>, x: Execution)
    requires Fits(ProtocolA, [], chunks) && chunks != [] && x == Execution(Zeros(CAPACITY), WithZeros(chunks))
    requires Complete(ProtocolA, chunks[0]) && TypeField(ProtocolA, chunks[0]) == 3
    ensures Reading(ProtocolA, x, Concat(chunks))
    ensures |Handled(ProtocolA, x)| > 0
    ensures OrderPriced(Handled(ProtocolA, x)[0], Word(chunks[0] + Zeros(CAPACITY + LONGEST), 13))
  {
    FirstCallback(ProtocolA, x, Concat(chunks));
    var chunk, behind := chunks[0], FirstBehind(Zeros(CAPACITY), chunks[0], Zeros(LONGEST));
    PriceIsRead(chunk, behind);
    assert (chunk + behind)[..17] == (chunk + Zeros(CAPACITY + LONGEST))[..17];
    WordIsLittleEndian(chunk + behind, 13);
    WordIsLittleEndian(chunk + Zeros(CAPACITY + LONGEST), 13);
    assert (chunk + behind)[13..17] == (chunk + behind)[..17][13..];
    assert (chunk + Zeros(CAPACITY + LONGEST))[13..17] == (chunk + Zeros(CAPACITY + LONGEST))[..17][13..];
  }

  lemma OneChunk(p: Protocol, chunk: seq<byte>)
    ensures Concat([chunk]) == chunk
    ensures chunk != [] && |chunk| <= CAPACITY ==> Fits(p, [], [chunk])
    ensures DispatchedBy(p, [], [chunk]) == Dispatched(p, chunk) && ResidueAfter(p, [], [chunk]) == Residue(p, chunk)
  {
    var chunks := [chunk];
    assert chunks[1..] == [] && chunk + [] == chunk && [] + chunk == chunk;
    assert Dispatched(p, chunk) + [] == Dispatched(p, chunk);
  }

  /** The two ways of reading the stream. */
  lemma TwoSplits()
    ensures Brings(ProtocolA, [SHORT_ORDER + LOGON], SHORT_ORDER + LOGON)
    ensures Brings(ProtocolA, [SHORT_ORDER, LOGON], SHORT_ORDER + LOGON)
  {
    ShortOrderFrames();
    var data := SHORT_ORDER + LOGON;
    OneChunk(ProtocolA, data);
    OneChunk(ProtocolA, LOGON);
    var split := [SHORT_ORDER, LOGON];
    assert split[1..] == [LOGON] && [] + SHORT_ORDER == SHORT_ORDER;
  }

  /**
   * The order reads its price from whatever follows it: from the logon's size field if both come in
   * one read, and from the empty array if the logon comes later.
   */
  lemma ShortOrderReadsOn() returns (whole: Execution, split: Execution)
    ensures Reading(ProtocolA, whole, SHORT_ORDER + LOGON) && Reading(ProtocolA, split, SHORT_ORDER + LOGON)
    ensures whole.buffer == split.buffer == Zeros(CAPACITY)
    ensures FramesOf(Handled(ProtocolA, whole)) == FramesOf(Handled(ProtocolA, split))
    ensures |Handled(ProtocolA, whole)| > 0 && OrderPriced(Handled(ProtocolA, whole)[0], 21)
    ensures |Handled(ProtocolA, split)| > 0 && OrderPriced(Handled(ProtocolA, split)[0], 0)
  {
    var data := SHORT_ORDER + LOGON;
    ShortOrderFrames();
    TwoSplits();
    whole := Execution(Zeros(CAPACITY), WithZeros([data]));
    split := Execution(Zeros(CAPACITY), WithZeros([SHORT_ORDER, LOGON]));
    FirstPrice([data], whole);
    FirstPrice([SHORT_ORDER, LOGON], split);
    SameFrames(ProtocolA, whole, split, data);
  }

  lemma SameFrames(p: Protocol, x: Execution, y: Execution, data: seq<byte>)
    requires Reading(p, x, data) && Reading(p, y, data) && Residue(p, data) == []
    ensures FramesOf(Handled(p, x)) == FramesOf(Handled(p, y))
  {
    assert Front(Memory(x.buffer, 0)) == [] == Front(Memory(y.buffer, 0));
    StaleBytesBehindFrames(p, Memory(x.buffer, 0), x.inputs);
    StaleBytesBehindFrames(p, Memory(y.buffer, 0), y.inputs);
    DispatchedOnce(p, Chunks(x.inputs));
    DispatchedOnce(p, Chunks(y.inputs));
  }

  lemma OrderIsShort()
    ensures JustShort(ProtocolA, SHORT_ORDER)
  {
    ShortOrderHead();
    SizesFit(ProtocolA, NewOrderSingle);
  }

  /** Behind a logon of the usual size the same order still depends on stale bytes. */
  lemma ShortOrderAfterLogon()
    ensures Readable(ProtocolA, LOGON + SHORT_ORDER) && !Settled(ProtocolA, LOGON + SHORT_ORDER)
  {
    var data := LOGON + SHORT_ORDER;
    LogonHead();
    OrderIsShort();
    HeadStays(ProtocolA, LOGON, SHORT_ORDER);
    assert data[21..] == SHORT_ORDER;
    assert Head(ProtocolA, data) == Frame(0, LOGON);
    assert !Complete(ProtocolA, SHORT_ORDER[13..]);
    CleanByEnd(ProtocolA, data);
    SettledExactly(ProtocolA, data);
  }

  /** A logon that announces 1024 bytes. */
  function LargeLogon(): (data: seq<byte>)
    ensures |data| == CAPACITY
  {
    [0, 4, 0, 0] + Zeros(CAPACITY - 4)
  }

  /** Behind a logon as long as the buffer it no longer does: every byte it reads was brought by the stream. */
  lemma LargeLogonHidesOrder()
    ensures Settled(ProtocolA, LargeLogon() + SHORT_ORDER) && !Clean(ProtocolA, LargeLogon() + SHORT_ORDER)
  {
    var data := LargeLogon();
    assert data[..4] == [0, 4, 0, 0];
    assert Head(ProtocolA, data).msgType == 0;
    OrderIsShort();
    FullMessageHides(ProtocolA, data, SHORT_ORDER);
  }

  // ---------- A message of size zero ----------

  /** Zeros begin with a logon header of size zero. */
  lemma ZerosDispatched(n: nat)
    requires 13 <= n
    ensures Dispatched(ProtocolA, Zeros(n)) == [Frame(0, [])] && Residue(ProtocolA, Zeros(n)) == Zeros(n)
  {
    assert ZeroHead(ProtocolA, Zeros(n));
    assert Zeros(n)[..0] == [];
  }

  /** A logon header of size zero and one more byte: two logons are dispatched if the byte comes later. */
  lemma ZeroSizedLogon()
    ensures Brings(ProtocolA, [Zeros(14)], Zeros(14)) && Brings(ProtocolA, [Zeros(13), Zeros(1)], Zeros(14))
    ensures DispatchedBy(ProtocolA, [], [Zeros(14)]) == [Frame(0, [])]
    ensures DispatchedBy(ProtocolA, [], [Zeros(13), Zeros(1)]) == [Frame(0, []), Frame(0, [])]
  {
    ZerosDispatched(13);
    ZerosDispatched(14);
    OneChunk(ProtocolA, Zeros(14));
    OneChunk(ProtocolA, Zeros(1));
    var later := [Zeros(1)];
    assert [Zeros(13), Zeros(1)][1..] == later && later[1..] == [];
    assert [] + Zeros(13) == Zeros(13) && Zeros(13) + Zeros(1) == Zeros(14);
  }

  // ---------- A message larger than the buffer ----------

  /** A header that announces 1025 bytes, and as many bytes behind it as fit the buffer. */
  function Oversized(): (data: seq<byte>)
    ensures |data| == CAPACITY
  {
    [1, 4, 0, 0] + Zeros(CAPACITY - 4)
  }

  /** It is never consumed, and after it the buffer has no room for a read. */
  lemma OversizedFillsBuffer(p: Protocol)
    ensures SizeField(Oversized()) == 1025 && BadHead(Oversized())
    ensures Fits(p, [], [Oversized()])
    ensures DispatchedBy(p, [], [Oversized()]) == []
    ensures CAPACITY - |ResidueAfter(p, [], [Oversized()])| == 0
  {
    var data := Oversized();
    WordIsLittleEndian(data, 0);
    OneChunk(p, data);
    BadHeadBlocks(p, data, []);
    assert data + [] == data;
  }

  /** What one read makes of a new connection. */
  lemma OnlyRead(p: Protocol, c: Connection, m: Memory, dispatched: seq<Callback>, chunk: seq<byte>)
    requires Replays(p, c, m, dispatched) && Chunks(c.inputs) == [chunk]
    ensures IsMemory(m) && m.length == |Residue(p, chunk)|
    ensures FramesOf(dispatched) == FramesOf(c.earlier) + DispatchedBy(p, [], [chunk])
  {
    OneChunk(p, chunk);
    ReplayRefinesParse(p, c, m, dispatched);
    ReadsRefineParse(p, [], [chunk]);
    assert [] + chunk == chunk;
  }

  lemma FullAfterOversized(p: Protocol, c: Connection, n: nat, beyond: seq<byte>, m: Memory, dispatched: seq<Callback>)
    requires n == CAPACITY && c.inputs == [] && c.earlier == []
    requires Replays(p, GoOn(c, Read(Oversized()[..n], beyond)), m, dispatched)
    ensures m.length == CAPACITY && dispatched == []
  {
    assert Oversized()[..n] == Oversized();
    var c' := GoOn(c, Read(Oversized()[..n], beyond));
    assert c'.inputs == [Read(Oversized(), beyond)] && Chunks(c'.inputs) == [Oversized()];
    OversizedFillsBuffer(p);
    OneChunk(p, Oversized());
    OnlyRead(p, c', m, dispatched, Oversized());
  }

  /** A peer that is still sending counts as closed at the read after that. */
  method OversizedMessageClosesPeer(protocol: Protocol, beyond: seq<byte>, outputs: nat -> seq<Message>)
    returns (transport: TransportSingleThreaded, first: nat, second: nat)
    requires LONGEST <= |beyond| && ValidOutputs(protocol, outputs)
    ensures first == CAPACITY && second == 0
    ensures transport.endpoint.dispatched == [] && transport.connection.inputs == []
  {
    var store := new SequenceStore();
    var endpoint := new Endpoint(protocol, store);
    transport := new TransportSingleThreaded(endpoint);
    ghost var start := transport.connection;
    first := transport.ProcessReceivedData(Oversized(), beyond, outputs);
    FullAfterOversized(protocol, start, first, beyond, transport.Content(), endpoint.dispatched);
    second := transport.ProcessReceivedData([0], beyond, outputs);
  }
}
