/** Length-prefixed framing of both protocols, and what it makes of a byte stream. */
module Framing {
  import opened Types
  import opened Arithmetic

  /** Size of a transport's receive buffer. */
  const CAPACITY := 1024

  datatype Protocol = ProtocolA | ProtocolB

  /** `sizeof(schema::Header)`: packed in protocol A, padded in protocol B. */
  function HeaderLength(p: Protocol): nat {
    if p.ProtocolA? then 13 else 24
  }

  /** Little-endian value of a byte string. */
  function FromBytes(b: seq<byte>): nat {
    if b == [] then 0 else b[0] + 256 * FromBytes(b[1..])
  }

  /** Little-endian value of the four bytes from `at` on. */
  function Word(b: seq<byte>, at: nat): nat
    requires at + 4 <= |b|
  {
    b[at] as nat + 256 * (b[at + 1] as nat) + 65536 * (b[at + 2] as nat) + 16777216 * (b[at + 3] as nat)
  }

  lemma WordIsLittleEndian(b: seq<byte>, at: nat)
    requires at + 4 <= |b|
    ensures Word(b, at) == FromBytes(b[at..at + 4])
    ensures b[0..4] == b[..4]
  {
    var w := b[at..at + 4];
    assert w[1..] == b[at + 1..at + 4] && w[1..][1..] == b[at + 2..at + 4];
    assert w[1..][1..][1..] == b[at + 3..at + 4] && w[1..][1..][1..][1..] == [];
    assert FromBytes(w[1..][1..][1..]) == b[at + 3] as nat;
    assert FromBytes(w[1..][1..]) == b[at + 2] as nat + 256 * FromBytes(w[1..][1..][1..]);
    assert FromBytes(w[1..]) == b[at + 1] as nat + 256 * FromBytes(w[1..][1..]);
  }

  /** Field `size`, the first four bytes of every header. */
  function SizeField(b: seq<byte>): nat
    requires 4 <= |b|
  {
    Word(b, 0)
  }

  /** Field `msg_type`: one byte in protocol A, four in protocol B. */
  function TypeField(p: Protocol, b: seq<byte>): nat
    requires HeaderLength(p) <= |b|
  {
    if p.ProtocolA? then b[4] else Word(b, 4)
  }

  /** A dispatched message: the type read from its header and the bytes it consumed. */
  datatype Frame = Frame(msgType: nat, bytes: seq<byte>)

  /** `on_data_impl` dispatches: the header and the whole message have arrived. */
  predicate Complete(p: Protocol, data: seq<byte>) {
    HeaderLength(p) <= |data| && SizeField(data) <= |data|
  }

  function Head(p: Protocol, data: seq<byte>): (frame: Frame)
    requires Complete(p, data)
    ensures |frame.bytes| == SizeField(data)
  {
    Frame(TypeField(p, data), data[..SizeField(data)])
  }

  /** A complete message that consumes something. */
  predicate Consumes(p: Protocol, data: seq<byte>) {
    Complete(p, data) && 0 < SizeField(data)
  }

  /** A complete header that announces a message of size zero. */
  predicate ZeroHead(p: Protocol, data: seq<byte>) {
    Complete(p, data) && SizeField(data) == 0
  }

  /** The frames a byte string starts with, cut off one after the other. */
  function Frames(p: Protocol, data: seq<byte>): seq<Frame>
    decreases |data|
  {
    if Consumes(p, data) then [Head(p, data)] + Frames(p, data[SizeField(data)..]) else []
  }

  /** What stays behind after all frames are cut off. */
  function Residue(p: Protocol, data: seq<byte>): (rest: seq<byte>)
    ensures |rest| <= |data|
    ensures !Consumes(p, rest)
    decreases |data|
  {
    if Consumes(p, data) then Residue(p, data[SizeField(data)..]) else data
  }

  /** What one call of `process_data` dispatches: a size-zero head is dispatched and left in place. */
  function Dispatched(p: Protocol, data: seq<byte>): seq<Frame> {
    Frames(p, data) + if ZeroHead(p, Residue(p, data)) then [Head(p, Residue(p, data))] else []
  }

  function Flatten(frames: seq<Frame>): seq<byte> {
    if frames == [] then [] else frames[0].bytes + Flatten(frames[1..])
  }

  /** Byte conservation: the frames and the residue are the data, in order. */
  lemma {:induction false} FramesAndResidue(p: Protocol, data: seq<byte>)
    ensures Flatten(Frames(p, data)) + Residue(p, data) == data
    decreases |data|
  {
    if Consumes(p, data) {
      var n := SizeField(data);
      var later := Frames(p, data[n..]);
      FramesAndResidue(p, data[n..]);
      FlattenFirst(Head(p, data), later);
      Associate(data[..n], Flatten(later), Residue(p, data[n..]));
    }
  }

  lemma FlattenFirst(frame: Frame, later: seq<Frame>)
    ensures Flatten([frame] + later) == frame.bytes + Flatten(later)
  {
    assert ([frame] + later)[1..] == later;
  }

  lemma HeadStays(p: Protocol, a: seq<byte>, b: seq<byte>)
    requires HeaderLength(p) <= |a|
    ensures SizeField(a + b) == SizeField(a) && TypeField(p, a + b) == TypeField(p, a)
    ensures Complete(p, a) ==> Complete(p, a + b) && Head(p, a + b) == Head(p, a)
  {
    if Complete(p, a) {
      assert (a + b)[..SizeField(a)] == a[..SizeField(a)];
    }
  }

  /** Parsing what has arrived and then the residue with the rest is parsing everything at once. */
  lemma {:induction false} ParseInTwoSteps(p: Protocol, a: seq<byte>, b: seq<byte>)
    ensures Frames(p, a + b) == Frames(p, a) + Frames(p, Residue(p, a) + b)
    ensures Residue(p, a + b) == Residue(p, Residue(p, a) + b)
    decreases |a|
  {
    if Consumes(p, a) {
      HeadStays(p, a, b);
      var n := SizeField(a);
      assert (a + b)[n..] == a[n..] + b;
      ParseInTwoSteps(p, a[n..], b);
    }
  }

  // ---------- Sequences of reads ----------

  /** Every read brings something and fits the free part of the buffer. */
  predicate Fits(p: Protocol, rest: seq<byte>, chunks: seq<seq<byte>>)
    decreases |chunks|
  {
    chunks != [] ==>
      && chunks[0] != [] && |rest| + |chunks[0]| <= CAPACITY
      && Fits(p, Residue(p, rest + chunks[0]), chunks[1..])
  }

  function Concat(chunks: seq<seq<byte>>): seq<byte> {
    if chunks == [] then [] else chunks[0] + Concat(chunks[1..])
  }

  /** Everything dispatched while the reads come in, starting with `rest` in the buffer. */
  function DispatchedBy(p: Protocol, rest: seq<byte>, chunks: seq<seq<byte>>): seq<Frame>
    decreases |chunks|
  {
    if chunks == [] then []
    else Dispatched(p, rest + chunks[0]) + DispatchedBy(p, Residue(p, rest + chunks[0]), chunks[1..])
  }

  function ResidueAfter(p: Protocol, rest: seq<byte>, chunks: seq<seq<byte>>): seq<byte>
    decreases |chunks|
  {
    if chunks == [] then rest else ResidueAfter(p, Residue(p, rest + chunks[0]), chunks[1..])
  }

  /** Reads after which a size-zero head is at the front of the buffer. */
  function ZeroReads(p: Protocol, rest: seq<byte>, chunks: seq<seq<byte>>): nat
    decreases |chunks|
  {
    if chunks == [] then 0
    else
      var rest' := Residue(p, rest + chunks[0]);
      (if ZeroHead(p, rest') then 1 else 0) + ZeroReads(p, rest', chunks[1..])
  }

  /** A frame repeated. */
  function Repeat(frame: Frame, n: nat): seq<Frame> {
    seq(n, _ => frame)
  }

  lemma RepeatMore(frame: Frame, n: nat)
    ensures Repeat(frame, n + 1) == [frame] + Repeat(frame, n)
    ensures Repeat(frame, n + 1) == Repeat(frame, n) + [frame]
  {
  }

  lemma ZeroHeadGrows(p: Protocol, rest: seq<byte>, more: seq<byte>)
    requires ZeroHead(p, rest)
    ensures ZeroHead(p, rest + more) && Head(p, rest + more) == Head(p, rest)
    ensures Residue(p, rest + more) == rest + more
    ensures Dispatched(p, rest + more) == [Head(p, rest)]
  {
    HeadStays(p, rest, more);
  }

  /** Once a size-zero head is at the front it stays there, and later bytes queue behind it. */
  lemma {:induction false} ZeroHeadStays(p: Protocol, rest: seq<byte>, chunks: seq<seq<byte>>)
    requires ZeroHead(p, rest)
    ensures ResidueAfter(p, rest, chunks) == rest + Concat(chunks)
    ensures ZeroReads(p, rest, chunks) == |chunks|
    ensures ZeroHead(p, rest + Concat(chunks)) && Head(p, rest + Concat(chunks)) == Head(p, rest)
    ensures DispatchedBy(p, rest, chunks) == Repeat(Head(p, rest), |chunks|)
    decreases |chunks|
  {
    ZeroHeadGrows(p, rest, Concat(chunks));
    if chunks == [] {
      assert rest + [] == rest;
    } else {
      var chunk, later := chunks[0], chunks[1..];
      ZeroHeadGrows(p, rest, chunk);
      ZeroHeadStays(p, rest + chunk, later);
      Associate(rest, chunk, Concat(later));
      RepeatMore(Head(p, rest), |later|);
    }
  }

  /** Frames of the whole stream, then its size-zero head, if any, once per read that saw it. */
  function StreamFrames(p: Protocol, data: seq<byte>, zeroReads: nat): seq<Frame> {
    Frames(p, data) + ZeroTail(p, Residue(p, data), zeroReads)
  }

  function ZeroTail(p: Protocol, rest: seq<byte>, zeroReads: nat): seq<Frame> {
    if ZeroHead(p, rest) then Repeat(Head(p, rest), zeroReads) else []
  }

  /** The step of the refinement: the first read, then the others on what it left behind. */
  lemma RefineFirstRead(p: Protocol, data: seq<byte>, later: seq<byte>, zeroReads: nat)
    requires !ZeroHead(p, Residue(p, data))
    ensures Residue(p, data + later) == Residue(p, Residue(p, data) + later)
    ensures StreamFrames(p, data + later, zeroReads) ==
            Dispatched(p, data) + StreamFrames(p, Residue(p, data) + later, zeroReads)
  {
    ParseInTwoSteps(p, data, later);
    var rest := Residue(p, data) + later;
    Associate(Frames(p, data), Frames(p, rest), ZeroTail(p, Residue(p, rest), zeroReads));
    assert Dispatched(p, data) == Frames(p, data);
  }

  /** The same step when the first read brings a size-zero head to the front. */
  lemma RefineZeroRead(p: Protocol, data: seq<byte>, later: seq<byte>, zeroReads: nat)
    requires ZeroHead(p, Residue(p, data))
    ensures Residue(p, data + later) == Residue(p, data) + later
    ensures StreamFrames(p, data + later, zeroReads + 1) ==
            Dispatched(p, data) + Repeat(Head(p, Residue(p, data)), zeroReads)
  {
    ParseInTwoSteps(p, data, later);
    var rest := Residue(p, data);
    ZeroHeadGrows(p, rest, later);
    RepeatMore(Head(p, rest), zeroReads);
    Associate(Frames(p, data), [Head(p, rest)], Repeat(Head(p, rest), zeroReads));
  }

  /**
   * The buffer loop refines the parse of the whole stream: however the bytes are split, the
   * residue is the parse's residue and the dispatched frames are the parse's frames, followed by
   * one repetition of a size-zero head for each read after which it stood at the front.
   */
  lemma {:induction false} ReadsRefineParse(p: Protocol, rest: seq<byte>, chunks: seq<seq<byte>>)
    requires !Consumes(p, rest) && !ZeroHead(p, rest)
    ensures var data := rest + Concat(chunks);
            && ResidueAfter(p, rest, chunks) == Residue(p, data)
            && DispatchedBy(p, rest, chunks) == StreamFrames(p, data, ZeroReads(p, rest, chunks))
            && (ZeroReads(p, rest, chunks) > 0 ==> ZeroHead(p, Residue(p, data)))
    decreases |chunks|
  {
    if chunks == [] {
      assert rest + [] == rest;
    } else {
      var rest', later := Residue(p, rest + chunks[0]), chunks[1..];
      Associate(rest, chunks[0], Concat(later));
      if ZeroHead(p, rest') {
        RefineZeroRead(p, rest + chunks[0], Concat(later), |later|);
        ZeroHeadStays(p, rest', later);
      } else {
        RefineFirstRead(p, rest + chunks[0], Concat(later), ZeroReads(p, rest', later));
        ReadsRefineParse(p, rest', later);
      }
    }
  }

  /**
   * Where messages end does not depend on the split: two ways of reading the same stream cut off the same
   * frames and leave the same residue, if no size-zero head comes to the front.
   */
  lemma BoundariesIndependent(p: Protocol, chunks: seq<seq<byte>>, chunks': seq<seq<byte>>)
    requires Concat(chunks) == Concat(chunks')
    ensures ResidueAfter(p, [], chunks) == ResidueAfter(p, [], chunks')
    ensures !ZeroHead(p, Residue(p, Concat(chunks))) ==>
              DispatchedBy(p, [], chunks) == DispatchedBy(p, [], chunks') == Frames(p, Concat(chunks))
  {
    assert [] + Concat(chunks) == Concat(chunks);
    ReadsRefineParse(p, [], chunks);
    ReadsRefineParse(p, [], chunks');
  }

  // ---------- When splitting matters ----------

  /** One byte completes a frame only at its own end, so a residue with a whole header was there before. */
  lemma OneByteMore(p: Protocol, rest: seq<byte>, last: seq<byte>)
    requires !Consumes(p, rest) && !ZeroHead(p, rest)
    requires |last| == 1
    requires HeaderLength(p) <= |Residue(p, rest + last)|
    ensures Residue(p, rest + last) == rest + last
    ensures ZeroHead(p, rest + last) ==> |rest + last| == HeaderLength(p)
  {
    var data := rest + last;
    if Consumes(p, data) {
      var n := SizeField(data);
      if HeaderLength(p) <= |rest| {
        HeadStays(p, rest, last);
      }
    } else if HeaderLength(p) <= |rest| {
      HeadStays(p, rest, last);
    }
  }

  /** Dropping the last byte of a longer size-zero residue leaves a size-zero residue. */
  lemma WithoutLast(p: Protocol, data: seq<byte>, last: seq<byte>)
    requires |last| == 1 && ZeroHead(p, Residue(p, data + last))
    ensures Residue(p, data + last) == Residue(p, data) + last
    ensures ZeroHead(p, Residue(p, data)) <==> HeaderLength(p) < |Residue(p, data + last)|
  {
    var shorter := Residue(p, data);
    ParseInTwoSteps(p, data, last);
    if ZeroHead(p, shorter) {
      ZeroHeadGrows(p, shorter, last);
    } else {
      OneByteMore(p, shorter, last);
    }
  }

  lemma OneByteLess(p: Protocol, rest: seq<byte>, chunk: seq<byte>)
    requires chunk != []
    requires ZeroHead(p, Residue(p, rest + chunk))
    ensures var shorter, tail := Residue(p, rest + chunk[..|chunk| - 1]), chunk[|chunk| - 1..];
            && Residue(p, rest + chunk) == shorter + tail
            && (ZeroHead(p, shorter) <==> HeaderLength(p) < |Residue(p, rest + chunk)|)
  {
    var front, tail := chunk[..|chunk| - 1], chunk[|chunk| - 1..];
    assert rest + chunk == (rest + front) + tail;
    WithoutLast(p, rest + front, tail);
  }

  lemma ConcatTwo(a: seq<byte>, b: seq<byte>, later: seq<seq<byte>>)
    ensures Concat([a, b] + later) == a + b + Concat(later)
    ensures Concat([a] + later) == a + Concat(later)
  {
    assert ([a, b] + later)[1..] == [b] + later;
    assert ([b] + later)[1..] == later;
    assert ([a] + later)[1..] == later;
  }

  /** Reads that come while a size-zero head is at the front fit if their total fits. */
  lemma {:induction false} FitBehindZero(p: Protocol, rest: seq<byte>, chunks: seq<seq<byte>>)
    requires ZeroHead(p, rest)
    ensures Fits(p, rest, chunks) <==>
            (forall i :: 0 <= i < |chunks| ==> chunks[i] != []) && (chunks == [] || |rest + Concat(chunks)| <= CAPACITY)
    decreases |chunks|
  {
    if chunks != [] {
      HeadStays(p, rest, chunks[0]);
      FitBehindZero(p, rest + chunks[0], chunks[1..]);
      assert rest + Concat(chunks) == rest + chunks[0] + Concat(chunks[1..]);
      assert forall i :: 0 < i < |chunks| ==> chunks[i] == chunks[1..][i - 1];
      if chunks[1..] == [] {
        assert rest + chunks[0] + [] == rest + chunks[0];
      }
    }
  }

  /** Splitting off the last byte of a read that leaves more than a size-zero header dispatches it once more. */
  lemma SplitOff(p: Protocol, rest: seq<byte>, chunk: seq<byte>, later: seq<seq<byte>>)
    returns (chunks': seq<seq<byte>>)
    requires !Consumes(p, rest) && !ZeroHead(p, rest)
    requires Fits(p, rest, [chunk] + later)
    requires ZeroHead(p, Residue(p, rest + chunk)) && HeaderLength(p) < |Residue(p, rest + chunk)|
    ensures Fits(p, rest, chunks') && Concat(chunks') == chunk + Concat(later)
    ensures ZeroReads(p, rest, chunks') == 2 + |later|
  {
    var rest', front, tail := Residue(p, rest + chunk), chunk[..|chunk| - 1], chunk[|chunk| - 1..];
    assert ([chunk] + later)[1..] == later;
    OneByteLess(p, rest, chunk);
    if front == [] {
      assert chunk == tail;
      OneByteMore(p, rest, tail);
    }
    chunks' := [front, tail] + later;
    assert chunks'[1..] == [tail] + later && ([tail] + later)[1..] == later;
    ConcatTwo(front, tail, later);
    assert front + tail == chunk;
    ZeroHeadStays(p, rest', later);
  }

  /** Moving that byte to the next read, when only the header is left, dispatches it once less. */
  lemma MoveOn(p: Protocol, rest: seq<byte>, chunk: seq<byte>, next: seq<byte>, later: seq<seq<byte>>)
    returns (chunks': seq<seq<byte>>)
    requires !Consumes(p, rest) && !ZeroHead(p, rest)
    requires Fits(p, rest, [chunk, next] + later)
    requires ZeroHead(p, Residue(p, rest + chunk)) && HeaderLength(p) == |Residue(p, rest + chunk)|
    ensures Fits(p, rest, chunks') && Concat(chunks') == chunk + next + Concat(later)
    ensures ZeroReads(p, rest, chunks') == 1 + |later|
  {
    var rest', front, tail := Residue(p, rest + chunk), chunk[..|chunk| - 1], chunk[|chunk| - 1..];
    var shorter := Residue(p, rest + front);
    assert ([chunk, next] + later)[1..] == [next] + later && ([next] + later)[1..] == later;
    OneByteLess(p, rest, chunk);
    HeadStays(p, rest', next);
    assert shorter + (tail + next) == rest' + next;
    ZeroHeadStays(p, rest' + next, later);
    assert front + tail == chunk;
    var second := [tail + next] + later;
    assert second[1..] == later;
    assert Fits(p, shorter, second) && ZeroReads(p, shorter, second) == 1 + |later|;
    if front == [] {
      assert rest + front == rest && chunk == tail;
      chunks' := second;
      ConcatTwo(tail + next, [], later);
    } else {
      chunks' := [front] + second;
      assert chunks'[1..] == second;
      assert chunks' == [front, tail + next] + later;
      ConcatTwo(front, tail + next, later);
      assert front + (tail + next) == chunk + next;
    }
  }

  /** The read that brings a size-zero head to the front is the place to split differently. */
  lemma ResplitHere(p: Protocol, rest: seq<byte>, chunk: seq<byte>, later: seq<seq<byte>>)
    returns (chunks': seq<seq<byte>>)
    requires !Consumes(p, rest) && !ZeroHead(p, rest)
    requires Fits(p, rest, [chunk] + later)
    requires ZeroHead(p, Residue(p, rest + chunk))
    requires HeaderLength(p) < |Residue(p, rest + chunk)| + |Concat(later)|
    ensures Fits(p, rest, chunks') && Concat(chunks') == chunk + Concat(later)
    ensures ZeroReads(p, rest, chunks') != 1 + |later|
  {
    if HeaderLength(p) < |Residue(p, rest + chunk)| {
      chunks' := SplitOff(p, rest, chunk, later);
    } else {
      var next := later[0];
      assert [chunk] + later == [chunk, next] + later[1..];
      chunks' := MoveOn(p, rest, chunk, next, later[1..]);
      assert chunk + next + Concat(later[1..]) == chunk + (next + Concat(later[1..]));
    }
  }

  /** A size-zero head with bytes behind it is dispatched a different number of times by another split. */
  lemma {:induction false} Resplit(p: Protocol, rest: seq<byte>, chunks: seq<seq<byte>>)
    returns (chunks': seq<seq<byte>>)
    requires !Consumes(p, rest) && !ZeroHead(p, rest)
    requires Fits(p, rest, chunks)
    requires var r := Residue(p, rest + Concat(chunks)); ZeroHead(p, r) && HeaderLength(p) < |r|
    ensures Fits(p, rest, chunks') && Concat(chunks') == Concat(chunks)
    ensures ZeroReads(p, rest, chunks') != ZeroReads(p, rest, chunks)
    decreases |chunks|
  {
    assert rest + [] == rest;
    assert chunks != [];
    var chunk, later := chunks[0], chunks[1..];
    var rest' := Residue(p, rest + chunk);
    assert chunks == [chunk] + later;
    assert rest + Concat(chunks) == rest + chunk + Concat(later);
    ParseInTwoSteps(p, rest + chunk, Concat(later));
    if !ZeroHead(p, rest') {
      var later' := Resplit(p, rest', later);
      chunks' := [chunk] + later';
      assert chunks'[1..] == later';
    } else {
      ZeroHeadStays(p, rest', later);
      assert Residue(p, rest' + Concat(later)) == rest' + Concat(later);
      chunks' := ResplitHere(p, rest, chunk, later);
    }
  }

  /** With nothing behind a size-zero header, exactly the last read sees it. */
  lemma {:induction false} OneZeroRead(p: Protocol, rest: seq<byte>, chunks: seq<seq<byte>>)
    requires !Consumes(p, rest) && !ZeroHead(p, rest)
    requires Fits(p, rest, chunks)
    requires var r := Residue(p, rest + Concat(chunks)); ZeroHead(p, r) && HeaderLength(p) == |r|
    ensures ZeroReads(p, rest, chunks) == 1
    decreases |chunks|
  {
    assert rest + [] == rest;
    assert chunks != [];
    var chunk, later := chunks[0], chunks[1..];
    var rest' := Residue(p, rest + chunk);
    assert rest + Concat(chunks) == rest + chunk + Concat(later);
    ParseInTwoSteps(p, rest + chunk, Concat(later));
    if !ZeroHead(p, rest') {
      OneZeroRead(p, rest', later);
    } else {
      ZeroHeadStays(p, rest', later);
      FitBehindZero(p, rest', later);
      assert later == [] || |Concat(later)| > 0;
    }
  }

  /** Without bytes behind a size-zero header, any reads dispatch what one parse of the stream does. */
  lemma DispatchedOnce(p: Protocol, chunks: seq<seq<byte>>)
    requires Fits(p, [], chunks)
    requires var r := Residue(p, Concat(chunks)); !(ZeroHead(p, r) && HeaderLength(p) < |r|)
    ensures DispatchedBy(p, [], chunks) == Dispatched(p, Concat(chunks))
  {
    var data := Concat(chunks);
    assert [] + data == data;
    ReadsRefineParse(p, [], chunks);
    if ZeroHead(p, Residue(p, data)) {
      OneZeroRead(p, [], chunks);
      assert Repeat(Head(p, Residue(p, data)), 1) == [Head(p, Residue(p, data))];
    }
  }

  /** Splitting the stream differently never changes what is dispatched. */
  ghost predicate SplitInvariant(p: Protocol, chunks: seq<seq<byte>>) {
    forall chunks' :: Fits(p, [], chunks') && Concat(chunks') == Concat(chunks) ==>
      DispatchedBy(p, [], chunks') == DispatchedBy(p, [], chunks)
  }

  /**
   * The exact condition of that, for every stream that can be read at all (what is read out of the
   * frames is the subject of module Dispatch):
   * dispatch is independent of the split if and only if the stream does not end in a size-zero
   * header with bytes behind it.
   */
  lemma BoundariesIndependentExact(p: Protocol, chunks: seq<seq<byte>>)
    requires Fits(p, [], chunks)
    ensures SplitInvariant(p, chunks) <==>
            !(ZeroHead(p, Residue(p, Concat(chunks))) && HeaderLength(p) < |Residue(p, Concat(chunks))|)
  {
    var data, r := Concat(chunks), Residue(p, Concat(chunks));
    assert [] + data == data;
    ReadsRefineParse(p, [], chunks);
    if ZeroHead(p, r) && HeaderLength(p) < |r| {
      var chunks' := Resplit(p, [], chunks);
      ReadsRefineParse(p, [], chunks');
      assert |DispatchedBy(p, [], chunks')| != |DispatchedBy(p, [], chunks)|;
    } else {
      forall chunks' | Fits(p, [], chunks') && Concat(chunks') == data
        ensures DispatchedBy(p, [], chunks') == DispatchedBy(p, [], chunks)
      {
        DispatchedOnce(p, chunks);
        DispatchedOnce(p, chunks');
      }
    }
  }

  // ---------- Read progress ----------

  /** The size bytes seen so far. */
  function SizeSoFar(rest: seq<byte>): nat {
    FromBytes(rest[..if |rest| < 4 then |rest| else 4])
  }

  /** The size bytes seen so far rule out every size from 1 to the buffer's capacity. */
  predicate BadHead(rest: seq<byte>) {
    CAPACITY < SizeSoFar(rest) || (SizeSoFar(rest) == 0 && 2 <= |rest|)
  }

  lemma {:induction false} FromBytesGrows(a: seq<byte>, b: seq<byte>)
    ensures FromBytes(a) <= FromBytes(a + b)
    decreases |a|
  {
    if a != [] {
      assert (a + b)[1..] == a[1..] + b;
      FromBytesGrows(a[1..], b);
    } else {
      assert a + b == b;
    }
  }

  lemma FromBytesLeadingZeros(a: seq<byte>)
    requires 2 <= |a| && FromBytes(a[..2]) == 0
    ensures FromBytes(a) == 0 || 65536 <= FromBytes(a)
  {
    assert a[..2][1..] == [a[1]] && [a[1]][1..] == [];
    assert FromBytes(a[..2]) == a[0] + 256 * FromBytes([a[1]]);
    assert a[1..][1..] == a[2..];
  }

  lemma {:induction false} FromBytesPadded(a: seq<byte>, n: nat)
    ensures FromBytes(a + Zeros(n)) == FromBytes(a)
    decreases |a|, n
  {
    if a != [] {
      assert (a + Zeros(n))[1..] == a[1..] + Zeros(n);
      FromBytesPadded(a[1..], n);
    } else {
      assert a + Zeros(n) == Zeros(n);
      if n != 0 {
        assert Zeros(n)[1..] == Zeros(n - 1) && [] + Zeros(n - 1) == Zeros(n - 1);
        FromBytesPadded([], n - 1);
      }
    }
  }

  function Zeros(n: nat): (zeros: seq<byte>)
    ensures |zeros| == n
  {
    seq(n, _ => 0)
  }

  /** Whatever follows a bad head, its size field comes out as zero or over the capacity. */
  lemma BadHeadSize(rest: seq<byte>, more: seq<byte>)
    requires BadHead(rest) && 4 <= |rest + more|
    ensures SizeField(rest + more) == 0 || CAPACITY < SizeField(rest + more)
  {
    var data := rest + more;
    var known := rest[..if |rest| < 4 then |rest| else 4];
    WordIsLittleEndian(data, 0);
    assert data[..4] == known + data[|known|..4];
    FromBytesGrows(known, data[|known|..4]);
    if SizeSoFar(rest) == 0 {
      assert known == known[..2] + known[2..];
      FromBytesGrows(known[..2], known[2..]);
      assert data[..4][..2] == known[..2];
      FromBytesLeadingZeros(data[..4]);
    }
  }

  /** A bad head is never consumed, whatever comes after it in the buffer. */
  lemma BadHeadBlocks(p: Protocol, rest: seq<byte>, more: seq<byte>)
    requires BadHead(rest) && |rest + more| <= CAPACITY
    ensures Frames(p, rest + more) == [] && Residue(p, rest + more) == rest + more
  {
    if Complete(p, rest + more) {
      BadHeadSize(rest, more);
    }
  }

  /** Bytes that complete a frame at a head that is not bad. */
  lemma Completion(p: Protocol, rest: seq<byte>) returns (more: seq<byte>)
    requires !Consumes(p, rest) && !BadHead(rest)
    ensures |rest + more| <= CAPACITY && Consumes(p, rest + more)
    ensures more != []
  {
    if 4 <= |rest| {
      WordIsLittleEndian(rest, 0);
      more := Zeros(CAPACITY - |rest|);
    } else {
      var lead := LeadIn(rest);
      var head := rest + lead;
      more := lead + Zeros(CAPACITY - |head|);
      Associate(rest, lead, Zeros(CAPACITY - |head|));
      PaddedSize(head, CAPACITY - |head|);
    }
  }

  /** At most one byte that makes the size a valid one, if zeros follow. */
  lemma LeadIn(rest: seq<byte>) returns (lead: seq<byte>)
    requires |rest| < 4 && !BadHead(rest)
    ensures |rest + lead| <= 4 && 0 < FromBytes(rest + lead) <= CAPACITY
  {
    assert rest[..|rest|] == rest;
    if FromBytes(rest) != 0 {
      lead := [];
      assert rest + lead == rest;
    } else {
      lead := [1];
      assert [1][1..] == [] && FromBytes([1]) == 1;
      if rest == [] {
        assert rest + lead == [1];
      } else {
        assert rest == [rest[0]] && FromBytes(rest) == rest[0] + 256 * FromBytes([]);
        assert (rest + lead)[1..] == [1];
      }
    }
  }

  lemma PaddedSize(head: seq<byte>, n: nat)
    requires |head| <= 4 <= |head| + n
    ensures SizeField(head + Zeros(n)) == FromBytes(head)
  {
    var k := 4 - |head|;
    FromBytesPadded(head, k);
    assert Zeros(n)[..k] == Zeros(k);
    assert (head + Zeros(n))[..4] == head + Zeros(n)[..k];
    WordIsLittleEndian(head + Zeros(n), 0);
  }

  /**
   * Read progress, exactly: what is left in the buffer can still become a frame if and only if
   * its size bytes do not rule out every size from 1 to the capacity.
   */
  lemma ProgressExactly(p: Protocol, rest: seq<byte>)
    requires !Consumes(p, rest) && |rest| <= CAPACITY
    ensures (exists more :: |rest + more| <= CAPACITY && Frames(p, rest + more) != []) <==> !BadHead(rest)
  {
    if BadHead(rest) {
      forall more: seq<byte> | |rest + more| <= CAPACITY
        ensures Frames(p, rest + more) == []
      {
        BadHeadBlocks(p, rest, more);
      }
    } else {
      var more := Completion(p, rest);
      assert Frames(p, rest + more) != [];
    }
  }

  /**
   * The buffer is never full after a call of `process_data`, so that no read of length zero can
   * be taken for a closed peer, unless a bad head fills it.
   */
  lemma FullOnlyBehindBadHead(p: Protocol, rest: seq<byte>)
    requires !Consumes(p, rest)
    ensures CAPACITY <= |rest| ==> BadHead(rest)
    ensures !BadHead(rest) ==>
              |rest| < (if |rest| < HeaderLength(p) || SizeField(rest) < HeaderLength(p)
                        then HeaderLength(p) else SizeField(rest)) <= CAPACITY
  {
    if 4 <= |rest| {
      WordIsLittleEndian(rest, 0);
    }
  }

  /** A stream of whole frames, each of a size from 1 to the capacity. */
  predicate GoodStream(p: Protocol, data: seq<byte>) {
    Residue(p, data) == [] && forall frame :: frame in Frames(p, data) ==> |frame.bytes| <= CAPACITY
  }

  /**
   * Reading a good stream never stalls: after any reads that fitted, the residue leaves room for
   * the next one.
   */
  lemma GoodStreamLeavesRoom(p: Protocol, chunks: seq<seq<byte>>, more: seq<byte>)
    requires GoodStream(p, Concat(chunks) + more)
    ensures |ResidueAfter(p, [], chunks)| < CAPACITY
  {
    var data := Concat(chunks);
    assert [] + data == data;
    ReadsRefineParse(p, [], chunks);
    ParseInTwoSteps(p, data, more);
    var rest := Residue(p, data);
    if BadHead(rest) {
      assert Consumes(p, rest + more);
      BadHeadSize(rest, more);
    }
    FullOnlyBehindBadHead(p, rest);
  }
}
