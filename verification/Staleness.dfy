/**
 * How far a message that is shorter than its fields can read, and exactly when what is handed over
 * depends on anything but the stream.
 */
module Staleness {
  import opened Types
  import opened Arithmetic
  import opened Framing
  import opened Codec
  import opened Dispatch

  function Max(a: nat, b: nat): nat {
    if a < b then b else a
  }

  // ---------- Where a short message ends ----------

  /** Bytes that must have arrived before the first message is dispatched. */
  function Needed(p: Protocol, data: seq<byte>): nat
    requires HeaderLength(p) <= |data|
  {
    Max(HeaderLength(p), SizeField(data))
  }

  /** Whole messages, and then just as much of a short one as its dispatch waits for. */
  predicate EndsShort(p: Protocol, data: seq<byte>)
    decreases |data|
  {
    && Complete(p, data)
    && ((ShortFrame(p, Head(p, data)) && |data| == Needed(p, data))
        || (0 < SizeField(data) && EndsShort(p, data[SizeField(data)..])))
  }

  lemma FieldsFollowHeader(p: Protocol, kind: Kind)
    ensures HeaderLength(p) < FieldsEnd(p, kind) <= LONGEST
  {
    SizesFit(p, kind);
    var widths := Widths(p, kind);
    assert Sum(widths) == widths[0] + Sum(widths[1..]);
  }

  /** How many bytes of its fields lie behind the end. */
  function Missing(p: Protocol, data: seq<byte>): (n: nat)
    requires EndsShort(p, data)
    ensures 0 < n <= LONGEST
    decreases |data|
  {
    if ShortFrame(p, Head(p, data)) && |data| == Needed(p, data) then
      FieldsFollowHeader(p, KindOf(p, TypeField(p, data)).value);
      FieldsEnd(p, KindOf(p, TypeField(p, data)).value) - |data|
    else Missing(p, data[SizeField(data)..])
  }

  /** The byte that a short message misses last is one that the session sees. */
  lemma {:induction false} LastMissingSeen(p: Protocol, data: seq<byte>, a: seq<byte>, b: seq<byte>)
    requires EndsShort(p, data) && LONGEST <= |a| && LONGEST <= |b|
    requires a[Missing(p, data) - 1] != b[Missing(p, data) - 1]
    ensures Callbacks(p, data, a) != Callbacks(p, data, b)
    decreases |data|
  {
    if ShortFrame(p, Head(p, data)) && |data| == Needed(p, data) {
      var kind := KindOf(p, TypeField(p, data)).value;
      FieldByteDecides(p, kind, data + a, data + b, |data| + Missing(p, data) - 1);
      assert CallbackOn(p, data, a) != CallbackOn(p, data, b);
      assert Callbacks(p, data, a)[0] == CallbackOn(p, data, a) && Callbacks(p, data, b)[0] == CallbackOn(p, data, b);
    } else {
      var later := data[SizeField(data)..];
      LastMissingSeen(p, later, a, b);
      assert Callbacks(p, data, a)[1..] == Callbacks(p, later, a);
      assert Callbacks(p, data, b)[1..] == Callbacks(p, later, b);
    }
  }

  /** No short message among the given bytes reads from `limit` on. */
  ghost predicate Within(p: Protocol, data: seq<byte>, limit: nat) {
    forall n :: 0 <= n <= |data| && EndsShort(p, data[..n]) ==> n + Missing(p, data[..n]) <= limit
  }

  /** As much of a stream as the buffer can hold. */
  function Bufferful(data: seq<byte>): seq<byte> {
    if |data| <= CAPACITY then data else data[..CAPACITY]
  }

  /**
   * Reads can leave a short message so that its last field byte is at or behind `top`, if all before
   * `top` was written by the connection so far. It may be read together with whole messages in front
   * of it, or after these were consumed one by one.
   */
  ghost predicate Uncovered(p: Protocol, data: seq<byte>, top: nat)
    decreases |data|
  {
    || !Within(p, Bufferful(data), top)
    || (Consumes(p, data) && Uncovered(p, data[SizeField(data)..], Max(top, Needed(p, data))))
  }

  // ---------- Stale bytes that are seen ----------

  /** Two connections in step, whose arrays differ everywhere from `top` on. */
  ghost predicate Apart(a: Memory, b: Memory, top: nat) {
    && IsMemory(a) && IsMemory(b) && a.length == b.length && Front(a) == Front(b)
    && forall i :: top <= i < CAPACITY ==> a.buffer[i] != b.buffer[i]
  }

  ghost predicate Differ(a: seq<byte>, b: seq<byte>) {
    |a| == |b| == LONGEST && forall i :: 0 <= i < LONGEST ==> a[i] != b[i]
  }

  /** A read leaves the array behind the received bytes alone. */
  lemma BehindStays(p: Protocol, m: Memory, input: Read)
    requires IsMemory(m) && m.length + |input.chunk| <= CAPACITY
    ensures var end := m.length + |input.chunk|;
            forall i :: end <= i < CAPACITY ==> AfterRead(p, m, input).buffer[i] == m.buffer[i]
  {
  }

  lemma StillApart(p: Protocol, a: Memory, b: Memory, top: nat, chunk: seq<byte>, beyondA: seq<byte>,
                   beyondB: seq<byte>)
    requires Apart(a, b, top) && a.length + |chunk| <= CAPACITY
    ensures Apart(AfterRead(p, a, Read(chunk, beyondA)), AfterRead(p, b, Read(chunk, beyondB)),
                  Max(top, a.length + |chunk|))
  {
    BehindStays(p, a, Read(chunk, beyondA));
    BehindStays(p, b, Read(chunk, beyondB));
  }

  /** A read that ends with a short message whose last field byte lies at or behind `top`. */
  lemma SeenInRead(p: Protocol, a: Memory, b: Memory, top: nat, chunk: seq<byte>, beyondA: seq<byte>,
                   beyondB: seq<byte>)
    requires Apart(a, b, top) && a.length + |chunk| <= CAPACITY && Differ(beyondA, beyondB)
    requires var data := Front(a) + chunk; EndsShort(p, data) && top < |data| + Missing(p, data)
    ensures CallbacksOf(p, a, Read(chunk, beyondA)) != CallbacksOf(p, b, Read(chunk, beyondB))
  {
    var data := Front(a) + chunk;
    ApartBehind(a, b, top, chunk, beyondA, beyondB, Missing(p, data) - 1);
    LastMissingSeen(p, data, Behind(a, Read(chunk, beyondA)), Behind(b, Read(chunk, beyondB)));
  }

  lemma ApartBehind(a: Memory, b: Memory, top: nat, chunk: seq<byte>, beyondA: seq<byte>, beyondB: seq<byte>, k: nat)
    requires Apart(a, b, top) && a.length + |chunk| <= CAPACITY && Differ(beyondA, beyondB)
    requires k < LONGEST && top <= a.length + |chunk| + k
    ensures var behindA, behindB := Behind(a, Read(chunk, beyondA)), Behind(b, Read(chunk, beyondB));
            LONGEST <= |behindA| && LONGEST <= |behindB| && behindA[k] != behindB[k]
  {
    var behindA, behindB := Behind(a, Read(chunk, beyondA)), Behind(b, Read(chunk, beyondB));
    var at := a.length + |chunk| + k;
    assert if at < CAPACITY then behindA[k] == a.buffer[at] && behindB[k] == b.buffer[at]
           else behindA[k] == beyondA[at - CAPACITY] && behindB[k] == beyondB[at - CAPACITY];
  }

  lemma WithBeyondFirst(chunk: seq<byte>, later: seq<seq<byte>>, beyond: seq<byte>)
    ensures WithBeyond([chunk] + later, beyond) == [Read(chunk, beyond)] + WithBeyond(later, beyond)
  {
  }

  lemma FitsFirst(p: Protocol, rest: seq<byte>, chunk: seq<byte>, later: seq<seq<byte>>)
    requires chunk != [] && |rest| + |chunk| <= CAPACITY && Fits(p, Residue(p, rest + chunk), later)
    ensures Fits(p, rest, [chunk] + later) && Concat([chunk] + later) == chunk + Concat(later)
  {
    assert ([chunk] + later)[1..] == later;
  }

  /** Reads after which two connections have not been handed the same. */
  ghost predicate Disagree(p: Protocol, a: Memory, b: Memory, chunks: seq<seq<byte>>, beyondA: seq<byte>,
                           beyondB: seq<byte>)
  {
    && IsMemory(a) && IsMemory(b) && Differ(beyondA, beyondB)
    && Fits(p, Front(a), chunks) && Fits(p, Front(b), chunks)
    && CallbacksBy(p, a, WithBeyond(chunks, beyondA)) != CallbacksBy(p, b, WithBeyond(chunks, beyondB))
  }

  lemma UnequalSums<T>(a: seq<T>, b: seq<T>, c: seq<T>, d: seq<T>)
    requires |a| == |b| && (a != b || c != d)
    ensures a + c != b + d
  {
    assert (a + c)[..|a|] == a && (a + c)[|a|..] == c;
    assert (b + d)[..|b|] == b && (b + d)[|b|..] == d;
  }

  /** A first read in front of reads; connections that then disagree, or have disagreed in it, disagree. */
  lemma DisagreeFirst(p: Protocol, a: Memory, b: Memory, top: nat, chunk: seq<byte>, later: seq<seq<byte>>,
                      beyondA: seq<byte>, beyondB: seq<byte>)
    requires Apart(a, b, top) && Differ(beyondA, beyondB)
    requires chunk != [] && a.length + |chunk| <= CAPACITY && Fits(p, Residue(p, Front(a) + chunk), later)
    requires var inputA, inputB := Read(chunk, beyondA), Read(chunk, beyondB);
             || CallbacksOf(p, a, inputA) != CallbacksOf(p, b, inputB)
             || Disagree(p, AfterRead(p, a, inputA), AfterRead(p, b, inputB), later, beyondA, beyondB)
    ensures Disagree(p, a, b, [chunk] + later, beyondA, beyondB)
  {
    var inputA, inputB := Read(chunk, beyondA), Read(chunk, beyondB);
    FitsFirst(p, Front(a), chunk, later);
    WithBeyondFirst(chunk, later, beyondA);
    WithBeyondFirst(chunk, later, beyondB);
    FirstOfCallbacks(p, a, inputA, WithBeyond(later, beyondA));
    FirstOfCallbacks(p, b, inputB, WithBeyond(later, beyondB));
    CallbacksOfFrames(p, a, inputA);
    CallbacksOfFrames(p, b, inputB);
    assert |FramesOf(CallbacksOf(p, a, inputA))| == |FramesOf(CallbacksOf(p, b, inputB))|;
    UnequalSums(CallbacksOf(p, a, inputA), CallbacksOf(p, b, inputB),
                CallbacksBy(p, AfterRead(p, a, inputA), WithBeyond(later, beyondA)),
                CallbacksBy(p, AfterRead(p, b, inputB), WithBeyond(later, beyondB)));
  }

  /** What is left behind a message that was consumed as soon as it could be. */
  lemma ConsumedAtOnce(p: Protocol, data: seq<byte>)
    requires Consumes(p, data)
    ensures var n, end := SizeField(data), Needed(p, data);
            && end <= |data| && Residue(p, data[..end]) == data[n..end] && |data[n..end]| < HeaderLength(p)
  {
    var n, end := SizeField(data), Needed(p, data);
    HeadFields(p, data, end);
    HeadStays(p, data[..end], data[end..]);
    assert data[..end] + data[end..] == data;
    assert data[..end][n..] == data[n..end];
  }

  lemma SplitAt(data: seq<byte>, held: nat, n: nat, end: nat)
    requires held <= end <= |data| && n <= end
    ensures data[..held] + data[held..] == data
    ensures data[..held] + data[held..end] == data[..end]
    ensures data[held..end] + data[end..] == data[held..]
    ensures data[n..end] + data[end..] == data[n..]
  {
  }

  /** The read that ends with the short message, and then the rest byte by byte. */
  lemma ReadUpToShort(p: Protocol, a: Memory, b: Memory, top: nat, data: seq<byte>, n: nat, beyondA: seq<byte>,
                      beyondB: seq<byte>) returns (chunks: seq<seq<byte>>)
    requires Apart(a, b, top) && Differ(beyondA, beyondB) && Readable(p, data)
    requires a.length < HeaderLength(p) <= n <= |data| && n <= CAPACITY && Front(a) == data[..a.length]
    requires EndsShort(p, data[..n]) && top < n + Missing(p, data[..n])
    ensures Disagree(p, a, b, chunks, beyondA, beyondB) && Concat(chunks) == data[a.length..]
  {
    var chunk, later := data[a.length..n], Singles(data[n..]);
    SplitAt(data, a.length, 0, n);
    ReadableInTwoSteps(p, data[..n], data[n..]);
    SinglesFit(p, Residue(p, data[..n]), data[n..]);
    SeenInRead(p, a, b, top, chunk, beyondA, beyondB);
    DisagreeFirst(p, a, b, top, chunk, later, beyondA, beyondB);
    FitsFirst(p, Front(a), chunk, later);
    chunks := [chunk] + later;
  }

  /** The read that completes the first message and nothing more. */
  lemma ReadOneMessage(p: Protocol, a: Memory, b: Memory, top: nat, data: seq<byte>, beyondA: seq<byte>,
                       beyondB: seq<byte>) returns (a': Memory, b': Memory)
    requires Apart(a, b, top) && Readable(p, data) && Consumes(p, data)
    requires a.length < HeaderLength(p) && Front(a) == data[..a.length]
    ensures var n, end := SizeField(data), Needed(p, data);
            && end <= |data| && end <= CAPACITY
            && a' == AfterRead(p, a, Read(data[a.length..end], beyondA))
            && b' == AfterRead(p, b, Read(data[a.length..end], beyondB))
            && Apart(a', b', Max(top, end)) && Readable(p, data[n..])
            && a'.length < HeaderLength(p) && a'.length <= |data[n..]| && Front(a') == data[n..][..a'.length]
            && Front(a') == Residue(p, data[..end]) && data[n..][a'.length..] == data[end..]
  {
    var n, end := SizeField(data), Needed(p, data);
    ConsumedAtOnce(p, data);
    SplitAt(data, a.length, n, end);
    StillApart(p, a, b, top, data[a.length..end], beyondA, beyondB);
    a' := AfterRead(p, a, Read(data[a.length..end], beyondA));
    b' := AfterRead(p, b, Read(data[a.length..end], beyondB));
    assert data[n..][..end - n] == data[n..end];
  }

  /** If a short message can lie uncovered, some reads let two connections with different stale bytes disagree. */
  lemma {:induction false} ReachStale(p: Protocol, a: Memory, b: Memory, top: nat, data: seq<byte>, beyondA: seq<byte>,
                                      beyondB: seq<byte>) returns (chunks: seq<seq<byte>>)
    requires Apart(a, b, top) && Differ(beyondA, beyondB) && Readable(p, data) && Uncovered(p, data, top)
    requires a.length < HeaderLength(p) && a.length <= |data| && Front(a) == data[..a.length]
    ensures Disagree(p, a, b, chunks, beyondA, beyondB) && Concat(chunks) == data[a.length..]
    decreases |data|
  {
    if !Within(p, Bufferful(data), top) {
      var n :| 0 <= n <= |Bufferful(data)| && EndsShort(p, Bufferful(data)[..n])
               && top < n + Missing(p, Bufferful(data)[..n]);
      assert Bufferful(data)[..n] == data[..n];
      chunks := ReadUpToShort(p, a, b, top, data, n, beyondA, beyondB);
    } else {
      var n, end := SizeField(data), Needed(p, data);
      var a', b' := ReadOneMessage(p, a, b, top, data, beyondA, beyondB);
      var later := ReachStale(p, a', b', Max(top, end), data[n..], beyondA, beyondB);
      DisagreeLater(p, a, b, top, data, end, later, beyondA, beyondB);
      chunks := [data[a.length..end]] + later;
    }
  }

  lemma DisagreeLater(p: Protocol, a: Memory, b: Memory, top: nat, data: seq<byte>, end: nat, later: seq<seq<byte>>,
                      beyondA: seq<byte>, beyondB: seq<byte>)
    requires Apart(a, b, top) && a.length < end <= |data| && end <= CAPACITY && Front(a) == data[..a.length]
    requires var chunk := data[a.length..end];
             Disagree(p, AfterRead(p, a, Read(chunk, beyondA)), AfterRead(p, b, Read(chunk, beyondB)), later, beyondA,
                      beyondB)
    requires Concat(later) == data[end..]
    ensures Disagree(p, a, b, [data[a.length..end]] + later, beyondA, beyondB)
    ensures Concat([data[a.length..end]] + later) == data[a.length..]
  {
    SplitAt(data, a.length, 0, end);
    DisagreeFirst(p, a, b, top, data[a.length..end], later, beyondA, beyondB);
    FitsFirst(p, Front(a), data[a.length..end], later);
  }

  function Ones(n: nat): (ones: seq<byte>)
    ensures |ones| == n
  {
    seq(n, _ => 1)
  }

  /** Two connections over the same reads that are not handed the same. */
  lemma StaleBytesSeen(p: Protocol, data: seq<byte>) returns (x: Execution, y: Execution)
    requires Readable(p, data) && Uncovered(p, data, 0)
    ensures Reading(p, x, data) && Reading(p, y, data) && Chunks(x.inputs) == Chunks(y.inputs)
    ensures Handled(p, x) != Handled(p, y)
  {
    var a, b := Memory(Zeros(CAPACITY), 0), Memory(Ones(CAPACITY), 0);
    assert Front(a) == Front(b) == data[..0];
    var chunks := ReachStale(p, a, b, 0, data, Zeros(LONGEST), Ones(LONGEST));
    x := Execution(Zeros(CAPACITY), WithBeyond(chunks, Zeros(LONGEST)));
    y := Execution(Ones(CAPACITY), WithBeyond(chunks, Ones(LONGEST)));
  }

  // ---------- Stale bytes that are not seen ----------

  /** Two connections in step, whose arrays are the same before `top`. */
  ghost predicate Alike(a: Memory, b: Memory, top: nat) {
    && IsMemory(a) && IsMemory(b) && a.length == b.length <= top <= CAPACITY
    && a.buffer[..top] == b.buffer[..top]
  }

  lemma SameFront(a: Memory, b: Memory, top: nat)
    requires Alike(a, b, top)
    ensures Front(a) == Front(b)
  {
    assert Front(a) == a.buffer[..top][..a.length] && Front(b) == b.buffer[..top][..b.length];
  }

  lemma LaterShort(p: Protocol, data: seq<byte>, n: nat)
    requires Consumes(p, data) && SizeField(data) + n <= |data|
    requires EndsShort(p, data[SizeField(data)..][..n])
    ensures var m := SizeField(data) + n;
            EndsShort(p, data[..m]) && Missing(p, data[..m]) == Missing(p, data[SizeField(data)..][..n])
  {
    var size := SizeField(data);
    var m := size + n;
    HeadStays(p, data[..m], data[m..]);
    assert data[..m] + data[m..] == data;
    assert data[..m][size..] == data[size..][..n];
  }

  lemma WithinLater(p: Protocol, data: seq<byte>, limit: nat)
    requires Consumes(p, data) && Within(p, data, limit)
    ensures Within(p, data[SizeField(data)..], if SizeField(data) <= limit then limit - SizeField(data) else 0)
  {
    var size, later := SizeField(data), data[SizeField(data)..];
    forall n | 0 <= n <= |later| && EndsShort(p, later[..n])
      ensures n + Missing(p, later[..n]) <= if size <= limit then limit - size else 0
    {
      LaterShort(p, data, n);
    }
  }

  /** Callbacks are the same if memory is the same as far as any short message reads. */
  lemma {:induction false} SameAsFarAsRead(p: Protocol, data: seq<byte>, a: seq<byte>, b: seq<byte>, t: nat)
    requires LONGEST <= |a| && LONGEST <= |b| && t <= |a| && t <= |b| && a[..t] == b[..t]
    requires Within(p, data, |data| + t)
    ensures Callbacks(p, data, a) == Callbacks(p, data, b)
    decreases |data|
  {
    if Complete(p, data) {
      SameCallback(p, data, a, b, t);
      if Consumes(p, data) {
        WithinLater(p, data, |data| + t);
        SameAsFarAsRead(p, data[SizeField(data)..], a, b, t);
      }
    }
  }

  lemma SameSlices(data: seq<byte>, a: seq<byte>, b: seq<byte>, t: nat, from: nat, end: nat)
    requires t <= |a| && t <= |b| && a[..t] == b[..t] && from <= end <= |data| + t
    ensures (data + a)[from..end] == (data + b)[from..end]
  {
    SliceBefore(data, a, t, from, end);
    SliceBefore(data, b, t, from, end);
  }

  lemma SliceBefore(data: seq<byte>, a: seq<byte>, t: nat, from: nat, end: nat)
    requires t <= |a| && from <= end <= |data| + t
    ensures (data + a)[from..end] == (data + a[..t])[from..end]
  {
    assert data + a == (data + a[..t]) + a[t..];
  }

  /** Where the fields of a short message at the front end. */
  lemma ShortHeadEnds(p: Protocol, data: seq<byte>)
    requires Complete(p, data) && ShortFrame(p, Head(p, data))
    ensures var n := Needed(p, data);
            && n <= |data| && EndsShort(p, data[..n])
            && n + Missing(p, data[..n]) == FieldsEnd(p, KindOf(p, TypeField(p, data)).value)
  {
    var n := Needed(p, data);
    HeadFields(p, data, n);
    HeadStays(p, data[..n], data[n..]);
    assert data[..n] + data[n..] == data;
  }

  lemma SameCallback(p: Protocol, data: seq<byte>, a: seq<byte>, b: seq<byte>, t: nat)
    requires LONGEST <= |a| && LONGEST <= |b| && t <= |a| && t <= |b| && a[..t] == b[..t]
    requires Complete(p, data) && Within(p, data, |data| + t)
    ensures CallbackOn(p, data, a) == CallbackOn(p, data, b)
  {
    if ShortFrame(p, Head(p, data)) {
      var kind := KindOf(p, TypeField(p, data)).value;
      ShortHeadEnds(p, data);
      SameStruct(p, kind, data, a, b, t);
    } else {
      DeliveredFromFrame(p, data, a);
      DeliveredFromFrame(p, data, b);
    }
  }

  lemma SameStruct(p: Protocol, kind: Kind, data: seq<byte>, a: seq<byte>, b: seq<byte>, t: nat)
    requires t <= |a| && t <= |b| && a[..t] == b[..t] && LONGEST <= |a| && LONGEST <= |b|
    requires FieldsEnd(p, kind) <= |data| + t
    ensures FieldsEnd(p, kind) <= LONGEST
    ensures ReadStruct(p, kind, data + a) == ReadStruct(p, kind, data + b)
  {
    FieldsFollowHeader(p, kind);
    SameSlices(data, a, b, t, HeaderLength(p), FieldsEnd(p, kind));
    StructReadsItsFields(p, kind, data + a, data + b);
  }

  /** The less of the array was written, the more places are uncovered. */
  lemma {:induction false} UncoveredSooner(p: Protocol, data: seq<byte>, top: nat, sooner: nat)
    requires Uncovered(p, data, top) && sooner <= top
    ensures Uncovered(p, data, sooner)
    decreases |data|
  {
    if Within(p, Bufferful(data), top) {
      UncoveredSooner(p, data[SizeField(data)..], Max(top, Needed(p, data)), Max(sooner, Needed(p, data)));
    }
  }

  /** A message that is consumed in a read was written in front of that read's end. */
  lemma {:induction false} CoveredOn(p: Protocol, a: seq<byte>, b: seq<byte>, top: nat)
    requires !Uncovered(p, a + b, top)
    ensures !Uncovered(p, Residue(p, a) + b, Max(top, |a|))
    decreases |a|
  {
    if Consumes(p, a) {
      var n := SizeField(a);
      HeadStays(p, a, b);
      assert (a + b)[n..] == a[n..] + b;
      CoveredOn(p, a[n..], b, Max(top, Needed(p, a)));
      if Uncovered(p, Residue(p, a) + b, Max(top, |a|)) {
        UncoveredSooner(p, Residue(p, a) + b, Max(top, |a|), Max(Max(top, Needed(p, a)), |a[n..]|));
      }
    } else if Uncovered(p, a + b, Max(top, |a|)) {
      UncoveredSooner(p, a + b, Max(top, |a|), top);
    }
  }

  lemma WithinFront(p: Protocol, a: seq<byte>, b: seq<byte>, limit: nat)
    requires |a| <= CAPACITY && Within(p, Bufferful(a + b), limit)
    ensures Within(p, a, limit)
  {
    forall n | 0 <= n <= |a| && EndsShort(p, a[..n])
      ensures n + Missing(p, a[..n]) <= limit
    {
      assert Bufferful(a + b)[..n] == a[..n];
    }
  }

  /** Arrays after a read are the same as far as they were, and as far as the read wrote. */
  lemma StillAlike(p: Protocol, a: Memory, b: Memory, top: nat, x: Read, y: Read)
    requires Alike(a, b, top) && x.chunk == y.chunk && a.length + |x.chunk| <= CAPACITY
    ensures Front(a) == Front(b)
    ensures Alike(AfterRead(p, a, x), AfterRead(p, b, y), Max(top, a.length + |x.chunk|))
  {
    var end := a.length + |x.chunk|;
    SameFront(a, b, top);
    ReplacedFront(a.buffer, b.buffer, top, Front(a) + x.chunk);
    ReplacedFront(Fill(a, x.chunk), Fill(b, y.chunk), Max(top, end), Residue(p, Front(a) + x.chunk));
  }

  /** The same bytes written over the front of two arrays. */
  lemma ReplacedFront(a: seq<byte>, b: seq<byte>, top: nat, front: seq<byte>)
    requires |a| == |b| && top <= |a| && |front| <= |a| && a[..top] == b[..top]
    ensures (front + a[|front|..])[..Max(top, |front|)] == (front + b[|front|..])[..Max(top, |front|)]
  {
    var n := Max(top, |front|);
    forall i | 0 <= i < n
      ensures (front + a[|front|..])[i] == (front + b[|front|..])[i]
    {
      if |front| <= i {
        assert a[i] == a[..top][i] && b[i] == b[..top][i];
      }
    }
  }

  lemma AlikeBehind(a: Memory, b: Memory, top: nat, x: Read, y: Read)
    requires Alike(a, b, top) && x.chunk == y.chunk && a.length + |x.chunk| <= CAPACITY
    ensures var end := a.length + |x.chunk|;
            Behind(a, x)[..Max(top, end) - end] == Behind(b, y)[..Max(top, end) - end]
  {
    var end := a.length + |x.chunk|;
    if end < top {
      FrontBehind(a.buffer, x.beyond, end, top);
      FrontBehind(b.buffer, y.beyond, end, top);
    }
  }

  lemma FrontBehind(buffer: seq<byte>, beyond: seq<byte>, end: nat, n: nat)
    requires end <= n <= |buffer|
    ensures (buffer[end..] + beyond)[..n - end] == buffer[..n][end..]
  {
  }

  lemma AlikeCallbacks(p: Protocol, a: Memory, b: Memory, top: nat, x: Read, y: Read, later: seq<byte>)
    requires Alike(a, b, top) && x.chunk == y.chunk && a.length + |x.chunk| <= CAPACITY
    requires LONGEST <= |x.beyond| && LONGEST <= |y.beyond|
    requires !Uncovered(p, Front(a) + x.chunk + later, top)
    ensures CallbacksOf(p, a, x) == CallbacksOf(p, b, y)
  {
    var data, t := Front(a) + x.chunk, Max(top, a.length + |x.chunk|);
    SameFront(a, b, top);
    AlikeBehind(a, b, top, x, y);
    WithinFront(p, data, later, top);
    SameAsFarAsRead(p, data, Behind(a, x), Behind(b, y), t - |data|);
  }

  lemma StillHidden(p: Protocol, a: Memory, b: Memory, top: nat, x: Read, y: Read, later: seq<byte>)
    requires Alike(a, b, top) && x.chunk == y.chunk && a.length + |x.chunk| <= CAPACITY
    requires LONGEST <= |x.beyond| && LONGEST <= |y.beyond|
    requires !Uncovered(p, Front(a) + x.chunk + later, top)
    ensures CallbacksOf(p, a, x) == CallbacksOf(p, b, y)
    ensures var a', b', top' := AfterRead(p, a, x), AfterRead(p, b, y), Max(top, a.length + |x.chunk|);
            Alike(a', b', top') && !Uncovered(p, Front(a') + later, top')
  {
    AlikeCallbacks(p, a, b, top, x, y, later);
    StillAlike(p, a, b, top, x, y);
    CoveredOn(p, Front(a) + x.chunk, later, top);
  }

  lemma BothFirst(p: Protocol, a: Memory, b: Memory, inputs: seq<Read>, inputs': seq<Read>)
    requires IsMemory(a) && IsMemory(b) && Chunks(inputs) == Chunks(inputs') && inputs != []
    requires Fitting(p, Front(a), inputs) && Fitting(p, Front(b), inputs')
    ensures inputs' != []
    ensures var x, y := inputs[0], inputs'[0];
            && x.chunk == y.chunk && Chunks(inputs[1..]) == Chunks(inputs'[1..])
            && a.length + |x.chunk| <= CAPACITY && b.length + |y.chunk| <= CAPACITY
            && LONGEST <= |x.beyond| && LONGEST <= |y.beyond|
            && Fitting(p, Front(AfterRead(p, a, x)), inputs[1..])
            && Fitting(p, Front(AfterRead(p, b, y)), inputs'[1..])
            && Front(a) + Concat(Chunks(inputs)) == Front(a) + x.chunk + Concat(Chunks(inputs[1..]))
            && CallbacksBy(p, a, inputs) == CallbacksOf(p, a, x) + CallbacksBy(p, AfterRead(p, a, x), inputs[1..])
            && CallbacksBy(p, b, inputs') == CallbacksOf(p, b, y) + CallbacksBy(p, AfterRead(p, b, y), inputs'[1..])
  {
    FittingFirst(p, Front(a), inputs);
    FittingFirst(p, Front(b), inputs');
    assert Chunks(inputs)[1..] == Chunks(inputs[1..]) && Chunks(inputs')[1..] == Chunks(inputs'[1..]);
    Associate(Front(a), inputs[0].chunk, Concat(Chunks(inputs[1..])));
  }

  /** Connections in step are handed the same if no short message can lie uncovered. */
  lemma {:induction false} StaleBytesHidden(p: Protocol, a: Memory, b: Memory, top: nat, inputs: seq<Read>,
                                            inputs': seq<Read>)
    requires Alike(a, b, top) && Chunks(inputs) == Chunks(inputs')
    requires Fitting(p, Front(a), inputs) && Fitting(p, Front(b), inputs')
    requires !Uncovered(p, Front(a) + Concat(Chunks(inputs)), top)
    ensures CallbacksBy(p, a, inputs) == CallbacksBy(p, b, inputs')
    decreases |inputs|
  {
    if inputs != [] {
      var x, y := inputs[0], inputs'[0];
      var later := Concat(Chunks(inputs[1..]));
      BothFirst(p, a, b, inputs, inputs');
      StillHidden(p, a, b, top, x, y, later);
      StaleBytesHidden(p, AfterRead(p, a, x), AfterRead(p, b, y), Max(top, a.length + |x.chunk|), inputs[1..],
                       inputs'[1..]);
    }
  }

  /** For each split, what is handed over does not depend on stale bytes. */
  ghost predicate Sealed(p: Protocol, data: seq<byte>) {
    forall x, y :: Reading(p, x, data) && Reading(p, y, data) && Chunks(x.inputs) == Chunks(y.inputs) ==>
      Handled(p, x) == Handled(p, y)
  }

  /** Stale bytes are never seen, whatever the split, if and only if no reads can leave a short message uncovered. */
  lemma SealedExactly(p: Protocol, data: seq<byte>)
    requires Readable(p, data)
    ensures Sealed(p, data) <==> !Uncovered(p, data, 0)
  {
    if Uncovered(p, data, 0) {
      var x, y := StaleBytesSeen(p, data);
    } else {
      forall x, y | Reading(p, x, data) && Reading(p, y, data) && Chunks(x.inputs) == Chunks(y.inputs)
        ensures Handled(p, x) == Handled(p, y)
      {
        var a, b := Memory(x.buffer, 0), Memory(y.buffer, 0);
        assert [] + data == data;
        assert Front(a) == [] == Front(b);
        StaleBytesHidden(p, a, b, 0, x.inputs, y.inputs);
      }
    }
  }

  // ---------- The stream alone ----------

  /** Where the first short message ends, as far as its dispatch waits for it. */
  function ShortEnd(p: Protocol, data: seq<byte>): Option<nat>
    decreases |data|
  {
    if !Complete(p, data) then None
    else if ShortFrame(p, Head(p, data)) then Some(Needed(p, data))
    else if SizeField(data) == 0 then None
    else
      match ShortEnd(p, data[SizeField(data)..])
      case None => None
      case Some(end) => Some(SizeField(data) + end)
  }

  /** A stream is clean if it has no short message and nothing behind a header of size zero. */
  lemma {:induction false} CleanByEnd(p: Protocol, data: seq<byte>)
    ensures Clean(p, data) <==>
            ShortEnd(p, data).None? && !(ZeroHead(p, Residue(p, data)) && HeaderLength(p) < |Residue(p, data)|)
    decreases |data|
  {
    if Consumes(p, data) {
      CleanByEnd(p, data[SizeField(data)..]);
      CleanFirst(p, data);
    } else if ZeroHead(p, data) {
      assert Dispatched(p, data) == [Head(p, data)];
    }
  }

  lemma EndStep(p: Protocol, data: seq<byte>)
    requires ShortEnd(p, data).Some?
    ensures Complete(p, data)
    ensures ShortFrame(p, Head(p, data)) ==> ShortEnd(p, data).value == Needed(p, data) <= LONGEST
    ensures !ShortFrame(p, Head(p, data)) ==>
              && Consumes(p, data) && ShortEnd(p, data[SizeField(data)..]).Some?
              && ShortEnd(p, data).value == SizeField(data) + ShortEnd(p, data[SizeField(data)..]).value
  {
    if ShortFrame(p, Head(p, data)) {
      FieldsFollowHeader(p, KindOf(p, TypeField(p, data)).value);
    }
  }

  lemma {:induction false} EndIsShort(p: Protocol, data: seq<byte>)
    requires ShortEnd(p, data).Some?
    ensures ShortEnd(p, data).value <= |data| && EndsShort(p, data[..ShortEnd(p, data).value])
    decreases |data|
  {
    EndStep(p, data);
    if ShortFrame(p, Head(p, data)) {
      ShortHeadEnds(p, data);
    } else {
      var later := data[SizeField(data)..];
      EndIsShort(p, later);
      LaterShort(p, data, ShortEnd(p, later).value);
    }
  }

  /** The messages before the first short one fill at most half of the buffer each. */
  predicate HalfFilling(p: Protocol, data: seq<byte>)
    decreases |data|
  {
    Consumes(p, data) && !ShortFrame(p, Head(p, data)) ==>
      2 * SizeField(data) <= CAPACITY && HalfFilling(p, data[SizeField(data)..])
  }

  /** The first short message, if any, ends within one buffer, or nothing before it fills more than half of one. */
  predicate Moderate(p: Protocol, data: seq<byte>) {
    match ShortEnd(p, data)
    case None => true
    case Some(end) => end <= CAPACITY || HalfFilling(p, data)
  }

  lemma EndUncovered(p: Protocol, data: seq<byte>, top: nat)
    requires ShortEnd(p, data).Some? && top <= ShortEnd(p, data).value <= CAPACITY
    ensures Uncovered(p, data, top)
  {
    var end := ShortEnd(p, data).value;
    EndIsShort(p, data);
    assert Bufferful(data)[..end] == data[..end];
  }

  /** Messages of at most half a buffer are consumed one by one until the short one fits behind what they wrote. */
  lemma {:induction false} ShortIsUncovered(p: Protocol, data: seq<byte>, top: nat)
    requires ShortEnd(p, data).Some? && HalfFilling(p, data) && 2 * top <= CAPACITY
    requires ShortEnd(p, data).value <= CAPACITY ==> top <= ShortEnd(p, data).value
    ensures Uncovered(p, data, top)
    decreases |data|
  {
    EndStep(p, data);
    if ShortEnd(p, data).value <= CAPACITY {
      EndUncovered(p, data, top);
    } else {
      ShortIsUncovered(p, data[SizeField(data)..], Max(top, Needed(p, data)));
      UncoveredLater(p, data, top);
    }
  }

  lemma UncoveredLater(p: Protocol, data: seq<byte>, top: nat)
    requires Consumes(p, data) && Uncovered(p, data[SizeField(data)..], Max(top, Needed(p, data)))
    ensures Uncovered(p, data, top)
  {
  }

  /**
   * Exactly: what the callbacks read is a function of the stream alone, for every split and all stale
   * bytes, if and only if no session message is shorter than its fields and no size-zero header has
   * bytes behind it.
   */
  lemma SettledExactly(p: Protocol, data: seq<byte>)
    requires Readable(p, data) && Moderate(p, data)
    ensures Settled(p, data) <==> Clean(p, data)
  {
    CleanByEnd(p, data);
    if Clean(p, data) {
      CleanIsSettled(p, data);
    } else if ShortEnd(p, data).None? {
      ZeroHeadUnsettled(p, data);
    } else {
      if ShortEnd(p, data).value <= CAPACITY {
        EndUncovered(p, data, 0);
      } else {
        ShortIsUncovered(p, data, 0);
      }
      var x, y := StaleBytesSeen(p, data);
    }
  }

  /** The same for every connection that begins with one of the stream's messages. */
  ghost predicate SettledThroughout(p: Protocol, data: seq<byte>)
    decreases |data|
  {
    Settled(p, data) && (Consumes(p, data) ==> SettledThroughout(p, data[SizeField(data)..]))
  }

  /**
   * The same for streams of any messages: nothing else decides, whichever message the connection
   * begins with, if and only if the stream is clean.
   */
  lemma {:induction false} StreamAloneDecides(p: Protocol, data: seq<byte>)
    requires Readable(p, data)
    ensures SettledThroughout(p, data) <==> Clean(p, data)
    decreases |data|
  {
    if !Consumes(p, data) {
      EndModerate(p, data);
      SettledExactly(p, data);
    } else {
      StreamAloneDecides(p, data[SizeField(data)..]);
      CleanFirst(p, data);
      if ShortFrame(p, Head(p, data)) {
        EndModerate(p, data);
        SettledExactly(p, data);
      } else if Clean(p, data) {
        CleanIsSettled(p, data);
      }
    }
  }

  lemma EndModerate(p: Protocol, data: seq<byte>)
    requires Consumes(p, data) ==> ShortFrame(p, Head(p, data))
    ensures Moderate(p, data)
  {
    if ShortEnd(p, data).Some? {
      EndStep(p, data);
    }
  }

  // ---------- A message that fills the buffer ----------

  /** A message as long as the buffer. */
  predicate Full(p: Protocol, data: seq<byte>) {
    Complete(p, data) && SizeField(data) == |data| == CAPACITY && !ShortFrame(p, Head(p, data))
  }

  /** As much of a short message as its dispatch waits for. */
  predicate JustShort(p: Protocol, data: seq<byte>) {
    Consumes(p, data) && ShortFrame(p, Head(p, data)) && |data| == Needed(p, data)
  }

  predicate FullAndShort(p: Protocol, full: seq<byte>, short: seq<byte>) {
    Full(p, full) && JustShort(p, short) && |short| <= CAPACITY
  }

  /** Said of any bytes equal to these, so that only proofs that name such bytes look inside. */
  ghost predicate Follows(p: Protocol, full: seq<byte>, short: seq<byte>) {
    forall a, b :: a == full && b == short ==> FullAndShort(p, a, b)
  }

  /** Nothing is dispatched before all of it has arrived. */
  ghost predicate Waits(p: Protocol, whole: seq<byte>) {
    forall n :: 0 <= n < |whole| ==> !Complete(p, whole[..n])
  }

  lemma BothWait(p: Protocol, full: seq<byte>, short: seq<byte>)
    requires Follows(p, full, short)
    ensures |full| == CAPACITY && 0 < |short| <= CAPACITY && Waits(p, full) && Waits(p, short)
  {
    assert FullAndShort(p, full, short);
    forall n | 0 <= n < |full|
      ensures !Complete(p, full[..n])
    {
      FrontOf(p, full, n);
    }
    forall n | 0 <= n < |short|
      ensures !Complete(p, short[..n])
    {
      FrontOf(p, short, n);
    }
  }

  lemma FrontOf(p: Protocol, whole: seq<byte>, n: nat)
    requires n < |whole| && Complete(p, whole) && |whole| == Needed(p, whole)
    ensures !Complete(p, whole[..n])
  {
    if HeaderLength(p) <= n {
      HeadStays(p, whole[..n], whole[n..]);
      assert whole[..n] + whole[n..] == whole;
    }
  }

  /** What a read has brought of a stream that is known. */
  lemma PartOf(whole: seq<byte>, later: seq<byte>, held: nat, chunk: seq<byte>, rest: seq<byte>)
    requires held <= |whole| && chunk + rest == whole[held..] + later && held + |chunk| <= |whole|
    ensures var n := held + |chunk|; whole[..held] + chunk == whole[..n] && rest == whole[n..] + later
  {
    var n := held + |chunk|;
    assert chunk == (chunk + rest)[..|chunk|] && rest == (chunk + rest)[|chunk|..];
    assert chunk == (whole[held..] + later)[..|chunk|] == whole[held..n];
    assert (whole[held..] + later)[|chunk|..] == whole[n..] + later;
  }

  /** The short message is read over the full one's bytes. */
  function Hidden(p: Protocol, full: seq<byte>, short: seq<byte>): Callback
    requires Follows(p, full, short)
  {
    assert FullAndShort(p, full, short);
    CallbackOn(p, short, full[|short|..] + Zeros(LONGEST))
  }

  /** A read that stops before the end of the message dispatches nothing. */
  lemma PartRead(p: Protocol, m: Memory, x: Read, whole: seq<byte>)
    requires IsMemory(m) && Waits(p, whole) && LONGEST <= |x.beyond|
    requires m.length + |x.chunk| < |whole| && m.length + |x.chunk| <= CAPACITY
    requires Front(m) + x.chunk == whole[..m.length + |x.chunk|]
    ensures var n := m.length + |x.chunk|;
            && CallbacksOf(p, m, x) == [] && AfterRead(p, m, x) == Memory(whole[..n] + m.buffer[n..], n)
            && Front(AfterRead(p, m, x)) == whole[..n] && AfterRead(p, m, x).buffer[n..] == m.buffer[n..]
  {
    var n := m.length + |x.chunk|;
    assert !Complete(p, whole[..n]);
    assert Fill(m, x.chunk) == whole[..n] + m.buffer[n..];
  }

  lemma PartOfShort(p: Protocol, m: Memory, x: Read, full: seq<byte>, short: seq<byte>)
    requires Follows(p, full, short) && IsMemory(m) && LONGEST <= |x.beyond|
    requires m.length + |x.chunk| < |short| && m.length + |x.chunk| <= CAPACITY
    requires Front(m) + x.chunk == short[..m.length + |x.chunk|]
    ensures var n, m' := m.length + |x.chunk|, AfterRead(p, m, x);
            CallbacksOf(p, m, x) == [] && m'.length == n && Front(m') == short[..n] && m'.buffer[n..] == m.buffer[n..]
  {
    BothWait(p, full, short);
    PartRead(p, m, x, short);
  }

  lemma PartOfFull(p: Protocol, m: Memory, x: Read, full: seq<byte>, short: seq<byte>)
    requires Follows(p, full, short) && IsMemory(m) && LONGEST <= |x.beyond|
    requires m.length + |x.chunk| < |full| && m.length + |x.chunk| <= CAPACITY
    requires Front(m) + x.chunk == full[..m.length + |x.chunk|]
    ensures var n, m' := m.length + |x.chunk|, AfterRead(p, m, x);
            CallbacksOf(p, m, x) == [] && m'.length == n && Front(m') == full[..n]
  {
    BothWait(p, full, short);
    PartRead(p, m, x, full);
  }

  /** The read that completes the short message. */
  lemma ShortRead(p: Protocol, m: Memory, x: Read, full: seq<byte>, short: seq<byte>)
    requires Follows(p, full, short) && IsMemory(m) && LONGEST <= |x.beyond|
    requires m.length + |x.chunk| == |short| <= CAPACITY == |full| && Front(m) + x.chunk == short
    requires m.buffer[|short|..] == full[|short|..]
    ensures CallbacksOf(p, m, x) == [Hidden(p, full, short)]
  {
    assert FullAndShort(p, full, short);
    var n := |short|;
    var behind, behind' := Behind(m, x), full[n..] + Zeros(LONGEST);
    assert behind[..CAPACITY - n] == full[n..] == behind'[..CAPACITY - n];
    SameStruct(p, KindOf(p, TypeField(p, short)).value, short, behind, behind', CAPACITY - n);
    NothingBehind(p, short, behind);
  }

  lemma NothingBehind(p: Protocol, whole: seq<byte>, behind: seq<byte>)
    requires (Full(p, whole) || JustShort(p, whole)) && LONGEST <= |behind|
    ensures Callbacks(p, whole, behind) == [CallbackOn(p, whole, behind)]
  {
    assert !Complete(p, whole[SizeField(whole)..]);
  }

  /** The short message arrives, in any split, over an array that holds the full one's bytes. */
  lemma {:induction false} ShortArrives(p: Protocol, m: Memory, inputs: seq<Read>, full: seq<byte>, short: seq<byte>)
    requires Follows(p, full, short) && IsMemory(m) && m.length < |short| <= CAPACITY == |full|
    requires Front(m) == short[..m.length] && m.buffer[m.length..] == full[m.length..]
    requires Fitting(p, Front(m), inputs) && Concat(Chunks(inputs)) == short[m.length..]
    ensures CallbacksBy(p, m, inputs) == [Hidden(p, full, short)]
    decreases |inputs|
  {
    var x, rest := inputs[0], Concat(Chunks(inputs[1..]));
    var n := m.length + |x.chunk|;
    FirstPart(p, m, inputs, short, []);
    SameTail(m.buffer, full, m.length, n);
    if n < |short| {
      PartOfShort(p, m, x, full, short);
      ShortArrives(p, AfterRead(p, m, x), inputs[1..], full, short);
    } else {
      LastRead(p, m, x, full, short);
    }
  }

  lemma LastRead(p: Protocol, m: Memory, x: Read, full: seq<byte>, short: seq<byte>)
    requires Follows(p, full, short) && IsMemory(m) && LONGEST <= |x.beyond|
    requires m.length + |x.chunk| == |short| <= CAPACITY == |full| && Front(m) + x.chunk == short[..|short|]
    requires m.buffer[|short|..] == full[|short|..]
    ensures CallbacksOf(p, m, x) + CallbacksBy(p, AfterRead(p, m, x), []) == [Hidden(p, full, short)]
  {
    assert short[..|short|] == short;
    ShortRead(p, m, x, full, short);
  }

  lemma SameTail(a: seq<byte>, b: seq<byte>, from: nat, n: nat)
    requires |a| == |b| && from <= n <= |a| && a[from..] == b[from..]
    ensures a[n..] == b[n..]
  {
    assert a[n..] == a[from..][n - from..] && b[n..] == b[from..][n - from..];
  }

  /** The first of the reads that bring the rest of a message and what follows it. */
  lemma FirstPart(p: Protocol, m: Memory, inputs: seq<Read>, whole: seq<byte>, later: seq<byte>)
    requires IsMemory(m) && m.length < |whole| <= CAPACITY && Front(m) == whole[..m.length]
    requires Fitting(p, Front(m), inputs) && Concat(Chunks(inputs)) == whole[m.length..] + later
    requires later == [] || |whole| == CAPACITY
    ensures inputs != []
    ensures var x, rest := inputs[0], Concat(Chunks(inputs[1..]));
            var n := m.length + |x.chunk|;
            && x.chunk != [] && n <= |whole| && LONGEST <= |x.beyond|
            && Front(m) + x.chunk == whole[..n] && rest == whole[n..] + later
            && Fitting(p, Front(AfterRead(p, m, x)), inputs[1..])
            && (rest == [] ==> inputs[1..] == [])
            && CallbacksBy(p, m, inputs) ==
               CallbacksOf(p, m, x) + CallbacksBy(p, AfterRead(p, m, x), inputs[1..])
  {
    FittingFirst(p, Front(m), inputs);
    var x, rest := inputs[0], Concat(Chunks(inputs[1..]));
    PartOf(whole, later, m.length, x.chunk, rest);
    if inputs[1..] != [] {
      FittingFirst(p, Front(AfterRead(p, m, x)), inputs[1..]);
    }
  }

  /** The read that completes the full message leaves exactly its bytes in the array. */
  lemma FullRead(p: Protocol, m: Memory, x: Read, full: seq<byte>)
    requires Full(p, full) && IsMemory(m) && LONGEST <= |x.beyond|
    requires m.length + |x.chunk| == CAPACITY && Front(m) + x.chunk == full
    ensures CallbacksOf(p, m, x) == [Callback(Head(p, full), FrameDelivery(p, Head(p, full)))]
    ensures AfterRead(p, m, x) == Memory(full, 0) && Front(Memory(full, 0)) == []
  {
    NothingBehind(p, full, Behind(m, x));
    DeliveredFromFrame(p, full, Behind(m, x));
    assert full[CAPACITY..] == [] && Residue(p, full) == [];
    assert Fill(m, x.chunk) == full && [] + full[0..] == full;
  }

  /** The full message in front of the short one. */
  function Large(p: Protocol, full: seq<byte>, short: seq<byte>): Callback
    requires Follows(p, full, short)
  {
    assert FullAndShort(p, full, short);
    Callback(Head(p, full), FrameDelivery(p, Head(p, full)))
  }

  /** A full message and a short one are handed over in the same way under every split. */
  lemma {:induction false} FullThenShort(p: Protocol, m: Memory, inputs: seq<Read>, full: seq<byte>, short: seq<byte>)
    requires Follows(p, full, short) && |full| == CAPACITY && 0 < |short| <= CAPACITY
    requires IsMemory(m) && m.length < CAPACITY && Front(m) == full[..m.length]
    requires Fitting(p, Front(m), inputs) && Concat(Chunks(inputs)) == full[m.length..] + short
    ensures CallbacksBy(p, m, inputs) == [Large(p, full, short), Hidden(p, full, short)]
    decreases |inputs|
  {
    var x := inputs[0];
    FirstPart(p, m, inputs, full, short);
    if m.length + |x.chunk| < CAPACITY {
      PartOfFull(p, m, x, full, short);
      FullThenShort(p, AfterRead(p, m, x), inputs[1..], full, short);
    } else {
      ShortAfterFull(p, m, x, inputs[1..], full, short);
    }
  }

  lemma FullReadFirst(p: Protocol, m: Memory, x: Read, full: seq<byte>, short: seq<byte>)
    requires Follows(p, full, short) && |full| == CAPACITY && IsMemory(m) && LONGEST <= |x.beyond|
    requires m.length + |x.chunk| == CAPACITY && Front(m) + x.chunk == full[..CAPACITY]
    ensures CallbacksOf(p, m, x) == [Large(p, full, short)]
    ensures AfterRead(p, m, x) == Memory(full, 0) && Front(Memory(full, 0)) == []
  {
    assert FullAndShort(p, full, short);
    assert full[..CAPACITY] == full;
    FullRead(p, m, x, full);
  }

  lemma ShortAfterFull(p: Protocol, m: Memory, x: Read, later: seq<Read>, full: seq<byte>, short: seq<byte>)
    requires Follows(p, full, short) && |full| == CAPACITY && 0 < |short| <= CAPACITY
    requires IsMemory(m) && m.length + |x.chunk| == CAPACITY && LONGEST <= |x.beyond|
    requires Front(m) + x.chunk == full[..CAPACITY] && Concat(Chunks(later)) == full[CAPACITY..] + short
    requires Fitting(p, Front(AfterRead(p, m, x)), later)
    ensures CallbacksOf(p, m, x) == [Large(p, full, short)]
    ensures CallbacksBy(p, AfterRead(p, m, x), later) == [Hidden(p, full, short)]
  {
    FullReadFirst(p, m, x, full, short);
    assert full[CAPACITY..] == [] && [] + short == short;
    assert full[0..] == full && short[0..] == short && short[..0] == [];
    ShortArrives(p, Memory(full, 0), later, full, short);
  }

  /**
   * Behind a message that fills the whole buffer even a short one is the same for every split: no
   * stale byte is left that the stream did not bring.
   */
  lemma FullMessageHides(p: Protocol, full: seq<byte>, short: seq<byte>)
    requires Full(p, full) && JustShort(p, short) && |short| <= CAPACITY
    ensures Readable(p, full + short) && Settled(p, full + short) && !Clean(p, full + short)
  {
    var data := full + short;
    HeadStays(p, full, short);
    assert data[CAPACITY..] == short;
    assert !Consumes(p, short[SizeField(short)..]);
    CleanByEnd(p, data);
    FullThenShortSettled(p, full, short);
  }

  lemma FullThenShortSettled(p: Protocol, full: seq<byte>, short: seq<byte>)
    requires Follows(p, full, short)
    ensures Settled(p, full + short)
  {
    BothWait(p, full, short);
    forall x, y | Reading(p, x, full + short) && Reading(p, y, full + short)
      ensures Handled(p, x) == Handled(p, y)
    {
      FullThenShort(p, Memory(x.buffer, 0), x.inputs, full, short);
      FullThenShort(p, Memory(y.buffer, 0), y.inputs, full, short);
    }
  }
}
