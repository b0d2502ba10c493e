/** The shared id counter and the narrowing of its 64-bit ids to 32-bit wire fields. */
module WireIds {
  import opened Types
  import opened Arithmetic

  /** Value drawn after `uid`; the unsigned counter wraps. */
  function NextUid(uid: uint64): uint64 {
    (uid + 1) % TWO64
  }

  class UIDGenerator {
    var uid: uint64

    constructor ()
      ensures uid == 0
    {
      uid := 0;
    }

    method GetNextUid() returns (next: uint64)
      modifies this
      ensures next == uid == NextUid(old(uid))
    {
      uid := NextUid(uid);
      next := uid;
    }
  }

  /** Assignment of an unsigned value to an `int` field. */
  function Narrow(x: uint64): int32 {
    var m := x % TWO32;
    if m < TWO31 then m else m - TWO32
  }

  /** Conversion of an `int` field to a `uint64_t` map key: sign extension. */
  function Widen(c: int32): uint64 {
    if c < 0 then c + TWO64 else c
  }

  /** Conversion of an `int` field to `uint32_t`. */
  function ToUint32(c: int32): uint32 {
    if c < 0 then c + TWO32 else c
  }

  /** Value of the n-th draw of a counter that started at zero. */
  function Draw(n: nat): uint64 {
    n % TWO64
  }

  /** A stored key narrows back to the wire field it came from, so field o repeats c. */
  lemma NarrowWiden(c: int32)
    ensures Narrow(Widen(c)) == c
  {
    if c < 0 {
      assert (c + TWO64) % TWO32 == c + TWO32;
    }
  }

  lemma WidenInjective(c: int32, e: int32)
    requires Widen(c) == Widen(e)
    ensures c == e
  {
  }

  /** 32-bit payload fields survive the trip through a signed wire field. */
  lemma PayloadRoundTrip(x: uint32)
    ensures ToUint32(Narrow(x)) == x
  {
    assert x % TWO32 == x;
  }

  lemma NarrowAgrees(x: uint64, y: uint64)
    ensures Narrow(x) == Narrow(y) <==> x % TWO32 == y % TWO32
  {
  }

  lemma DrawModulo(n: nat)
    ensures Draw(n) % TWO32 == n % TWO32
  {
    var q, q', r := n / TWO64, Draw(n) / TWO32, Draw(n) % TWO32;
    assert n == q * TWO64 + Draw(n) && Draw(n) == q' * TWO32 + r;
    RemainderUnique(n, q * TWO32 + q', r, TWO32);
  }

  lemma CongruentDifference(n: nat, m: nat)
    requires n <= m
    ensures n % TWO32 == m % TWO32 <==> (m - n) % TWO32 == 0
  {
    assert m % TWO32 == ((m - n) % TWO32 + n % TWO32) % TWO32;
  }

  /**
   * Two draws share a wire id exactly when they are a multiple of 2^32 draws apart,
   * also when the 64-bit counter wraps between them.
   */
  lemma WireIdClash(n: nat, m: nat)
    requires n <= m
    ensures Widen(Narrow(Draw(n))) == Widen(Narrow(Draw(m))) <==> (m - n) % TWO32 == 0
  {
    NarrowAgrees(Draw(n), Draw(m));
    DrawModulo(n);
    DrawModulo(m);
    CongruentDifference(n, m);
  }

  /** Wire ids of any 2^32 consecutive draws are pairwise distinct. */
  lemma WireIdsDistinct(n: nat, m: nat)
    requires n < m < n + TWO32
    ensures Narrow(Draw(n)) != Narrow(Draw(m))
    ensures Widen(Narrow(Draw(n))) != Widen(Narrow(Draw(m)))
  {
    WireIdClash(n, m);
    assert (m - n) % TWO32 == m - n;
  }
}
