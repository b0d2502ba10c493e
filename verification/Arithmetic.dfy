/** Facts about multiples, remainders and sequences that the solver does not find by itself. */
module Arithmetic {
  lemma MultiplesApart(q: nat, q': nat, k: nat)
    requires q < q'
    ensures q * k + k <= q' * k
  {
    var d := q' - q - 1;
    assert q' * k == q * k + k + d * k;
    assert 0 <= d * k;
  }

  lemma RemainderUnique(x: nat, q: nat, r: nat, k: nat)
    requires r < k
    requires x == q * k + r
    ensures x % k == r
  {
    var q', r' := x / k, x % k;
    assert x == q' * k + r';
    if q < q' {
      MultiplesApart(q, q', k);
    } else if q' < q {
      MultiplesApart(q', q, k);
    }
  }

  lemma Associate<T>(a: seq<T>, b: seq<T>, c: seq<T>)
    ensures a + (b + c) == a + b + c
  {
  }
}
