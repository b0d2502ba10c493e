/** The slot search of the round-robin router and what it guarantees over time. */
module RoundRobin {
  import opened Types
  import opened Arithmetic

  /** `(index_ + 1) % destinations_.size()` */
  function Advance(index: nat, n: nat): (next: nat)
    requires index < n
    ensures next == if index + 1 == n then 0 else index + 1
  {
    (index + 1) % n
  }

  /** At most `tries` further slots are probed, starting after `index`. */
  function Search(links: seq<bool>, index: nat, tries: nat): Option<nat>
    requires tries == 0 || index < |links|
    decreases tries
  {
    if tries == 0 then None
    else
      var i := Advance(index, |links|);
      if links[i] then Some(i) else Search(links, i, tries - 1)
  }

  /** Slot that takes the next first event, if any slot is connected. */
  function NextConnected(links: seq<bool>, index: nat): Option<nat>
    requires links == [] || index < |links|
  {
    Search(links, index, |links|)
  }

  /** Slot q is probed after `index` and before p. */
  predicate Between(index: nat, q: nat, p: nat) {
    if index < p then index < q < p else index < q || q < p
  }

  /** Slots not probed yet when k of |links| probes are left. */
  predicate Probed(n: nat, index: nat, q: nat, k: nat) {
    index < q <= index + k || q + n <= index + k
  }

  /** p is connected and everything probed before it is not. */
  ghost predicate IsNext(links: seq<bool>, index: nat, p: nat) {
    && p < |links| && links[p]
    && forall q :: 0 <= q < |links| && Between(index, q, p) ==> !links[q]
  }

  lemma {:induction false} SearchMeaning(links: seq<bool>, index: nat, tries: nat)
    requires index < |links|
    requires tries <= |links|
    ensures match Search(links, index, tries)
            case None => forall q :: 0 <= q < |links| && Probed(|links|, index, q, tries) ==> !links[q]
            case Some(p) => IsNext(links, index, p) && Probed(|links|, index, p, tries)
    decreases tries
  {
    if tries != 0 {
      var i := Advance(index, |links|);
      if !links[i] {
        SearchMeaning(links, i, tries - 1);
        var r := Search(links, i, tries - 1);
        if r.Some? {
          forall q | 0 <= q < |links| && Between(index, q, r.value)
            ensures !links[q]
          {
            assert q == i || Between(i, q, r.value);
          }
        } else {
          forall q | 0 <= q < |links| && Probed(|links|, index, q, tries)
            ensures !links[q]
          {
            assert q == i || Probed(|links|, i, q, tries - 1);
          }
        }
      }
    }
  }

  /**
   * Search completeness: nothing is found exactly when every slot is down, and otherwise
   * the result is the first connected slot met when going round from `index`.
   */
  lemma NextConnectedMeaning(links: seq<bool>, index: nat)
    requires links == [] || index < |links|
    ensures NextConnected(links, index).None? <==> forall q :: 0 <= q < |links| ==> !links[q]
    ensures forall p: nat ::
              NextConnected(links, index) == Some(p) <==> IsNext(links, index, p)
  {
    if links != [] {
      SearchMeaning(links, index, |links|);
      var r := NextConnected(links, index);
      if r.None? {
        forall q | 0 <= q < |links|
          ensures !links[q]
        {
          assert Probed(|links|, index, q, |links|);
        }
      } else {
        var v := r.value;
        forall p: nat | IsNext(links, index, p)
          ensures p == v
        {
          assert p == v || Between(index, p, v) || Between(index, v, p);
        }
      }
    }
  }

  // ---------- Fairness when links change all the time ----------

  /** Slots picked by a sequence of first events; each event sees its own link states. */
  function Picks(history: seq<seq<bool>>, index: nat): (picks: seq<nat>)
    requires forall links :: links in history ==> links == [] || index < |links|
    requires forall l, m :: l in history && m in history ==> |l| == |m|
    decreases |history|
  {
    if history == [] then []
    else
      match NextConnected(history[0], index)
      case None => Picks(history[1..], index)
      case Some(p) =>
        NextConnectedMeaning(history[0], index);
        [p] + Picks(history[1..], p)
  }

  /** The pointer stands in the half-open arc from e round to d. */
  predicate InArc(e: nat, index: nat, d: nat) {
    if e < d then e <= index < d else e <= index || index < d
  }

  function Lead(e: nat, index: nat, d: nat): nat {
    if InArc(e, index, d) then 1 else 0
  }

  function One(b: bool): nat {
    if b then 1 else 0
  }

  /** One pick moves the pointer past d only by picking d, when d is connected. */
  lemma FairStep(links: seq<bool>, index: nat, d: nat, e: nat, p: nat)
    requires index < |links| && d < |links| && e < |links| && d != e
    requires links[d]
    requires NextConnected(links, index) == Some(p)
    ensures One(p == e) - One(p == d) <= Lead(e, p, d) - Lead(e, index, d)
  {
    NextConnectedMeaning(links, index);
    assert !Between(index, d, p);
  }

  lemma {:induction false} FairPicks(history: seq<seq<bool>>, index: nat, n: nat, d: nat, e: nat)
    requires index < n && d < n && e < n && d != e
    requires forall links :: links in history ==> |links| == n && links[d]
    ensures multiset(Picks(history, index))[e] <= multiset(Picks(history, index))[d] + 1 - Lead(e, index, d)
    decreases |history|
  {
    if history != [] {
      var links := history[0];
      assert links in history;
      NextConnectedMeaning(links, index);
      var p := NextConnected(links, index).value;
      FairStep(links, index, d, e, p);
      FairPicks(history[1..], p, n, d, e);
      var rest := Picks(history[1..], p);
      assert Picks(history, index) == [p] + rest;
      assert multiset([p] + rest) == multiset{p} + multiset(rest);
    }
  }

  /**
   * Fairness: while slot d stays connected no other slot is picked more than once more than d,
   * whatever the other links do.
   */
  lemma Fairness(history: seq<seq<bool>>, index: nat, n: nat, d: nat, e: nat)
    requires index < n && d < n && e < n
    requires forall links :: links in history ==> |links| == n && links[d]
    ensures multiset(Picks(history, index))[e] <= multiset(Picks(history, index))[d] + 1
  {
    if d != e {
      FairPicks(history, index, n, d, e);
    }
  }

  // ---------- A fixed set of connected slots ----------

  /** The connected slots below n, in order. */
  function Connected(links: seq<bool>, n: nat): (slots: seq<nat>)
    requires n <= |links|
    ensures |slots| <= n
    ensures forall i :: 0 <= i < |slots| ==> slots[i] < n && links[slots[i]]
  {
    if n == 0 then []
    else if links[n - 1] then Connected(links, n - 1) + [n - 1]
    else Connected(links, n - 1)
  }

  /** Connected slots below n are listed at the position given by their own rank. */
  lemma {:induction false} RankOf(links: seq<bool>, p: nat, n: nat)
    requires p < n <= |links| && links[p]
    ensures |Connected(links, p)| < |Connected(links, n)|
    ensures Connected(links, n)[|Connected(links, p)|] == p
    decreases n
  {
    if p < n - 1 {
      RankOf(links, p, n - 1);
    }
  }

  /** Skipping over disconnected slots does not change the rank. */
  lemma {:induction false} RankSkips(links: seq<bool>, lo: nat, hi: nat)
    requires lo <= hi <= |links|
    requires forall q :: lo <= q < hi ==> !links[q]
    ensures Connected(links, lo) == Connected(links, hi)
    decreases hi
  {
    if lo < hi {
      RankSkips(links, lo, hi - 1);
    }
  }

  /** Rank that the next pick after `index` has among the connected slots. */
  function NextRank(links: seq<bool>, index: nat): nat
    requires index < |links|
    requires Connected(links, |links|) != []
  {
    |Connected(links, index + 1)| % |Connected(links, |links|)|
  }

  lemma NextRankIs(links: seq<bool>, index: nat, p: nat)
    requires index < |links|
    requires IsNext(links, index, p)
    ensures |Connected(links, p)| < |Connected(links, |links|)|
    ensures Connected(links, |links|)[|Connected(links, p)|] == p
    ensures NextRank(links, index) == |Connected(links, p)|
  {
    var k := |Connected(links, |links|)|;
    RankOf(links, p, |links|);
    if index < p {
      forall q | index + 1 <= q < p ensures !links[q] {
        assert Between(index, q, p);
      }
      RankSkips(links, index + 1, p);
      RemainderUnique(|Connected(links, p)|, 0, |Connected(links, p)|, k);
    } else {
      forall q | 0 <= q < p || index + 1 <= q < |links| ensures !links[q] {
        assert Between(index, q, p);
      }
      RankSkips(links, 0, p);
      RankSkips(links, index + 1, |links|);
      RemainderUnique(k, 1, 0, k);
    }
  }

  /** The next pick is the connected slot of the next rank. */
  lemma NextIsNextRank(links: seq<bool>, index: nat) returns (p: nat)
    requires index < |links|
    requires Connected(links, |links|) != []
    ensures NextConnected(links, index) == Some(p) && p < |links|
    ensures NextRank(links, index) < |Connected(links, |links|)|
    ensures p == Connected(links, |links|)[NextRank(links, index)]
    ensures NextRank(links, p) == (NextRank(links, index) + 1) % |Connected(links, |links|)|
  {
    assert links[Connected(links, |links|)[0]];
    NextConnectedMeaning(links, index);
    p := NextConnected(links, index).value;
    NextRankIs(links, index, p);
    assert Connected(links, p + 1) == Connected(links, p) + [p];
  }

  /** m first events that all see the same links. */
  function Constant(links: seq<bool>, m: nat): (history: seq<seq<bool>>)
    ensures |history| == m
    ensures forall seen :: seen in history ==> seen == links
  {
    seq(m, _ => links)
  }

  /**
   * With constant links the router is plain round robin over the connected slots in order:
   * the j-th pick is the connected slot of rank (start + j) modulo their number.
   */
  lemma {:induction false} PlainRoundRobin(links: seq<bool>, index: nat, m: nat, j: nat)
    requires index < |links|
    requires Connected(links, |links|) != []
    requires j < m
    ensures var slots := Connected(links, |links|);
            var picks := Picks(Constant(links, m), index);
            && |picks| == m
            && picks[j] == slots[(NextRank(links, index) + j) % |slots|]
    decreases m
  {
    var slots := Connected(links, |links|);
    var history := Constant(links, m);
    var rest := Constant(links, m - 1);
    assert history[1..] == rest;
    var p := NextIsNextRank(links, index);
    assert Picks(history, index) == [p] + Picks(rest, p);
    if m == 1 {
      assert rest == [];
    } else {
      PlainRoundRobin(links, p, m - 1, if j == 0 then 0 else j - 1);
    }
    RankArithmetic(NextRank(links, index), j, |slots|);
  }

  lemma RankArithmetic(r: nat, j: nat, k: nat)
    requires 0 < k && r < k
    ensures (r + 0) % k == r
    ensures j > 0 ==> ((r + 1) % k + (j - 1)) % k == (r + j) % k
  {
    RemainderUnique(r, 0, r, k);
    if j > 0 {
      if r + 1 == k {
        var q := (j - 1) / k;
        RemainderUnique(r + 1, 1, 0, k);
        RemainderUnique(r + j, q + 1, (j - 1) % k, k);
      } else {
        RemainderUnique(r + 1, 0, r + 1, k);
      }
    }
  }

  /** Picks of the slots below n in total. */
  function Total(picks: multiset<nat>, n: nat): nat {
    if n == 0 then 0 else Total(picks, n - 1) + picks[n - 1]
  }

  lemma {:induction false} TotalAdds(p: multiset<nat>, q: multiset<nat>, n: nat)
    ensures Total(p + q, n) == Total(p, n) + Total(q, n)
    decreases n
  {
    if n != 0 {
      TotalAdds(p, q, n - 1);
    }
  }

  lemma {:induction false} TotalOne(p: nat, n: nat)
    ensures Total(multiset{p}, n) == One(p < n)
    decreases n
  {
    if n != 0 {
      TotalOne(p, n - 1);
    }
  }

  lemma {:induction false} TotalIsLength(picks: seq<nat>, n: nat)
    requires forall i :: 0 <= i < |picks| ==> picks[i] < n
    ensures Total(multiset(picks), n) == |picks|
    decreases |picks|
  {
    if picks == [] {
      TotalEmpty(n);
    } else {
      assert picks == [picks[0]] + picks[1..];
      TotalIsLength(picks[1..], n);
      TotalAdds(multiset{picks[0]}, multiset(picks[1..]), n);
      TotalOne(picks[0], n);
    }
  }

  lemma {:induction false} TotalEmpty(n: nat)
    ensures Total(multiset{}, n) == 0
    decreases n
  {
    if n != 0 {
      TotalEmpty(n - 1);
    }
  }

  lemma Distribute(k: nat, x: nat)
    ensures (k + 1) * x == k * x + x
  {
  }

  /** Connected slots below n are picked lo to hi times, the others never. */
  ghost predicate AllWithin(links: seq<bool>, picks: multiset<nat>, n: nat, lo: nat, hi: nat)
    requires n <= |links|
  {
    forall q: nat :: q < n ==> if links[q] then lo <= picks[q] <= hi else picks[q] == 0
  }

  /** Bounds on every connected slot's picks bound the total. */
  lemma {:induction false} TotalBounds(links: seq<bool>, picks: multiset<nat>, n: nat, lo: nat, hi: nat)
    requires n <= |links|
    requires AllWithin(links, picks, n, lo, hi)
    ensures |Connected(links, n)| * lo <= Total(picks, n) <= |Connected(links, n)| * hi
    decreases n
  {
    if n != 0 {
      TotalBounds(links, picks, n - 1, lo, hi);
      if links[n - 1] {
        Distribute(|Connected(links, n - 1)|, lo);
        Distribute(|Connected(links, n - 1)|, hi);
      }
    }
  }

  lemma {:induction false} PicksConnected(links: seq<bool>, index: nat, m: nat)
    requires index < |links|
    requires Connected(links, |links|) != []
    ensures |Picks(Constant(links, m), index)| == m
    ensures forall p :: p in Picks(Constant(links, m), index) ==> p < |links| && links[p]
    decreases m
  {
    if m != 0 {
      var p := NextIsNextRank(links, index);
      PicksConnected(links, p, m - 1);
      assert Constant(links, m)[1..] == Constant(links, m - 1);
      assert Picks(Constant(links, m), index) == [p] + Picks(Constant(links, m - 1), p);
    }
  }

  /** Every slot's count is within one of the count of the connected slot d. */
  ghost predicate NearCount(links: seq<bool>, picks: multiset<nat>, count: nat) {
    forall q: nat :: q < |links| ==>
      if links[q] then count - 1 <= picks[q] <= count + 1 else picks[q] == 0
  }

  lemma CountsNear(links: seq<bool>, index: nat, m: nat, d: nat)
    requires index < |links| && d < |links| && links[d]
    requires Connected(links, |links|) != []
    ensures var picks := multiset(Picks(Constant(links, m), index));
            NearCount(links, picks, picks[d])
  {
    var history := Constant(links, m);
    PicksConnected(links, index, m);
    forall q: nat | q < |links| && links[q]
      ensures multiset(Picks(history, index))[q] <= multiset(Picks(history, index))[d] + 1
      ensures multiset(Picks(history, index))[d] <= multiset(Picks(history, index))[q] + 1
    {
      Fairness(history, index, |links|, d, q);
      Fairness(history, index, |links|, q, d);
    }
  }

  /**
   * Even spread: over a fixed non-empty set of k connected slots, m first events give every
   * connected slot at least floor(m/k) and at most ceil(m/k) picks, and the others none.
   */
  lemma EvenSpread(links: seq<bool>, index: nat, m: nat, d: nat)
    requires index < |links| && d < |links|
    requires Connected(links, |links|) != []
    ensures var k := |Connected(links, |links|)|;
            var count := multiset(Picks(Constant(links, m), index))[d];
            if links[d] then m < k * (count + 1) && k * count < m + k else count == 0
  {
    var picks := Picks(Constant(links, m), index);
    PicksConnected(links, index, m);
    if links[d] {
      CountsNear(links, index, m, d);
      forall i | 0 <= i < |picks| ensures picks[i] < |links| {
        assert picks[i] in picks;
      }
      TotalIsLength(picks, |links|);
      OneMore(links, multiset(picks), d, m);
      OneLess(links, multiset(picks), d, m);
    }
  }

  lemma OneMore(links: seq<bool>, picks: multiset<nat>, d: nat, m: nat)
    requires d < |links| && links[d]
    requires Total(picks, |links|) == m
    requires NearCount(links, picks, picks[d])
    ensures m < |Connected(links, |links|)| * (picks[d] + 1)
  {
    var more := multiset{d} + picks;
    TotalOne(d, |links|);
    TotalAdds(multiset{d}, picks, |links|);
    assert forall q: nat :: more[q] == One(q == d) + picks[q];
    TotalBounds(links, more, |links|, 0, picks[d] + 1);
  }

  lemma OneLess(links: seq<bool>, picks: multiset<nat>, d: nat, m: nat)
    requires d < |links| && links[d]
    requires Total(picks, |links|) == m
    requires NearCount(links, picks, picks[d])
    ensures |Connected(links, |links|)| * picks[d] < m + |Connected(links, |links|)|
  {
    var k, count := |Connected(links, |links|)|, picks[d];
    RankOf(links, d, |links|);
    if count > 0 {
      var less := picks - multiset{d};
      assert picks == multiset{d} + less;
      TotalOne(d, |links|);
      TotalAdds(multiset{d}, less, |links|);
      assert forall q: nat :: picks[q] == One(q == d) + less[q];
      TotalBounds(links, less, |links|, count - 1, count + 1);
      Predecessor(k, count);
    }
  }

  lemma Predecessor(k: nat, count: nat)
    requires 0 < count
    ensures k * count == k * (count - 1) + k
  {
  }
}
