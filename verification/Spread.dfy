/** Round-robin fairness of a source's router, lifted from its search to whole runs. */
module Spread {
  import opened RoundRobin
  import opened Routing
  import opened History
  import opened Coherence

  /** Step i is a new order of source s. */
  predicate NewOrderOf(trace: seq<Record>, i: nat, s: nat)
    requires i < |trace|
  {
    IsNewOrder(trace[i]) && trace[i].source == s
  }

  ghost predicate SlotsExist(r: Run, slots: seq<nat>) {
    forall i, q :: 0 <= i < |r.states| && 0 <= q < |slots| ==> slots[q] < |r.states[i].dests|
  }

  /** Links that source s's new orders saw in steps a to b. */
  ghost function LinksSeen(r: Run, s: nat, slots: seq<nat>, a: nat, b: nat): (history: seq<seq<bool>>)
    requires a <= b <= |r.trace| < |r.states| && SlotsExist(r, slots)
    ensures forall links :: links in history ==> |links| == |slots|
    decreases b - a
  {
    if a == b then []
    else if NewOrderOf(r.trace, a, s) then [Links(r.states[a].dests, slots)] + LinksSeen(r, s, slots, a + 1, b)
    else LinksSeen(r, s, slots, a + 1, b)
  }

  /** Slots that source s's new orders took in steps a to b. */
  function SlotsTaken(trace: seq<Record>, s: nat, a: nat, b: nat): seq<nat>
    requires a <= b <= |trace|
    decreases b - a
  {
    if a == b then []
    else if NewOrderOf(trace, a, s) && trace[a].slot.Some? then [trace[a].slot.value] + SlotsTaken(trace, s, a + 1, b)
    else SlotsTaken(trace, s, a + 1, b)
  }

  lemma SlotsExistInRun(r: Run, s: nat, slots: seq<nat>)
    requires IsRun(r) && RoutesOver(r.states[0], s, slots)
    ensures SlotsExist(r, slots)
  {
    assert InitialSource(r.states[0].sources[s], |r.states[0].dests|);
    forall i | 0 <= i < |r.states|
      ensures |r.states[i].dests| == |r.states[0].dests|
    {
      RunStaysWellFormed(r, i);
    }
  }

  /** One step moves source s's pointer by its own new orders only, as the search says. */
  lemma PointerMoves(r: Run, i: nat, s: nat, slots: seq<nat>)
    requires IsRun(r) && i < |r.events|
    requires RoutesOver(r.states[0], s, slots) && SlotsExist(r, slots)
    ensures RoutesOver(r.states[i], s, slots) && RoutesOver(r.states[i + 1], s, slots)
    ensures slots == [] || r.states[i].sources[s].router.index < |slots|
    ensures var index, index' := r.states[i].sources[s].router.index, r.states[i + 1].sources[s].router.index;
            if NewOrderOf(r.trace, i, s)
            then var next := NextConnected(Links(r.states[i].dests, slots), index);
                 r.trace[i].slot == next && index' == (if next.Some? then next.value else index)
            else index' == index
  {
    SlotsStay(r, i, s, slots);
    SlotsStay(r, i + 1, s, slots);
    assert IsStep(r, i);
    assert WellFormedRouter(r.states[i].sources[s].router, |r.states[i].dests|);
    var e, st := r.events[i], r.states[i];
    if e.FromSource? {
      var uid := OrZero(FindUid(st.uid, st.sources[e.source], e.req));
      var counter := if e.req.NewOrderSingle? then uid else st.uid;
      RouteEffect(Net(counter, st.dests), st.sources[e.source].router, e.req, uid, e.valid, e.sendOk);
    }
  }

  /** The slots a source takes in a run are the picks of the search over the links it saw. */
  lemma {:induction false} TakenArePicks(r: Run, s: nat, slots: seq<nat>, a: nat, b: nat)
    requires IsRun(r) && a <= b <= |r.events|
    requires RoutesOver(r.states[0], s, slots)
    ensures RoutesOver(r.states[a], s, slots) && SlotsExist(r, slots)
    ensures slots == [] || r.states[a].sources[s].router.index < |slots|
    ensures SlotsTaken(r.trace, s, a, b) == Picks(LinksSeen(r, s, slots, a, b), r.states[a].sources[s].router.index)
    decreases b - a
  {
    SlotsExistInRun(r, s, slots);
    SlotsStay(r, a, s, slots);
    RunStaysWellFormed(r, a);
    assert WellFormedRouter(r.states[a].sources[s].router, |r.states[a].dests|);
    if a < b {
      TakenArePicks(r, s, slots, a + 1, b);
      PointerMoves(r, a, s, slots);
      var rest := LinksSeen(r, s, slots, a + 1, b);
      if NewOrderOf(r.trace, a, s) {
        var links := Links(r.states[a].dests, slots);
        assert ([links] + rest)[1..] == rest;
      }
    }
  }

  /**
   * Fairness over every window of every run: if slot d's destination is connected at each new
   * order of source s in the window, no other slot is taken more than once more than d, however
   * the other links change.
   */
  lemma RunFairness(r: Run, s: nat, slots: seq<nat>, a: nat, b: nat, d: nat, e: nat)
    requires IsRun(r) && a <= b <= |r.events|
    requires RoutesOver(r.states[0], s, slots)
    requires d < |slots| && e < |slots|
    requires forall i :: a <= i < b && NewOrderOf(r.trace, i, s) ==>
               slots[d] < |r.states[i].dests| && r.states[i].dests[slots[d]].connected
    ensures multiset(SlotsTaken(r.trace, s, a, b))[e] <= multiset(SlotsTaken(r.trace, s, a, b))[d] + 1
  {
    TakenArePicks(r, s, slots, a, b);
    AlwaysLinked(r, s, slots, a, b, d);
    Fairness(LinksSeen(r, s, slots, a, b), r.states[a].sources[s].router.index, |slots|, d, e);
  }

  lemma {:induction false} AlwaysLinked(r: Run, s: nat, slots: seq<nat>, a: nat, b: nat, d: nat)
    requires IsRun(r) && a <= b <= |r.events| && SlotsExist(r, slots)
    requires d < |slots|
    requires forall i :: a <= i < b && NewOrderOf(r.trace, i, s) ==> r.states[i].dests[slots[d]].connected
    ensures forall links :: links in LinksSeen(r, s, slots, a, b) ==> links[d]
    decreases b - a
  {
    if a < b {
      AlwaysLinked(r, s, slots, a + 1, b, d);
    }
  }

  /** The links that a new order of step i sees on these slots. */
  ghost predicate Sees(r: Run, i: nat, slots: seq<nat>, links: seq<bool>)
    requires i < |r.states|
  {
    && |links| == |slots|
    && forall q :: 0 <= q < |slots| ==>
         slots[q] < |r.states[i].dests| && r.states[i].dests[slots[q]].connected == links[q]
  }

  /** New orders of source s in steps a to b. */
  function NewOrders(trace: seq<Record>, s: nat, a: nat, b: nat): nat
    requires a <= b <= |trace|
    decreases b - a
  {
    if a == b then 0 else One(NewOrderOf(trace, a, s)) + NewOrders(trace, s, a + 1, b)
  }

  /**
   * Even spread in a run: while the slots' links stay as they are, with k of them up, the m new
   * orders of a window give each connected slot at least floor(m/k) and at most ceil(m/k) orders.
   */
  lemma RunEvenSpread(r: Run, s: nat, slots: seq<nat>, a: nat, b: nat, links: seq<bool>, d: nat)
    requires IsRun(r) && a <= b <= |r.events|
    requires RoutesOver(r.states[0], s, slots) && |links| == |slots|
    requires d < |links| && Connected(links, |links|) != []
    requires forall i :: a <= i < b && NewOrderOf(r.trace, i, s) ==> Sees(r, i, slots, links)
    ensures var m, k := NewOrders(r.trace, s, a, b), |Connected(links, |links|)|;
            var count := multiset(SlotsTaken(r.trace, s, a, b))[d];
            && |SlotsTaken(r.trace, s, a, b)| == m
            && if links[d] then m < k * (count + 1) && k * count < m + k else count == 0
  {
    TakenArePicks(r, s, slots, a, b);
    SameLinks(r, s, slots, a, b, links);
    var index, m := r.states[a].sources[s].router.index, NewOrders(r.trace, s, a, b);
    EvenSpread(links, index, m, d);
    PicksConnected(links, index, m);
  }

  /**
   * Skipping disconnected slots refines plain round robin: with constant links, the j-th new
   * order of a window takes the connected slot of rank (start + j) modulo their number.
   */
  lemma RunPlainRoundRobin(r: Run, s: nat, slots: seq<nat>, a: nat, b: nat, links: seq<bool>, j: nat)
    requires IsRun(r) && a <= b <= |r.events|
    requires RoutesOver(r.states[0], s, slots) && |links| == |slots|
    requires Connected(links, |links|) != []
    requires forall i :: a <= i < b && NewOrderOf(r.trace, i, s) ==> Sees(r, i, slots, links)
    requires j < NewOrders(r.trace, s, a, b)
    ensures RoutesOver(r.states[a], s, slots) && r.states[a].sources[s].router.index < |links|
    ensures var up, taken := Connected(links, |links|), SlotsTaken(r.trace, s, a, b);
            && |taken| == NewOrders(r.trace, s, a, b)
            && taken[j] == up[(NextRank(links, r.states[a].sources[s].router.index) + j) % |up|]
  {
    TakenArePicks(r, s, slots, a, b);
    SameLinks(r, s, slots, a, b, links);
    PlainRoundRobin(links, r.states[a].sources[s].router.index, NewOrders(r.trace, s, a, b), j);
  }

  lemma {:induction false} SameLinks(r: Run, s: nat, slots: seq<nat>, a: nat, b: nat, links: seq<bool>)
    requires IsRun(r) && a <= b <= |r.events| && SlotsExist(r, slots)
    requires forall i :: a <= i < b && NewOrderOf(r.trace, i, s) ==> Sees(r, i, slots, links)
    ensures LinksSeen(r, s, slots, a, b) == Constant(links, NewOrders(r.trace, s, a, b))
    decreases b - a
  {
    if a < b {
      SameLinks(r, s, slots, a + 1, b, links);
      if NewOrderOf(r.trace, a, s) {
        assert Links(r.states[a].dests, slots) == links;
      }
    }
  }
}
