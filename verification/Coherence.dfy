/** Cancels, replaces and new orders under round robin: where requests go, over every run. */
module Coherence {
  import opened Types
  import opened WireIds
  import opened Messages
  import opened RoundRobin
  import opened Routing
  import opened History
  import opened Correlation

  /** Source s routes round robin over these slots. */
  predicate RoutesOver(st: State, s: nat, slots: seq<nat>) {
    s < |st.sources| && st.sources[s].router.RoundRobinRouter? && st.sources[s].router.slots == slots
  }

  lemma StepKeepsSlots(st: State, e: Event, s: nat, slots: seq<nat>)
    requires WellFormed(st) && Enabled(st, e) && s < |st.sources|
    ensures RoutesOver(Step(st, e).0, s, slots) <==> RoutesOver(st, s, slots)
  {
    if e.FromSource? {
      var uid := OrZero(FindUid(st.uid, st.sources[e.source], e.req));
      var counter := if e.req.NewOrderSingle? then uid else st.uid;
      RouteEffect(Net(counter, st.dests), st.sources[e.source].router, e.req, uid, e.valid, e.sendOk);
    }
  }

  lemma {:induction false} SlotsStay(r: Run, n: nat, s: nat, slots: seq<nat>)
    requires IsRun(r) && n <= |r.events|
    requires RoutesOver(r.states[0], s, slots)
    ensures RoutesOver(r.states[n], s, slots)
    decreases n
  {
    if n != 0 {
      SlotsStay(r, n - 1, s, slots);
      assert IsStep(r, n - 1);
      StepKeepsSlots(r.states[n - 1], r.events[n - 1], s, slots);
    }
  }

  /** Record i is a request of the round-robin source s. */
  ghost predicate RoundRobinRequest(r: Run, i: nat, slots: seq<nat>) {
    && IsRun(r) && i < |r.events| && r.trace[i].Request?
    && RoutesOver(r.states[0], r.trace[i].source, slots)
  }

  /** A request that got a slot reached that slot's destination; one without a slot reached none. */
  lemma SlotIsDestination(r: Run, i: nat, slots: seq<nat>)
    requires RoundRobinRequest(r, i, slots)
    ensures r.trace[i].slot.Some? <==> !r.trace[i].routed.NotRouted?
    ensures r.trace[i].slot.Some? ==>
              r.trace[i].slot.value < |slots| && r.trace[i].routed.dest == slots[r.trace[i].slot.value]
  {
    SlotsStay(r, i, r.trace[i].source, slots);
    assert IsStep(r, i);
    var e, st := r.events[i], r.states[i];
    var router := st.sources[e.source].router;
    if e.req.NewOrderSingle? {
      NextConnectedMeaning(Links(st.dests, router.slots), router.index);
    }
  }

  /** A cancel or replace takes the slot cached for its uid. */
  lemma SubsequentSlot(r: Run, j: nat, slots: seq<nat>)
    requires RoundRobinRequest(r, j, slots)
    requires !IsNewOrder(r.trace[j])
    ensures r.trace[j].slot == SlotAt(r.trace, First(r.trace, j, PlacedNewOrder(r.trace[j].source, r.trace[j].uid)))
    ensures r.trace[j].slot.None? ==>
              r.trace[j].routed == NotRouted(DestinationRouterSessionNotFoundForUid)
  {
    SlotsStay(r, j, r.trace[j].source, slots);
    RecordSessions(r, j);
    SourceAgreement(r, j, r.trace[j].source);
    assert IsStep(r, j);
  }

  /** The index of the only new order placed under its uid. */
  lemma PlacedOnce(r: Run, n: nat, i: nat)
    requires IsRun(r) && i < n <= |r.events|
    requires Drawn(r.trace, n) < TWO64
    requires IsNewOrder(r.trace[i])
    ensures First(r.trace, n, PlacedNewOrder(r.trace[i].source, r.trace[i].uid)) ==
            if r.trace[i].slot.Some? then Some(i) else None
  {
    FirstWithUid(r, n, i);
    var q := PlacedNewOrder(r.trace[i].source, r.trace[i].uid);
    forall m | 0 <= m < n && Matches(r.trace[m], q)
      ensures m == i
    {
      FirstWithUid(r, n, m);
    }
    if r.trace[i].slot.Some? {
      assert Matches(r.trace[i], q);
    }
  }

  /**
   * Sticky routing: a later request with the uid of a new order goes to the very slot that order
   * was placed on, whatever links, pointer and other traffic did in between, and goes nowhere if
   * the order itself found no destination.
   */
  lemma StickyRouting(r: Run, i: nat, j: nat, slots: seq<nat>)
    requires RoundRobinRequest(r, j, slots) && i < j
    requires Drawn(r.trace, j) < TWO64
    requires IsNewOrder(r.trace[i]) && r.trace[i].source == r.trace[j].source
    requires !IsNewOrder(r.trace[j]) && r.trace[j].uid == r.trace[i].uid
    ensures r.trace[j].slot == r.trace[i].slot
    ensures r.trace[i].slot.Some? ==>
              && !r.trace[i].routed.NotRouted? && !r.trace[j].routed.NotRouted?
              && r.trace[j].routed.dest == r.trace[i].routed.dest
    ensures r.trace[i].slot.None? ==> r.trace[j].routed == NotRouted(DestinationRouterSessionNotFoundForUid)
  {
    SubsequentSlot(r, j, slots);
    PlacedOnce(r, j, i);
    SlotIsDestination(r, i, slots);
    SlotIsDestination(r, j, slots);
  }

  /**
   * The duplicate branches of the uid maps are dead while the counter has not wrapped: a new
   * order's uid is neither in its router's cache nor in the source router.
   */
  lemma NewOrderUidIsFresh(r: Run, i: nat, slots: seq<nat>)
    requires RoundRobinRequest(r, i, slots)
    requires Drawn(r.trace, i) + 1 < TWO64
    requires IsNewOrder(r.trace[i])
    ensures r.trace[i].uid !in r.states[i].uidToSource
    ensures RoutesOver(r.states[i], r.trace[i].source, slots)
    ensures r.trace[i].uid !in r.states[i].sources[r.trace[i].source].router.uidToSlot
  {
    UidsAgreement(r, i);
    IdsOfStep(r, i);
    SlotsStay(r, i, r.trace[i].source, slots);
    SourceAgreement(r, i, r.trace[i].source);
    var s, u := r.trace[i].source, r.trace[i].uid;
    forall m | 0 <= m < i && IsNewOrder(r.trace[m])
      ensures r.trace[m].uid != u
    {
      FirstWithUid(r, i, m);
      IdsOfStep(r, m);
      DrawnGrows(r.trace, m + 1, i);
    }
    assert Find(r.states[i].uidToSource, u) == SourceAt(r.trace, First(r.trace, i, NewOrderWithUid(u)));
    assert Find(r.states[i].sources[s].router.uidToSlot, u) == SlotAt(r.trace, First(r.trace, i, PlacedNewOrder(s, u)));
  }

  /**
   * Search completeness in a run: a new order finds no destination exactly when every slot's
   * link is down, and otherwise goes to the first connected slot after the router's pointer.
   */
  lemma NewOrderPlacement(r: Run, i: nat, slots: seq<nat>)
    requires RoundRobinRequest(r, i, slots)
    requires IsNewOrder(r.trace[i])
    ensures RoutesOver(r.states[i], r.trace[i].source, slots)
    ensures forall q :: 0 <= q < |slots| ==> slots[q] < |r.states[i].dests|
    ensures (r.trace[i].routed == NotRouted(DestinationRouterNoDestinationsAvailable)) <==>
            (forall q :: 0 <= q < |slots| ==> !r.states[i].dests[slots[q]].connected)
    ensures r.trace[i].routed.NotRouted? ==> r.trace[i].routed.code == DestinationRouterNoDestinationsAvailable
    ensures r.trace[i].slot.Some? ==>
              IsNext(Links(r.states[i].dests, slots), r.states[i].sources[r.trace[i].source].router.index,
                     r.trace[i].slot.value)
  {
    SlotsStay(r, i, r.trace[i].source, slots);
    RunStaysWellFormed(r, i);
    assert IsStep(r, i);
    var st, s := r.states[i], r.trace[i].source;
    var router := st.sources[s].router;
    assert WellFormedRouter(router, |st.dests|);
    NextConnectedMeaning(Links(st.dests, slots), router.index);
  }

  /**
   * A request whose original its source never sent as a new order is never forwarded and is
   * rejected twice, because the pipeline goes on with uid 0. In particular the id of a replace
   * is never accepted as an original.
   */
  lemma UnknownOriginalNeverForwarded(r: Run, j: nat, slots: seq<nat>)
    requires RoundRobinRequest(r, j, slots)
    requires Drawn(r.trace, j) < TWO64
    requires !IsNewOrder(r.trace[j])
    requires First(r.trace, j, NewOrderWithId(r.trace[j].source, r.trace[j].req.origClOrdId)).None?
    ensures r.trace[j].routed == NotRouted(DestinationRouterSessionNotFoundForUid)
    ensures r.trace[j].rejects == 2
    ensures r.states[j + 1].dests == r.states[j].dests && r.states[j + 1].uid == r.states[j].uid
  {
    KnownOriginal(r, j);
    ZeroIsNoUid(r, j);
    SubsequentSlot(r, j, slots);
    assert IsStep(r, j);
  }

  lemma ForwardedOriginal(r: Run, j: nat)
    requires IsRun(r) && j < |r.events|
    requires r.trace[j].Request? && r.trace[j].routed.Forwarded? && !IsNewOrder(r.trace[j])
    ensures var m := First(r.trace, j, AcceptedClientId(r.trace[j].routed.dest, r.trace[j].req.origClOrdId));
            m.Some? && !r.trace[j].routed.msg.WireNewOrderSingle?
            && r.trace[j].routed.msg.o == r.trace[m.value].routed.msg.c
  {
    EventDraws(r, j);
    var e := r.events[j];
    ReachedOutcome(r.states[j], e.source, e.req, e.valid, e.sendOk);
    var d, k := r.trace[j].routed.dest, r.trace[j].req.origClOrdId;
    ClientIdIndex(r, j, d, k);
    var m := First(r.trace, j, AcceptedClientId(d, k));
    if m.Some? {
      NarrowWiden(r.trace[m.value].routed.msg.c);
    }
  }

  /**
   * What holds for every forwarded cancel or replace: it goes to the destination that its
   * source's first new order with the original id was sent to, and its field o is the wire id of
   * the first request that destination accepted under that client id, from whichever client.
   */
  lemma CancelFollowsOrder(r: Run, j: nat, slots: seq<nat>)
    requires RoundRobinRequest(r, j, slots)
    requires Drawn(r.trace, j) < TWO64
    requires r.trace[j].routed.Forwarded? && !IsNewOrder(r.trace[j])
    ensures var k, d := r.trace[j].req.origClOrdId, r.trace[j].routed.dest;
            var i, m := First(r.trace, j, NewOrderWithId(r.trace[j].source, k)),
                        First(r.trace, j, AcceptedClientId(d, k));
            && i.Some? && m.Some?
            && !r.trace[i.value].routed.NotRouted? && r.trace[i.value].routed.dest == d
            && r.trace[i.value].slot == r.trace[j].slot
            && !r.trace[j].routed.msg.WireNewOrderSingle?
            && r.trace[j].routed.msg.o == r.trace[m.value].routed.msg.c
  {
    KnownOriginal(r, j);
    ForwardedOriginal(r, j);
    if !r.trace[j].known {
      UnknownOriginalNeverForwarded(r, j, slots);
    } else {
      var i := First(r.trace, j, NewOrderWithId(r.trace[j].source, r.trace[j].req.origClOrdId)).value;
      StickyRouting(r, i, j, slots);
    }
  }

  /** Requests that reached destination d before step j carry pairwise different client ids. */
  ghost predicate DistinctClientIds(trace: seq<Record>, j: nat, d: nat)
    requires j <= |trace|
  {
    forall a, b :: 0 <= a < b < j && Reached(trace[a], d) && Reached(trace[b], d) ==>
      trace[a].req.clOrdId != trace[b].req.clOrdId
  }

  predicate Reached(rec: Record, d: nat) {
    rec.Request? && !rec.routed.NotRouted? && rec.routed.dest == d
  }

  /**
   * Cancel and replace coherence over every run: with client ids distinct at a destination, a
   * forwarded cancel or replace of order k reaches the destination that took k's new order and
   * names it by the wire id it was sent with.
   */
  lemma CancelCoherence(r: Run, j: nat, slots: seq<nat>)
    requires RoundRobinRequest(r, j, slots)
    requires Drawn(r.trace, j) < TWO64
    requires r.trace[j].routed.Forwarded? && !IsNewOrder(r.trace[j])
    requires DistinctClientIds(r.trace, j, r.trace[j].routed.dest)
    ensures var i := First(r.trace, j, NewOrderWithId(r.trace[j].source, r.trace[j].req.origClOrdId));
            && i.Some? && AcceptedBy(r.trace[i.value], r.trace[j].routed.dest)
            && !r.trace[j].routed.msg.WireNewOrderSingle?
            && r.trace[j].routed.msg.o == r.trace[i.value].routed.msg.c
  {
    CancelFollowsOrder(r, j, slots);
    var k, d := r.trace[j].req.origClOrdId, r.trace[j].routed.dest;
    var i := First(r.trace, j, NewOrderWithId(r.trace[j].source, k)).value;
    var m := First(r.trace, j, AcceptedClientId(d, k)).value;
    assert Reached(r.trace[i], d) && Reached(r.trace[m], d);
  }

  /**
   * The exact condition, when ids are not distinct: field o carries the wire id of the client's
   * own order if and only if the destination accepted that order and it was drawn a multiple of
   * 2^32 draws after the first request accepted under the client id. Among requests accepted
   * within the first 2^32 draws this means that the order is that first request.
   */
  lemma CancelCoherenceExact(r: Run, j: nat, slots: seq<nat>)
    requires RoundRobinRequest(r, j, slots)
    requires Drawn(r.trace, j) < TWO64
    requires r.trace[j].routed.Forwarded? && !IsNewOrder(r.trace[j])
    ensures var k, d := r.trace[j].req.origClOrdId, r.trace[j].routed.dest;
            var i, m := First(r.trace, j, NewOrderWithId(r.trace[j].source, k)),
                        First(r.trace, j, AcceptedClientId(d, k));
            && i.Some? && m.Some? && !r.trace[j].routed.msg.WireNewOrderSingle?
            && (AcceptedBy(r.trace[i.value], d) ==> m.value <= i.value)
            && ((AcceptedBy(r.trace[i.value], d) && r.trace[j].routed.msg.o == r.trace[i.value].routed.msg.c)
                <==>
                (AcceptedBy(r.trace[i.value], d)
                 && (Drawn(r.trace, i.value + 1) - Drawn(r.trace, m.value + 1)) % TWO32 == 0))
            && (Drawn(r.trace, i.value + 1) <= TWO32 ==>
                  ((AcceptedBy(r.trace[i.value], d) && r.trace[j].routed.msg.o == r.trace[i.value].routed.msg.c)
                   <==> m == i))
  {
    CancelFollowsOrder(r, j, slots);
    var k, d := r.trace[j].req.origClOrdId, r.trace[j].routed.dest;
    var i := First(r.trace, j, NewOrderWithId(r.trace[j].source, k)).value;
    var m := First(r.trace, j, AcceptedClientId(d, k)).value;
    if AcceptedBy(r.trace[i], d) {
      assert Matches(r.trace[i], AcceptedClientId(d, k));
      WireIdRepeats(r, m, i);
      if m < i && Drawn(r.trace, i + 1) <= TWO32 {
        WireIdUniqueEarly(r, m, i);
      }
    }
  }

  /** Step-level fact: once at a destination, only an unknown original, the validator or the transport refuses. */
  lemma ReachedForwardedExactly(r: Run, j: nat)
    requires IsRun(r) && j < |r.events|
    requires r.trace[j].Request? && !r.trace[j].routed.NotRouted?
    ensures r.events[j].FromSource?
    ensures r.trace[j].routed.Forwarded? <==>
            && r.events[j].valid && r.events[j].sendOk
            && (IsNewOrder(r.trace[j]) ||
                First(r.trace, j, AcceptedClientId(r.trace[j].routed.dest, r.trace[j].req.origClOrdId)).Some?)
  {
    EventDraws(r, j);
    var e := r.events[j];
    ReachedOutcome(r.states[j], e.source, e.req, e.valid, e.sendOk);
    if !IsNewOrder(r.trace[j]) {
      ClientIdIndex(r, j, r.trace[j].routed.dest, r.trace[j].req.origClOrdId);
    }
  }

  /** Source s routes to destination d alone. */
  predicate RoutesTo(st: State, s: nat, d: nat) {
    s < |st.sources| && st.sources[s].router == OneToOneRouter(d)
  }

  lemma {:induction false} DestinationStays(r: Run, n: nat, s: nat, d: nat)
    requires IsRun(r) && n <= |r.events|
    requires RoutesTo(r.states[0], s, d)
    ensures RoutesTo(r.states[n], s, d) && d < |r.states[n].dests|
    decreases n
  {
    if n == 0 {
      assert InitialSource(r.states[0].sources[s], |r.states[0].dests|);
    } else {
      DestinationStays(r, n - 1, s, d);
      assert IsStep(r, n - 1);
      var e, st := r.events[n - 1], r.states[n - 1];
      if e.FromSource? {
        var uid := OrZero(FindUid(st.uid, st.sources[e.source], e.req));
        var counter := if e.req.NewOrderSingle? then uid else st.uid;
        RouteEffect(Net(counter, st.dests), st.sources[e.source].router, e.req, uid, e.valid, e.sendOk);
      }
    }
  }

  /** A one-to-one source's request reaches its destination exactly when the link is up. */
  lemma OneToOneReaches(r: Run, j: nat, d: nat)
    requires IsRun(r) && j < |r.events| && r.trace[j].Request?
    requires RoutesTo(r.states[0], r.trace[j].source, d)
    ensures d < |r.states[j].dests|
    ensures r.trace[j].routed.NotRouted? <==> !r.states[j].dests[d].connected
    ensures !r.trace[j].routed.NotRouted? ==> r.trace[j].routed.dest == d
  {
    DestinationStays(r, j, r.trace[j].source, d);
    EventDraws(r, j);
  }

  /**
   * With one-to-one routing a request, of whatever kind, finds no destination exactly when the link of the only
   * one is down, and is refused with the code that says so; otherwise it reaches that one.
   */
  lemma OneToOnePlacement(r: Run, j: nat, d: nat)
    requires IsRun(r) && j < |r.events| && r.trace[j].Request?
    requires RoutesTo(r.states[0], r.trace[j].source, d)
    ensures d < |r.states[j].dests|
    ensures !r.states[j].dests[d].connected <==>
            r.trace[j].routed == NotRouted(DestinationRouterNoDestinationsAvailable)
    ensures r.trace[j].routed.NotRouted? ==> r.trace[j].routed.code == DestinationRouterNoDestinationsAvailable
    ensures !r.trace[j].routed.NotRouted? ==> r.trace[j].routed.dest == d
  {
    OneToOneReaches(r, j, d);
    DestinationStays(r, j, r.trace[j].source, d);
    EventDraws(r, j);
  }

  /**
   * When a one-to-one source's request is both rejected and forwarded, exactly: it is no new
   * order, the destination is connected, validator and transport agree, the source sent no new
   * order with the original id, and yet the destination accepted a request under that id.
   */
  lemma RejectedAndForwarded(r: Run, j: nat, d: nat)
    requires IsRun(r) && j < |r.events| && r.trace[j].Request?
    requires RoutesTo(r.states[0], r.trace[j].source, d)
    ensures d < |r.states[j].dests| && r.events[j].FromSource?
    ensures (r.trace[j].routed.Forwarded? && r.trace[j].rejects > 0) <==>
            && !IsNewOrder(r.trace[j])
            && r.states[j].dests[d].connected && r.events[j].valid && r.events[j].sendOk
            && First(r.trace, j, NewOrderWithId(r.trace[j].source, r.trace[j].req.origClOrdId)).None?
            && First(r.trace, j, AcceptedClientId(d, r.trace[j].req.origClOrdId)).Some?
  {
    OneToOneReaches(r, j, d);
    KnownOriginal(r, j);
    EventDraws(r, j);
    if !r.trace[j].routed.NotRouted? {
      ReachedForwardedExactly(r, j);
    }
  }

  /** Under round robin no request is both rejected and forwarded. */
  lemma NeverRejectedAndForwarded(r: Run, j: nat, slots: seq<nat>)
    requires RoundRobinRequest(r, j, slots)
    requires Drawn(r.trace, j) < TWO64
    ensures r.trace[j].rejects == 0 <==> r.trace[j].routed.Forwarded?
    ensures !r.trace[j].routed.Forwarded? ==>
              (r.trace[j].rejects == 2 <==>
               (!IsNewOrder(r.trace[j])
                && First(r.trace, j, NewOrderWithId(r.trace[j].source, r.trace[j].req.origClOrdId)).None?))
  {
    EventDraws(r, j);
    KnownOriginal(r, j);
    if !r.trace[j].known {
      UnknownOriginalNeverForwarded(r, j, slots);
    }
  }

  /**
   * Why a request that reached a destination was refused: first an unknown original, then the
   * validator, then the transport. A refusal leaves every session of the network as it was and
   * uses up one wire id.
   */
  lemma RefusalExplained(r: Run, j: nat)
    requires IsRun(r) && j < |r.events|
    requires r.trace[j].Request? && r.trace[j].routed.Refused?
    ensures r.events[j].FromSource?
    ensures var d, code := r.trace[j].routed.dest, r.trace[j].routed.code;
            var unknown := !IsNewOrder(r.trace[j])
                           && First(r.trace, j, AcceptedClientId(d, r.trace[j].req.origClOrdId)).None?;
            && (code == DestinationSessionInvalidOriginalMsgId <==> unknown)
            && (code == ValidatorValidationFailed <==> !unknown && !r.events[j].valid)
            && (code == TransportFailedToSendData <==> !unknown && r.events[j].valid && !r.events[j].sendOk)
    ensures r.states[j + 1].dests == r.states[j].dests
    ensures r.trace[j].routed.wire == r.states[j + 1].uid
  {
    EventDraws(r, j);
    RecordSessions(r, j);
    var e, st := r.events[j], r.states[j];
    RefusedDestination(st, e.source, e.req, e.valid, e.sendOk);
    if !IsNewOrder(r.trace[j]) {
      ClientIdIndex(r, j, r.trace[j].routed.dest, r.trace[j].req.origClOrdId);
    }
  }

  lemma RefusedDestination(st: State, s: nat, req: Request, valid: bool, sendOk: bool)
    requires WellFormed(st) && s < |st.sources|
    ensures var (st', rec) := StepRequest(st, s, req, valid, sendOk);
            rec.routed.Refused? ==>
              && rec.routed.dest < |st.dests| && st'.dests == st.dests
              && rec.routed.code == if TranslateOriginal(st.dests[rec.routed.dest], req).None?
                                    then DestinationSessionInvalidOriginalMsgId
                                    else if !valid then ValidatorValidationFailed else TransportFailedToSendData
  {
    var uid := OrZero(FindUid(st.uid, st.sources[s], req));
    var net := Net(if req.NewOrderSingle? then uid else st.uid, st.dests);
    RouteKeepsWellFormed(net, st.sources[s].router, req, uid, valid, sendOk);
    RouteEffect(net, st.sources[s].router, req, uid, valid, sendOk);
  }

  /**
   * When a cancel or replace is forwarded, exactly: its source's first new order with the
   * original id found a destination, that destination accepted some request under that id, and
   * validator and transport agree. Links play no part.
   */
  lemma CancelForwardedExactly(r: Run, j: nat, slots: seq<nat>)
    requires RoundRobinRequest(r, j, slots)
    requires Drawn(r.trace, j) < TWO64
    requires !IsNewOrder(r.trace[j])
    ensures r.events[j].FromSource?
    ensures var k := r.trace[j].req.origClOrdId;
            var i := First(r.trace, j, NewOrderWithId(r.trace[j].source, k));
            r.trace[j].routed.Forwarded? <==>
            && i.Some? && !r.trace[i.value].routed.NotRouted?
            && First(r.trace, j, AcceptedClientId(r.trace[i.value].routed.dest, k)).Some?
            && r.events[j].valid && r.events[j].sendOk
  {
    KnownOriginal(r, j);
    assert IsStep(r, j);
    if !r.trace[j].known {
      UnknownOriginalNeverForwarded(r, j, slots);
    } else {
      var i := First(r.trace, j, NewOrderWithId(r.trace[j].source, r.trace[j].req.origClOrdId)).value;
      StickyRouting(r, i, j, slots);
      SlotIsDestination(r, i, slots);
      if !r.trace[j].routed.NotRouted? {
        ReachedForwardedExactly(r, j);
      }
    }
  }
}
