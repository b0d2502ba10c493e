/** Concrete runs that show where the routing promises stop holding. */
module Limits {
  import opened Types
  import opened WireIds
  import opened Messages
  import opened RoundRobin
  import opened Routing
  import opened History

  const FRESH_DEST := DestState(true, map[], map[], [], [])
  const FRESH_RR := SourceState(map[], RoundRobinRouter([0], 0, map[]), [])
  const FRESH_ONE := SourceState(map[], OneToOneRouter(0), [])

  /** Two clients that both route over the single destination 0. */
  function TwoClients(client: SourceState): State {
    State(0, [client, client], [FRESH_DEST], map[])
  }

  ghost function StartOf(st: State): Run {
    Run([st], [], [])
  }

  lemma Starts(client: SourceState)
    requires client == FRESH_RR || client == FRESH_ONE
    ensures IsRun(StartOf(TwoClients(client)))
  {
  }

  /** First order of client 0 under id 7 is sent under wire id 2. */
  lemma FirstOrder() returns (r: Run)
    ensures IsRun(r) && |r.events| == 1 && r.states[0] == TwoClients(FRESH_RR)
    ensures r.trace[0] == Request(0, NewOrderSingle(1, 1, 7), 1, true, Some(0),
                                  Forwarded(0, 2, WireNewOrderSingle(1, 1, 2)), 0, 2)
    ensures r.states[1].uid == 2
    ensures |r.states[1].sources| == 2 && r.states[1].sources[1] == FRESH_RR
    ensures r.states[1].sources[0] == SourceState(map[7 := 1], RoundRobinRouter([0], 0, map[1 := 0]), [])
    ensures |r.states[1].dests| == 1
    ensures r.states[1].dests[0] == DestState(true, map[7 := 2], map[2 := RoutingInfo(7, 1)],
                                              [WireNewOrderSingle(1, 1, 2)], [])
    ensures r.states[1].uidToSource == map[1 := 0]
  {
    Starts(FRESH_RR);
    r := Continue(StartOf(TwoClients(FRESH_RR)), FromSource(0, NewOrderSingle(1, 1, 7), true, true));
    assert NextConnected([true], 0) == Some(0);
    assert Links([FRESH_DEST], [0]) == [true];
  }

  /**
   * Client ids shared by two clients: the cancel that client 1 sends for its own order 7 reaches
   * the venue naming client 0's order.
   */
  lemma CancelNamesOtherClient() returns (r: Run)
    ensures IsRun(r) && |r.events| == 3
    ensures r.trace[1].Request? && r.trace[1].source == 1 && r.trace[1].req == NewOrderSingle(1, 1, 7)
    ensures r.trace[1].routed == Forwarded(0, 4, WireNewOrderSingle(1, 1, 4))
    ensures r.trace[2].Request? && r.trace[2].source == 1 && r.trace[2].req == CancelRequest(1, 1, 8, 7)
    ensures r.trace[2].routed == Forwarded(0, 5, WireCancelRequest(1, 1, 5, 2))
    ensures r.trace[0].Request? && r.trace[0].source == 0
    ensures r.trace[0].routed == Forwarded(0, 2, WireNewOrderSingle(1, 1, 2))
  {
    r := FirstOrder();
    var e1 := FromSource(1, NewOrderSingle(1, 1, 7), true, true);
    var r1 := Continue(r, e1);
    assert NextConnected([true], 0) == Some(0);
    assert Links(r.states[1].dests, [0]) == [true];
    assert r1.states[2].dests[0].destBySrc == map[7 := 2];
    assert r1.states[2].sources[1].clOrdIdToUid == map[7 := 3];
    assert r1.states[2].sources[1].router == RoundRobinRouter([0], 0, map[3 := 0]);
    assert r1.states[2].uid == 4;
    r := Continue(r1, FromSource(1, CancelRequest(1, 1, 8, 7), true, true));
  }

  /** Cancelling a replaced order by the replace's id is refused, although the venue took the replace. */
  lemma ChainedCancelRejected() returns (r: Run)
    ensures IsRun(r) && |r.events| == 3
    ensures r.trace[1].Request? && r.trace[1].req == CancelReplaceRequest(1, 1, 8, 7)
    ensures r.trace[1].routed == Forwarded(0, 3, WireCancelReplaceRequest(1, 1, 3, 2))
    ensures r.trace[2].Request? && r.trace[2].req == CancelRequest(1, 1, 9, 8)
    ensures r.trace[2].source == r.trace[1].source
    ensures r.trace[2].routed == NotRouted(DestinationRouterSessionNotFoundForUid) && r.trace[2].rejects == 2
  {
    r := FirstOrder();
    var r1 := Continue(r, FromSource(0, CancelReplaceRequest(1, 1, 8, 7), true, true));
    assert r1.states[2].sources[0].clOrdIdToUid == map[7 := 1];
    assert r1.states[2].sources[0].router == RoundRobinRouter([0], 0, map[1 := 0]);
    r := Continue(r1, FromSource(0, CancelRequest(1, 1, 9, 8), true, true));
  }

  /**
   * An order sent again after no destination was available is taken by the venue, and yet its
   * cancel is refused: the client id still leads to the uid of the first attempt.
   */
  lemma RetriedOrderNotCancellable() returns (r: Run)
    ensures IsRun(r) && |r.events| == 5
    ensures r.trace[1].Request? && r.trace[1].routed == NotRouted(DestinationRouterNoDestinationsAvailable)
    ensures r.trace[3].Request? && r.trace[3].req == r.trace[1].req == NewOrderSingle(1, 1, 7)
    ensures r.trace[3].source == r.trace[1].source && r.trace[3].routed.Forwarded?
    ensures r.trace[4].Request? && r.trace[4].source == r.trace[1].source
    ensures r.trace[4].req == CancelRequest(1, 1, 8, 7)
    ensures r.trace[4].routed == NotRouted(DestinationRouterSessionNotFoundForUid) && r.trace[4].rejects == 1
  {
    Starts(FRESH_RR);
    var r0 := Continue(StartOf(TwoClients(FRESH_RR)), LinkChange(0, false));
    assert Links(r0.states[1].dests, [0]) == [false];
    assert NextConnected([false], 0) == None;
    var r1 := Continue(r0, FromSource(0, NewOrderSingle(1, 1, 7), true, true));
    assert r1.states[2].sources[0].clOrdIdToUid == map[7 := 1];
    var r2 := Continue(r1, LinkChange(0, true));
    assert Links(r2.states[3].dests, [0]) == [true];
    assert NextConnected([true], 0) == Some(0);
    var r3 := Continue(r2, FromSource(0, NewOrderSingle(1, 1, 7), true, true));
    assert r3.states[4].sources[0].clOrdIdToUid == map[7 := 1];
    assert r3.states[4].sources[0].router == RoundRobinRouter([0], 0, map[2 := 0]);
    r := Continue(r3, FromSource(0, CancelRequest(1, 1, 8, 7), true, true));
  }

  /**
   * With one-to-one routing a request whose original is unknown to its source can be both
   * rejected and forwarded, and the venue's replies to it reach nobody.
   */
  lemma OneToOneForwardsUnknown() returns (r: Run)
    ensures IsRun(r) && |r.events| == 3
    ensures r.trace[1].Request? && !r.trace[1].known && r.trace[1].rejects == 1
    ensures r.trace[1].routed == Forwarded(0, 3, WireCancelRequest(1, 1, 3, 2))
    ensures r.trace[2].Reply? && r.trace[2].reply.c == 3 && r.trace[2].delivered == None
  {
    Starts(FRESH_ONE);
    var r0 := Continue(StartOf(TwoClients(FRESH_ONE)), FromSource(0, NewOrderSingle(1, 1, 7), true, true));
    assert r0.states[1].dests[0].destBySrc == map[7 := 2];
    assert r0.states[1].uidToSource == map[1 := 0];
    var r1 := Continue(r0, FromSource(1, CancelRequest(1, 1, 8, 7), true, true));
    assert r1.states[2].dests[0].srcByDest[3] == RoutingInfo(8, 0);
    r := Continue(r1, FromDestination(0, WireReply(ExecutionReport, 1, 1, 3), true, true));
  }

  // ---------- More than 2^32 draws ----------

  /** Client 0's orders, all refused because the only link is down, advance the counter. */
  lemma {:induction false} RefusedOrders(r: Run, n: nat) returns (x: Run)
    requires IsRun(r) && r.states[0] == TwoClients(FRESH_RR)
    requires var st := r.states[|r.events|];
             |st.sources| == 2 && |st.dests| == 1 && !st.dests[0].connected
             && st.sources[0].router.RoundRobinRouter? && st.sources[0].router.slots == [0]
             && st.sources[0].router.index == 0 && st.uid + n < TWO64
    ensures IsRun(x) && |x.events| == |r.events| + n && x.states[0] == r.states[0]
    ensures forall i :: 0 <= i < |r.events| ==> x.trace[i] == r.trace[i]
    ensures forall i :: |r.events| <= i < |x.events| ==> x.trace[i].Request? && x.trace[i].routed.NotRouted?
    ensures var st, st' := r.states[|r.events|], x.states[|x.events|];
            |st'.sources| == 2 && st'.dests == st.dests && st'.sources[1] == st.sources[1]
            && st'.uid == st.uid + n
            && forall u :: u in st.uidToSource ==> u in st'.uidToSource && st'.uidToSource[u] == st.uidToSource[u]
    decreases n
  {
    if n == 0 {
      x := r;
    } else {
      var st := r.states[|r.events|];
      assert Links(st.dests, [0]) == [false];
      assert NextConnected([false], 0) == None;
      var y := Continue(r, FromSource(0, NewOrderSingle(1, 1, 9), true, true));
      x := RefusedOrders(y, n - 1);
    }
  }

  /**
   * Beyond 2^32 draws a wire id comes round again: the venue's reply to client 1's order is
   * delivered to client 0 under client 0's id.
   */
  lemma ReplyToWrongClient() returns (r: Run, i: nat)
    ensures IsRun(r) && i + 2 == |r.events|
    ensures r.trace[i].Request? && r.trace[i].known && r.trace[i].source == 1
    ensures r.trace[i].routed.Forwarded? && r.trace[i].routed.dest == 0
    ensures r.trace[i + 1].Reply? && r.trace[i + 1].dest == 0
    ensures r.trace[i + 1].reply.c == r.trace[i].routed.msg.c
    ensures r.trace[i + 1].delivered == Some((0, ClientMessage(ExecutionReport, 1, 1, 7)))
  {
    r := FirstOrder();
    var r1 := Continue(r, LinkChange(0, false));
    var r2 := RefusedOrders(r1, TWO32 - 2);
    var r3 := Continue(r2, LinkChange(0, true));
    i := |r3.events|;
    var st := r3.states[i];
    assert st.dests[0].connected && st.sources[1] == FRESH_RR && st.uid == TWO32;
    assert Links(st.dests, [0]) == [true];
    assert NextConnected([true], 0) == Some(0);
    var r4 := Continue(r3, FromSource(1, NewOrderSingle(1, 1, 8), true, true));
    assert r4.trace[i].routed.wire == TWO32 + 2;
    assert Narrow(TWO32 + 2) == 2;
    r := Continue(r4, FromDestination(0, WireReply(ExecutionReport, 1, 1, 2), true, true));
  }
}
