/** Replies find their way back: what a venue's reply reaches, over every run. */
module Correlation {
  import opened Types
  import opened WireIds
  import opened Messages
  import opened Routing
  import opened History

  /** A record's sessions exist. */
  lemma RecordSessions(r: Run, i: nat)
    requires IsRun(r) && i < |r.events|
    ensures r.trace[i].Request? ==> r.trace[i].source < |r.states[i].sources|
    ensures r.trace[i].Request? && !r.trace[i].routed.NotRouted? ==> r.trace[i].routed.dest < |r.states[i].dests|
    ensures r.trace[i].Reply? ==> r.trace[i].dest < |r.states[i].dests|
    ensures |r.states[i].sources| == |r.states[i + 1].sources| && |r.states[i].dests| == |r.states[i + 1].dests|
  {
    assert IsStep(r, i);
    StepKeepsWellFormed(r.states[i], r.events[i]);
    var e, st := r.events[i], r.states[i];
    if e.FromSource? {
      var uid := OrZero(FindUid(st.uid, st.sources[e.source], e.req));
      var counter := if e.req.NewOrderSingle? then uid else st.uid;
      RouteKeepsWellFormed(Net(counter, st.dests), st.sources[e.source].router, e.req, uid, e.valid, e.sendOk);
    }
  }

  /** A cancel or replace is known exactly when its source sent a new order with that id before. */
  lemma KnownOriginal(r: Run, i: nat)
    requires IsRun(r) && i < |r.events|
    requires r.trace[i].Request?
    ensures IsNewOrder(r.trace[i]) ==> r.trace[i].known
    ensures !IsNewOrder(r.trace[i]) ==>
              var m := First(r.trace, i, NewOrderWithId(r.trace[i].source, r.trace[i].req.origClOrdId));
              && r.trace[i].known == m.Some?
              && r.trace[i].uid == (if m.Some? then r.trace[m.value].uid else 0)
  {
    RecordSessions(r, i);
    EventDraws(r, i);
    SourceAgreement(r, i, r.trace[i].source);
  }

  /** The uid of every known request leads to the source that sent it. */
  lemma UidLeadsToSource(r: Run, n: nat, i: nat)
    requires IsRun(r) && i < n <= |r.events|
    requires Drawn(r.trace, n) < TWO64
    requires r.trace[i].Request?
    ensures Find(r.states[n].uidToSource, r.trace[i].uid) ==
            if r.trace[i].known then Some(r.trace[i].source) else None
  {
    UidsAgreement(r, n);
    KnownOriginal(r, i);
    if !r.trace[i].known {
      ZeroIsNoUid(r, n);
    } else if IsNewOrder(r.trace[i]) {
      FirstWithUid(r, n, i);
    } else {
      var m := First(r.trace, i, NewOrderWithId(r.trace[i].source, r.trace[i].req.origClOrdId)).value;
      FirstWithUid(r, n, m);
    }
  }

  /** Where a reply goes, and with which ids, given the request it is matched to. */
  function Expected(trace: seq<Record>, reply: WireReply, m: Option<nat>): Option<(nat, ClientMessage)>
    requires m.Some? ==> m.value < |trace| && trace[m.value].Request?
  {
    if m.None? || !trace[m.value].known then None
    else Some((trace[m.value].source,
               ClientMessage(reply.kind, ToUint32(reply.a), ToUint32(reply.b), trace[m.value].req.clOrdId)))
  }

  /**
   * Reply routing, exactly: a reply from destination d with wire id c is delivered to the source
   * of the first request d accepted under c, with that request's client id, and to nobody when
   * there is no such request or its original was unknown.
   */
  lemma ReplyRouting(r: Run, j: nat)
    requires IsRun(r) && j < |r.events|
    requires Drawn(r.trace, j) < TWO64
    requires r.trace[j].Reply?
    ensures r.trace[j].delivered ==
            Expected(r.trace, r.trace[j].reply,
                     First(r.trace, j, AcceptedWireId(r.trace[j].dest, Widen(r.trace[j].reply.c))))
  {
    RecordSessions(r, j);
    UidsAgreement(r, j);
    assert IsStep(r, j);
    var d, key := r.trace[j].dest, Widen(r.trace[j].reply.c);
    WireKeyIndex(r, j, d, key);
    var m := First(r.trace, j, AcceptedWireId(d, key));
    if m.Some? {
      UidLeadsToSource(r, j, m.value);
    } else {
      ZeroIsNoUid(r, j);
      assert Find(r.states[j].uidToSource, 0) == SourceAt(r.trace, First(r.trace, j, NewOrderWithUid(0)));
    }
  }

  /** A delivery adds one message for that source and nothing for anyone else. */
  lemma DeliveryEffect(r: Run, j: nat, s: nat)
    requires IsRun(r) && j < |r.events|
    requires r.trace[j].Reply?
    requires s < |r.states[j].sources|
    ensures s < |r.states[j + 1].sources|
    ensures r.states[j + 1].sources[s].handed == r.states[j].sources[s].handed +
            match r.trace[j].delivered
            case Some((t, msg)) => if t == s then [msg] else []
            case None => []
  {
    assert IsStep(r, j);
  }

  /**
   * Reply correlation over every run: once destination d has accepted client s's request under
   * wire id c, every later reply from d with that c is handed to s and to nobody else, and
   * carries the client's own id. It holds for every request accepted within the first 2^32 draws,
   * whatever comes later; client ids may repeat within and across clients.
   */
  lemma ReplyCorrelation(r: Run, i: nat, j: nat)
    requires IsRun(r) && i < j < |r.events|
    requires Drawn(r.trace, i + 1) <= TWO32 && Drawn(r.trace, j) < TWO64
    requires r.trace[i].Request? && r.trace[i].known && r.trace[i].routed.Forwarded?
    requires r.trace[j].Reply?
    requires r.trace[j].dest == r.trace[i].routed.dest && r.trace[j].reply.c == r.trace[i].routed.msg.c
    ensures r.trace[i].source < |r.states[j].sources| == |r.states[j + 1].sources|
    ensures forall s :: 0 <= s < |r.states[j].sources| ==>
              r.states[j + 1].sources[s].handed == r.states[j].sources[s].handed +
              if s == r.trace[i].source
              then [ClientMessage(r.trace[j].reply.kind, ToUint32(r.trace[j].reply.a), ToUint32(r.trace[j].reply.b),
                                  r.trace[i].req.clOrdId)]
              else []
  {
    ReplyRouting(r, j);
    FirstWithWireId(r, j, i);
    RunStaysWellFormed(r, i);
    RunStaysWellFormed(r, j);
    RecordSessions(r, i);
    RecordSessions(r, j);
    forall s | 0 <= s < |r.states[j].sources|
      ensures r.states[j + 1].sources[s].handed == r.states[j].sources[s].handed +
              if s == r.trace[i].source
              then [ClientMessage(r.trace[j].reply.kind, ToUint32(r.trace[j].reply.a), ToUint32(r.trace[j].reply.b),
                                  r.trace[i].req.clOrdId)]
              else []
    {
      DeliveryEffect(r, j, s);
    }
  }

  /**
   * The exact condition without a bound on draws: the reply is right if and only if the first
   * request d accepted under that wire id is known and has the same source and client id.
   */
  lemma ReplyCorrelationExact(r: Run, i: nat, j: nat)
    requires IsRun(r) && i < j < |r.events|
    requires Drawn(r.trace, j) < TWO64
    requires r.trace[i].Request? && r.trace[i].routed.Forwarded?
    requires r.trace[j].Reply?
    requires r.trace[j].dest == r.trace[i].routed.dest && r.trace[j].reply.c == r.trace[i].routed.msg.c
    ensures var m := First(r.trace, j, AcceptedWireId(r.trace[j].dest, Widen(r.trace[j].reply.c)));
            && m.Some? && m.value <= i
            && (m.value < i ==> TWO32 <= Drawn(r.trace, i + 1) - Drawn(r.trace, m.value + 1))
            && ((r.trace[j].delivered.Some?
                 && r.trace[j].delivered.value.0 == r.trace[i].source
                 && r.trace[j].delivered.value.1.clOrdId == r.trace[i].req.clOrdId)
                <==>
                (r.trace[m.value].known
                 && r.trace[m.value].source == r.trace[i].source
                 && r.trace[m.value].req.clOrdId == r.trace[i].req.clOrdId))
  {
    ReplyRouting(r, j);
    var q := AcceptedWireId(r.trace[j].dest, Widen(r.trace[j].reply.c));
    assert Matches(r.trace[i], q);
    var m := First(r.trace, j, q).value;
    if m < i {
      IdsOfStep(r, m);
      IdsOfStep(r, i);
      DrawnGrows(r.trace, m + 1, i);
      WireIdsApart(Drawn(r.trace, m + 1), Drawn(r.trace, i + 1));
    }
  }

  lemma WireIdsApart(x: nat, y: nat)
    requires x < y
    requires Widen(Narrow(Draw(x))) == Widen(Narrow(Draw(y)))
    ensures TWO32 <= y - x
  {
    if y - x < TWO32 {
      WireIdsDistinct(x, y);
    }
  }

  /**
   * Round trip through a venue that echoes a, b and c: the client gets back its own price, its
   * own size and its own id.
   */
  lemma EchoRoundTrip(r: Run, i: nat, j: nat)
    requires IsRun(r) && i < j < |r.events|
    requires Drawn(r.trace, i + 1) <= TWO32 && Drawn(r.trace, j) < TWO64
    requires r.trace[i].Request? && r.trace[i].known && r.trace[i].routed.Forwarded?
    requires r.trace[j].Reply? && r.trace[j].dest == r.trace[i].routed.dest
    requires var msg, reply := r.trace[i].routed.msg, r.trace[j].reply;
             reply.a == msg.a && reply.b == msg.b && reply.c == msg.c
    ensures var req := r.trace[i].req;
            r.trace[j].delivered ==
            Some((r.trace[i].source, ClientMessage(r.trace[j].reply.kind, req.a, req.b, req.clOrdId)))
  {
    ReplyRouting(r, j);
    FirstWithWireId(r, j, i);
    ForwardedPayload(r, i);
  }

  /** The venue sees the same kind of request, with the client's price and size. */
  lemma ForwardedPayload(r: Run, i: nat)
    requires IsRun(r) && i < |r.events|
    requires r.trace[i].Request? && r.trace[i].routed.Forwarded?
    ensures var req, msg := r.trace[i].req, r.trace[i].routed.msg;
            && msg.a == Narrow(req.a) && ToUint32(msg.a) == req.a
            && msg.b == Narrow(req.b) && ToUint32(msg.b) == req.b
            && (msg.WireNewOrderSingle? <==> req.NewOrderSingle?)
            && (msg.WireCancelReplaceRequest? <==> req.CancelReplaceRequest?)
            && (msg.WireCancelRequest? <==> req.CancelRequest?)
  {
    EventDraws(r, i);
    var e := r.events[i];
    ReachedOutcome(r.states[i], e.source, e.req, e.valid, e.sendOk);
    PayloadRoundTrip(r.trace[i].req.a);
    PayloadRoundTrip(r.trace[i].req.b);
  }

  /**
   * The destination session logs nothing for a reply exactly when it reached a client, passed
   * validation and was taken by the client's transport. Delivery does not depend on validation. Otherwise
   * each stage that failed adds its code, in the order of the stages.
   */
  lemma ReplyLoggedExactly(r: Run, j: nat)
    requires IsRun(r) && j < |r.events|
    requires Drawn(r.trace, j) < TWO64
    requires r.trace[j].Reply?
    ensures r.events[j].FromDestination? && r.trace[j].dest < |r.states[j].dests| == |r.states[j + 1].dests|
    ensures var d, e := r.trace[j].dest, r.events[j];
            r.states[j + 1].dests[d].logged == r.states[j].dests[d].logged <==>
            r.trace[j].delivered.Some? && e.valid && e.sendOk
    ensures var d, e := r.trace[j].dest, r.events[j];
            r.states[j + 1].dests[d].logged == r.states[j].dests[d].logged
            + (if First(r.trace, j, AcceptedWireId(d, Widen(r.trace[j].reply.c))).None?
               then [DestinationSessionSourceMsgIdNotFound] else [])
            + (if e.valid then [] else [ValidatorValidationFailed])
            + (if r.trace[j].delivered.None? then [SourceRouterRoutingFailed]
               else if e.sendOk then [] else [TransportFailedToSendData])
    ensures forall e :: 0 <= e < |r.states[j].dests| && e != r.trace[j].dest ==>
              r.states[j + 1].dests[e] == r.states[j].dests[e]
  {
    RecordSessions(r, j);
    assert IsStep(r, j);
    UidsAgreement(r, j);
    ZeroIsNoUid(r, j);
    assert Find(r.states[j].uidToSource, 0) == SourceAt(r.trace, First(r.trace, j, NewOrderWithUid(0)));
    WireKeyIndex(r, j, r.trace[j].dest, Widen(r.trace[j].reply.c));
    LoggedCodes(r.states[j], r.trace[j].dest, r.trace[j].reply, r.events[j].valid, r.events[j].sendOk);
  }

  lemma LoggedCodes(st: State, d: nat, reply: WireReply, valid: bool, sendOk: bool)
    requires WellFormed(st) && d < |st.dests|
    ensures var (after, rec) := StepReply(st, d, reply, valid, sendOk);
            rec.Reply? && after.dests[d].logged == st.dests[d].logged
            + (if Find(st.dests[d].srcByDest, Widen(reply.c)).None? then [DestinationSessionSourceMsgIdNotFound]
               else [])
            + (if valid then [] else [ValidatorValidationFailed])
            + (if rec.delivered.None? then [SourceRouterRoutingFailed]
               else if sendOk then [] else [TransportFailedToSendData])
  {
    var logged := st.dests[d].logged;
    assert logged + [] == logged;
  }
}
