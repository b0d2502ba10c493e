/** Nothing is lost and nothing is invented: requests, rejects and replies counted over runs. */
module Conservation {
  import opened Types
  import opened Messages
  import opened RoundRobin
  import opened Routing
  import opened History
  import opened Correlation
  import opened Coherence

  /** Counts over a history. `overlap` counts requests both forwarded and rejected. */
  datatype Tally = Tally(requests: nat, forwarded: nat, rejected: nat, unknown: nat, overlap: nat,
                         rejectMessages: nat, delivered: nat)

  function TallyOf(trace: seq<Record>, n: nat): Tally
    requires n <= |trace|
  {
    if n == 0 then Tally(0, 0, 0, 0, 0, 0, 0)
    else
      var t, rec := TallyOf(trace, n - 1), trace[n - 1];
      match rec
      case Request(_, _, _, known, _, routed, rejects, _) =>
        t.(requests := t.requests + 1,
           forwarded := t.forwarded + One(routed.Forwarded?),
           rejected := t.rejected + One(rejects > 0),
           unknown := t.unknown + One(!known),
           overlap := t.overlap + One(routed.Forwarded? && rejects > 0),
           rejectMessages := t.rejectMessages + rejects)
      case Reply(_, _, delivered) => t.(delivered := t.delivered + One(delivered.Some?))
      case Link(_, _) => t
  }

  /** Messages that all destinations' transports have taken. */
  function Sent(dests: seq<DestState>): nat {
    if dests == [] then 0 else |dests[0].sent| + Sent(dests[1..])
  }

  /** Messages handed to all clients' transports. */
  function Handed(sources: seq<SourceState>): nat {
    if sources == [] then 0 else |sources[0].handed| + Handed(sources[1..])
  }

  lemma {:induction false} SentUpdate(dests: seq<DestState>, d: nat, dest: DestState)
    requires d < |dests|
    ensures Sent(dests[d := dest]) == Sent(dests) - |dests[d].sent| + |dest.sent|
    ensures |dests[d].sent| <= Sent(dests)
    decreases |dests|
  {
    if d == 0 {
      assert dests[d := dest][1..] == dests[1..];
    } else {
      assert dests[d := dest][1..] == dests[1..][d - 1 := dest];
      SentUpdate(dests[1..], d - 1, dest);
    }
  }

  lemma {:induction false} HandedUpdate(sources: seq<SourceState>, s: nat, src: SourceState)
    requires s < |sources|
    ensures Handed(sources[s := src]) == Handed(sources) - |sources[s].handed| + |src.handed|
    ensures |sources[s].handed| <= Handed(sources)
    decreases |sources|
  {
    if s == 0 {
      assert sources[s := src][1..] == sources[1..];
    } else {
      assert sources[s := src][1..] == sources[1..][s - 1 := src];
      HandedUpdate(sources[1..], s - 1, src);
    }
  }

  lemma {:induction false} SentInitially(dests: seq<DestState>)
    requires forall d :: 0 <= d < |dests| ==> InitialDest(dests[d])
    ensures Sent(dests) == 0
    decreases |dests|
  {
    if dests != [] {
      SentInitially(dests[1..]);
    }
  }

  lemma {:induction false} HandedInitially(sources: seq<SourceState>)
    requires forall s :: 0 <= s < |sources| ==> sources[s].handed == []
    ensures Handed(sources) == 0
    decreases |sources|
  {
    if sources != [] {
      HandedInitially(sources[1..]);
    }
  }

  lemma RouteSends(net: Net, r: RouterState, req: Request, uid: uint64, valid: bool, sendOk: bool)
    requires WellFormedRouter(r, |net.dests|)
    ensures var x := Route(net, r, req, uid, valid, sendOk);
            Sent(x.net.dests) == Sent(net.dests) + One(x.routed.Forwarded?)
  {
    var x := Route(net, r, req, uid, valid, sendOk);
    RouteEffect(net, r, req, uid, valid, sendOk);
    RouteKeepsWellFormed(net, r, req, uid, valid, sendOk);
    if x.routed.Forwarded? {
      var d := x.routed.dest;
      SentUpdate(net.dests, d, x.net.dests[d]);
      assert x.net.dests == net.dests[d := x.net.dests[d]];
    } else {
      assert x.net.dests == net.dests;
    }
  }

  lemma StepCounts(st: State, e: Event)
    requires WellFormed(st) && Enabled(st, e)
    ensures var (st', rec) := Step(st, e);
            && Sent(st'.dests) == Sent(st.dests) + One(rec.Request? && rec.routed.Forwarded?)
            && Handed(st'.sources) == Handed(st.sources) +
               (match rec
                case Request(_, _, _, _, _, _, rejects, _) => rejects
                case Reply(_, _, delivered) => One(delivered.Some?)
                case Link(_, _) => 0)
  {
    var (st', rec) := Step(st, e);
    match e
    case FromSource(s, req, valid, sendOk) =>
      var uid := OrZero(FindUid(st.uid, st.sources[s], req));
      var counter := if req.NewOrderSingle? then uid else st.uid;
      RouteSends(Net(counter, st.dests), st.sources[s].router, req, uid, valid, sendOk);
      HandedUpdate(st.sources, s, st'.sources[s]);
    case FromDestination(d, reply, valid, sendOk) =>
      SentUpdate(st.dests, d, st'.dests[d]);
      if rec.delivered.Some? {
        HandedUpdate(st.sources, rec.delivered.value.0, st'.sources[rec.delivered.value.0]);
      }
    case LinkChange(d, up) =>
      SentUpdate(st.dests, d, st'.dests[d]);
  }

  /**
   * Conservation of messages in every run: what venues received is what was forwarded, and what
   * clients received is the rejects plus the delivered replies.
   */
  lemma {:induction false} MessageConservation(r: Run, n: nat)
    requires IsRun(r) && n <= |r.events|
    ensures Sent(r.states[n].dests) == TallyOf(r.trace, n).forwarded
    ensures Handed(r.states[n].sources) == TallyOf(r.trace, n).rejectMessages + TallyOf(r.trace, n).delivered
    decreases n
  {
    if n == 0 {
      SentInitially(r.states[0].dests);
      HandedInitially(r.states[0].sources);
    } else {
      MessageConservation(r, n - 1);
      assert IsStep(r, n - 1);
      StepCounts(r.states[n - 1], r.events[n - 1]);
    }
  }

  /** How a request's rejects are counted. */
  lemma RejectCount(r: Run, i: nat)
    requires IsRun(r) && i < |r.events|
    requires r.trace[i].Request?
    ensures r.trace[i].rejects == One(!r.trace[i].known) + One(!r.trace[i].routed.Forwarded?)
  {
    assert IsStep(r, i);
  }

  /**
   * Rejects go to the requesting client only, one for each stage that failed. A cancel draws cancel rejects,
   * every other request execution reports, and no reject has a price, a size or an id.
   */
  lemma RejectsAreBlank(r: Run, i: nat, s: nat)
    requires IsRun(r) && i < |r.events|
    requires r.trace[i].Request? && s < |r.states[i].sources|
    ensures s < |r.states[i + 1].sources|
    ensures var was, now := r.states[i].sources[s].handed, r.states[i + 1].sources[s].handed;
            && was <= now && |now| == |was| + (if s == r.trace[i].source then r.trace[i].rejects else 0)
            && forall k :: |was| <= k < |now| ==>
                 && (now[k].kind == CancelReject <==> r.trace[i].req.CancelRequest?)
                 && now[k].a == 0 && now[k].b == 0 && now[k].clOrdId == 0
  {
    EventDraws(r, i);
    var e := r.events[i];
    if s == e.source {
      TwoStages(r.states[i].sources[s].handed, !r.trace[i].known, !r.trace[i].routed.Forwarded?, e.req);
    }
  }

  lemma TwoStages(handed: seq<ClientMessage>, first: bool, second: bool, req: Request)
    ensures AddReject(AddReject(handed, first, req), second, req) ==
            handed + seq(One(first) + One(second), _ => BlankReject(req))
  {
  }

  /** Every source routes round robin. */
  ghost predicate AllRoundRobin(st: State) {
    forall s :: 0 <= s < |st.sources| ==> st.sources[s].router.RoundRobinRouter?
  }

  lemma {:induction false} TallyParts(r: Run, n: nat)
    requires IsRun(r) && n <= |r.events|
    ensures var t := TallyOf(r.trace, n);
            && t.requests + t.overlap == t.forwarded + t.rejected
            && t.rejectMessages + t.overlap == t.rejected + t.unknown
    decreases n
  {
    if n != 0 {
      TallyParts(r, n - 1);
      if r.trace[n - 1].Request? {
        RejectCount(r, n - 1);
      }
    }
  }

  lemma {:induction false} NoOverlap(r: Run, n: nat)
    requires IsRun(r) && n <= |r.events|
    requires AllRoundRobin(r.states[0])
    requires Drawn(r.trace, n) < TWO64
    ensures TallyOf(r.trace, n).overlap == 0
    decreases n
  {
    if n != 0 {
      DrawnGrows(r.trace, n - 1, n);
      NoOverlap(r, n - 1);
      var i := n - 1;
      if r.trace[i].Request? {
        RunStaysWellFormed(r, i);
        RecordSessions(r, i);
        RejectCount(r, i);
        KnownOriginal(r, i);
        if !r.trace[i].known {
          UnknownOriginalNeverForwarded(r, i, r.states[0].sources[r.trace[i].source].router.slots);
        }
      }
    }
  }

  /**
   * Request conservation over every round-robin run: requests received are requests taken by
   * venues plus requests rejected, and the reject messages are one per rejected request plus one
   * more for each unknown original.
   */
  lemma RequestConservation(r: Run, n: nat)
    requires IsRun(r) && n <= |r.events|
    requires AllRoundRobin(r.states[0])
    requires Drawn(r.trace, n) < TWO64
    ensures var t := TallyOf(r.trace, n);
            && t.requests == Sent(r.states[n].dests) + t.rejected
            && Handed(r.states[n].sources) == t.rejected + t.unknown + t.delivered
  {
    MessageConservation(r, n);
    TallyParts(r, n);
    NoOverlap(r, n);
  }
}
