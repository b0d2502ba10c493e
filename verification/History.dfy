/** Runs of the routing system, their history, and the agreement of every map with it. */
module History {
  import opened Types
  import opened WireIds
  import opened Messages
  import opened RoundRobin
  import opened Routing

  // ---------- Runs ----------

  /** Start-up: nothing drawn, nothing remembered, links in any state. */
  ghost predicate Initial(st: State) {
    && st.uid == 0 && st.uidToSource == map[]
    && (forall s :: 0 <= s < |st.sources| ==> InitialSource(st.sources[s], |st.dests|))
    && (forall d :: 0 <= d < |st.dests| ==> InitialDest(st.dests[d]))
  }

  ghost predicate InitialSource(src: SourceState, destCount: nat) {
    && src.clOrdIdToUid == map[] && src.handed == []
    && WellFormedRouter(src.router, destCount)
    && (src.router.RoundRobinRouter? ==> src.router.index == 0 && src.router.uidToSlot == map[])
  }

  ghost predicate InitialDest(dest: DestState) {
    dest.destBySrc == map[] && dest.srcByDest == map[] && dest.sent == [] && dest.logged == []
  }

  datatype Run = Run(states: seq<State>, events: seq<Event>, trace: seq<Record>)

  ghost predicate IsRun(r: Run) {
    && |r.states| == |r.events| + 1 && |r.trace| == |r.events|
    && Initial(r.states[0])
    && forall i :: 0 <= i < |r.events| ==> IsStep(r, i)
  }

  ghost predicate IsStep(r: Run, i: nat)
    requires i < |r.events| < |r.states| && i < |r.trace|
  {
    && WellFormed(r.states[i]) && Enabled(r.states[i], r.events[i])
    && (r.states[i + 1], r.trace[i]) == Step(r.states[i], r.events[i])
  }

  lemma {:induction false} RunStaysWellFormed(r: Run, n: nat)
    requires IsRun(r) && n <= |r.events|
    ensures WellFormed(r.states[n])
    ensures |r.states[n].sources| == |r.states[0].sources| && |r.states[n].dests| == |r.states[0].dests|
    decreases n
  {
    if n != 0 {
      RunStaysWellFormed(r, n - 1);
      assert IsStep(r, n - 1);
      StepKeepsWellFormed(r.states[n - 1], r.events[n - 1]);
    }
  }

  /** The run that goes on from r with one more event. */
  ghost function Extend(r: Run, e: Event): Run
    requires IsRun(r) && WellFormed(r.states[|r.events|]) && Enabled(r.states[|r.events|], e)
  {
    var (st, rec) := Step(r.states[|r.events|], e);
    Run(r.states + [st], r.events + [e], r.trace + [rec])
  }

  /** No run is stuck: every event addressed to an existing session can come next. */
  lemma RunExtends(r: Run, e: Event)
    requires IsRun(r)
    requires Enabled(r.states[0], e)
    ensures WellFormed(r.states[|r.events|]) && Enabled(r.states[|r.events|], e)
    ensures IsRun(Extend(r, e))
  {
    RunStaysWellFormed(r, |r.events|);
    var x := Extend(r, e);
    forall i | 0 <= i < |x.events|
      ensures IsStep(x, i)
    {
      if i < |r.events| {
        assert IsStep(r, i);
      }
    }
  }

  /** The same, with what the longer run looks like. */
  lemma Continue(r: Run, e: Event) returns (x: Run)
    requires IsRun(r) && Enabled(r.states[0], e)
    ensures IsRun(x) && x.events == r.events + [e]
    ensures |x.states| == |r.states| + 1 && |x.trace| == |r.trace| + 1
    ensures forall i :: 0 <= i < |r.trace| ==> x.trace[i] == r.trace[i]
    ensures forall i :: 0 <= i < |r.states| ==> x.states[i] == r.states[i]
    ensures WellFormed(r.states[|r.events|]) && Enabled(r.states[|r.events|], e)
    ensures (x.states[|r.states|], x.trace[|r.trace|]) == Step(r.states[|r.events|], e)
  {
    RunExtends(r, e);
    x := Extend(r, e);
  }

  // ---------- History queries ----------

  datatype Query =
    | NewOrderWithId(source: nat, clOrdId: uint64)
    | NewOrderWithUid(uid: uint64)
    | PlacedNewOrder(source: nat, uid: uint64)
    | AcceptedClientId(dest: nat, clOrdId: uint64)
    | AcceptedWireId(dest: nat, key: uint64)

  predicate IsNewOrder(rec: Record) {
    rec.Request? && rec.req.NewOrderSingle?
  }

  predicate AcceptedBy(rec: Record, d: nat) {
    rec.Request? && rec.routed.Forwarded? && rec.routed.dest == d
  }

  predicate Matches(rec: Record, q: Query) {
    match q
    case NewOrderWithId(s, k) => IsNewOrder(rec) && rec.source == s && rec.req.clOrdId == k
    case NewOrderWithUid(u) => IsNewOrder(rec) && rec.uid == u
    case PlacedNewOrder(s, u) => IsNewOrder(rec) && rec.source == s && rec.uid == u && rec.slot.Some?
    case AcceptedClientId(d, k) => AcceptedBy(rec, d) && rec.req.clOrdId == k
    case AcceptedWireId(d, key) => AcceptedBy(rec, d) && Widen(rec.routed.msg.c) == key
  }

  /** Index of the first of the first n records that matches. */
  function First(trace: seq<Record>, n: nat, q: Query): (i: Option<nat>)
    requires n <= |trace|
    ensures i.Some? ==> i.value < n && Matches(trace[i.value], q)
    ensures i.Some? ==> forall j :: 0 <= j < i.value ==> !Matches(trace[j], q)
    ensures i.None? ==> forall j :: 0 <= j < n ==> !Matches(trace[j], q)
  {
    if n == 0 then None
    else
      var before := First(trace, n - 1, q);
      if before.Some? then before else if Matches(trace[n - 1], q) then Some(n - 1) else None
  }

  function UidAt(trace: seq<Record>, i: Option<nat>): Option<uint64>
    requires i.Some? ==> i.value < |trace| && trace[i.value].Request?
  {
    if i.None? then None else Some(trace[i.value].uid)
  }

  function SourceAt(trace: seq<Record>, i: Option<nat>): Option<nat>
    requires i.Some? ==> i.value < |trace| && trace[i.value].Request?
  {
    if i.None? then None else Some(trace[i.value].source)
  }

  function SlotAt(trace: seq<Record>, i: Option<nat>): Option<nat>
    requires i.Some? ==> i.value < |trace| && trace[i.value].Request?
  {
    if i.None? then None else trace[i.value].slot
  }

  function KeyAt(trace: seq<Record>, i: Option<nat>): Option<uint64>
    requires i.Some? ==> i.value < |trace| && trace[i.value].Request? && trace[i.value].routed.Forwarded?
  {
    if i.None? then None else Some(Widen(trace[i.value].routed.msg.c))
  }

  function RoutingInfoAt(trace: seq<Record>, i: Option<nat>): Option<RoutingInfo>
    requires i.Some? ==> i.value < |trace| && trace[i.value].Request?
  {
    if i.None? then None else Some(RoutingInfo(trace[i.value].req.clOrdId, trace[i.value].uid))
  }

  // ---------- Agreement of the maps with the history ----------

  ghost predicate SourceAgrees(src: SourceState, s: nat, trace: seq<Record>, n: nat)
    requires n <= |trace|
  {
    && (forall k :: Find(src.clOrdIdToUid, k) == UidAt(trace, First(trace, n, NewOrderWithId(s, k))))
    && (src.router.RoundRobinRouter? ==>
          forall u :: Find(src.router.uidToSlot, u) == SlotAt(trace, First(trace, n, PlacedNewOrder(s, u))))
  }

  ghost predicate DestAgrees(dest: DestState, d: nat, trace: seq<Record>, n: nat)
    requires n <= |trace|
  {
    && (forall k :: Find(dest.destBySrc, k) == KeyAt(trace, First(trace, n, AcceptedClientId(d, k))))
    && (forall w :: Find(dest.srcByDest, w) == RoutingInfoAt(trace, First(trace, n, AcceptedWireId(d, w))))
  }

  ghost predicate UidsAgree(uidToSource: map<uint64, nat>, trace: seq<Record>, n: nat)
    requires n <= |trace|
  {
    forall u :: Find(uidToSource, u) == SourceAt(trace, First(trace, n, NewOrderWithUid(u)))
  }

  /** Every map of the system is the function of the history that its purpose calls for. */
  ghost predicate Agrees(st: State, trace: seq<Record>, n: nat)
    requires n <= |trace|
  {
    && UidsAgree(st.uidToSource, trace, n)
    && (forall s :: 0 <= s < |st.sources| ==> SourceAgrees(st.sources[s], s, trace, n))
    && (forall d :: 0 <= d < |st.dests| ==> DestAgrees(st.dests[d], d, trace, n))
  }

  lemma RouteEffect(net: Net, r: RouterState, req: Request, uid: uint64, valid: bool, sendOk: bool)
    requires WellFormedRouter(r, |net.dests|)
    ensures var x := Route(net, r, req, uid, valid, sendOk);
            && |x.net.dests| == |net.dests|
            && (x.slot.Some? ==> r.RoundRobinRouter?)
            && (x.router == r || (r.RoundRobinRouter? && req.NewOrderSingle? && x.slot.Some?
                && x.router == r.(index := x.slot.value, uidToSlot := Emplace(r.uidToSlot, uid, x.slot.value))))
            && (x.slot.Some? && req.NewOrderSingle? ==> x.router != r || uid in r.uidToSlot)
            && (forall d :: 0 <= d < |net.dests| ==>
                  x.net.dests[d] == if x.routed.Forwarded? && x.routed.dest == d
                                    then Remember(net.dests[d], req, uid, x.routed.msg)
                                    else net.dests[d])
  {
    if r.RoundRobinRouter? && req.NewOrderSingle? {
      NextConnectedMeaning(Links(net.dests, r.slots), r.index);
    }
  }

  lemma DestStepAgrees(before: DestState, after: DestState, d: nat, trace: seq<Record>, n: nat)
    requires n < |trace|
    requires DestAgrees(before, d, trace, n)
    requires DestChange(before, after, d, trace[n])
    ensures DestAgrees(after, d, trace, n + 1)
  {
    forall k
      ensures Find(after.destBySrc, k) == KeyAt(trace, First(trace, n + 1, AcceptedClientId(d, k)))
    {
      assert Find(before.destBySrc, k) == KeyAt(trace, First(trace, n, AcceptedClientId(d, k)));
    }
    forall w
      ensures Find(after.srcByDest, w) == RoutingInfoAt(trace, First(trace, n + 1, AcceptedWireId(d, w)))
    {
      assert Find(before.srcByDest, w) == RoutingInfoAt(trace, First(trace, n, AcceptedWireId(d, w)));
    }
  }

  /** What the step's record says about the change of source s. */
  ghost predicate SourceChange(before: SourceState, after: SourceState, s: nat, rec: Record) {
    && (if IsNewOrder(rec) && rec.source == s
        then after.clOrdIdToUid == Emplace(before.clOrdIdToUid, rec.req.clOrdId, rec.uid)
        else after.clOrdIdToUid == before.clOrdIdToUid)
    && after.router.RoundRobinRouter? == before.router.RoundRobinRouter?
    && (before.router.RoundRobinRouter? ==>
          after.router.uidToSlot ==
          if IsNewOrder(rec) && rec.source == s && rec.slot.Some?
          then Emplace(before.router.uidToSlot, rec.uid, rec.slot.value)
          else before.router.uidToSlot)
  }

  lemma SourceStepAgrees(before: SourceState, after: SourceState, s: nat, trace: seq<Record>, n: nat)
    requires n < |trace|
    requires SourceAgrees(before, s, trace, n)
    requires SourceChange(before, after, s, trace[n])
    ensures SourceAgrees(after, s, trace, n + 1)
  {
    forall k
      ensures Find(after.clOrdIdToUid, k) == UidAt(trace, First(trace, n + 1, NewOrderWithId(s, k)))
    {
      assert Find(before.clOrdIdToUid, k) == UidAt(trace, First(trace, n, NewOrderWithId(s, k)));
    }
    if before.router.RoundRobinRouter? {
      forall u
        ensures Find(after.router.uidToSlot, u) == SlotAt(trace, First(trace, n + 1, PlacedNewOrder(s, u)))
      {
        assert Find(before.router.uidToSlot, u) == SlotAt(trace, First(trace, n, PlacedNewOrder(s, u)));
      }
    }
  }

  lemma UidsStepAgree(before: map<uint64, nat>, after: map<uint64, nat>, trace: seq<Record>, n: nat)
    requires n < |trace|
    requires UidsAgree(before, trace, n)
    requires after == if IsNewOrder(trace[n]) then Emplace(before, trace[n].uid, trace[n].source) else before
    ensures UidsAgree(after, trace, n + 1)
  {
    forall u
      ensures Find(after, u) == SourceAt(trace, First(trace, n + 1, NewOrderWithUid(u)))
    {
      assert Find(before, u) == SourceAt(trace, First(trace, n, NewOrderWithUid(u)));
    }
  }

  /** What a step's record says about the change of destination d. */
  ghost predicate DestChange(before: DestState, after: DestState, d: nat, rec: Record) {
    if AcceptedBy(rec, d) then after == Remember(before, rec.req, rec.uid, rec.routed.msg)
    else after.destBySrc == before.destBySrc && after.srcByDest == before.srcByDest && after.sent == before.sent
  }

  lemma RequestEffect(st: State, s: nat, req: Request, valid: bool, sendOk: bool)
    requires WellFormed(st) && s < |st.sources|
    ensures var (st', rec) := StepRequest(st, s, req, valid, sendOk);
            && |st'.dests| == |st.dests|
            && SourceChange(st.sources[s], st'.sources[s], s, rec)
            && forall d :: 0 <= d < |st.dests| ==> DestChange(st.dests[d], st'.dests[d], d, rec)
  {
    var uid := OrZero(FindUid(st.uid, st.sources[s], req));
    var counter := if req.NewOrderSingle? then uid else st.uid;
    RouteEffect(Net(counter, st.dests), st.sources[s].router, req, uid, valid, sendOk);
  }

  /** How one step changes each part, in terms of its record alone. */
  lemma StepEffect(st: State, e: Event)
    requires WellFormed(st) && Enabled(st, e)
    ensures var (st', rec) := Step(st, e);
            && |st'.sources| == |st.sources| && |st'.dests| == |st.dests|
            && st'.uidToSource ==
               (if IsNewOrder(rec) then Emplace(st.uidToSource, rec.uid, rec.source) else st.uidToSource)
            && (forall s :: 0 <= s < |st.sources| ==> SourceChange(st.sources[s], st'.sources[s], s, rec))
            && (forall d :: 0 <= d < |st.dests| ==> DestChange(st.dests[d], st'.dests[d], d, rec))
  {
    if e.FromSource? {
      RequestEffect(st, e.source, e.req, e.valid, e.sendOk);
    }
  }

  lemma StepInRun(r: Run, i: nat)
    requires IsRun(r) && i < |r.events|
    ensures var st, st', rec := r.states[i], r.states[i + 1], r.trace[i];
            && |st'.sources| == |st.sources| && |st'.dests| == |st.dests|
            && st'.uidToSource ==
               (if IsNewOrder(rec) then Emplace(st.uidToSource, rec.uid, rec.source) else st.uidToSource)
            && (forall s :: 0 <= s < |st.sources| ==> SourceChange(st.sources[s], st'.sources[s], s, rec))
            && (forall d :: 0 <= d < |st.dests| ==> DestChange(st.dests[d], st'.dests[d], d, rec))
  {
    assert IsStep(r, i);
    StepEffect(r.states[i], r.events[i]);
  }

  lemma {:induction false} UidsAgreement(r: Run, n: nat)
    requires IsRun(r) && n <= |r.events|
    ensures UidsAgree(r.states[n].uidToSource, r.trace, n)
    decreases n
  {
    if n != 0 {
      UidsAgreement(r, n - 1);
      StepInRun(r, n - 1);
      UidsStepAgree(r.states[n - 1].uidToSource, r.states[n].uidToSource, r.trace, n - 1);
    }
  }

  lemma {:induction false} SourceAgreement(r: Run, n: nat, s: nat)
    requires IsRun(r) && n <= |r.events| && s < |r.states[n].sources|
    ensures SourceAgrees(r.states[n].sources[s], s, r.trace, n)
    decreases n
  {
    if n != 0 {
      StepInRun(r, n - 1);
      SourceAgreement(r, n - 1, s);
      SourceStepAgrees(r.states[n - 1].sources[s], r.states[n].sources[s], s, r.trace, n - 1);
    }
  }

  lemma {:induction false} DestAgreement(r: Run, n: nat, d: nat)
    requires IsRun(r) && n <= |r.events| && d < |r.states[n].dests|
    ensures DestAgrees(r.states[n].dests[d], d, r.trace, n)
    decreases n
  {
    if n != 0 {
      StepInRun(r, n - 1);
      DestAgreement(r, n - 1, d);
      DestStepAgrees(r.states[n - 1].dests[d], r.states[n].dests[d], d, r.trace, n - 1);
    }
  }

  /** Index agreement in every reachable state, with no bound on ids or on the length of the run. */
  lemma IndexAgreement(r: Run, n: nat)
    requires IsRun(r) && n <= |r.events|
    ensures Agrees(r.states[n], r.trace, n)
  {
    UidsAgreement(r, n);
    forall s | 0 <= s < |r.states[n].sources|
      ensures SourceAgrees(r.states[n].sources[s], s, r.trace, n)
    {
      SourceAgreement(r, n, s);
    }
    forall d | 0 <= d < |r.states[n].dests|
      ensures DestAgrees(r.states[n].dests[d], d, r.trace, n)
    {
      DestAgreement(r, n, d);
    }
  }

  /** What a destination's forward index holds for client id k after n steps. */
  lemma ClientIdIndex(r: Run, n: nat, d: nat, k: uint64)
    requires IsRun(r) && n <= |r.events| && d < |r.states[n].dests|
    ensures Find(r.states[n].dests[d].destBySrc, k) == KeyAt(r.trace, First(r.trace, n, AcceptedClientId(d, k)))
  {
    DestAgreement(r, n, d);
  }

  /** What a destination's reverse index holds for wire key w after n steps. */
  lemma WireKeyIndex(r: Run, n: nat, d: nat, w: uint64)
    requires IsRun(r) && n <= |r.events| && d < |r.states[n].dests|
    ensures Find(r.states[n].dests[d].srcByDest, w) == RoutingInfoAt(r.trace, First(r.trace, n, AcceptedWireId(d, w)))
  {
    DestAgreement(r, n, d);
  }

  /** A request that reached a destination is forwarded unless lookup, validator or transport fails. */
  lemma ReachedOutcome(st: State, s: nat, req: Request, valid: bool, sendOk: bool)
    requires WellFormed(st) && s < |st.sources|
    ensures var rec := StepRequest(st, s, req, valid, sendOk).1;
            !rec.routed.NotRouted? ==>
              && rec.routed.dest < |st.dests|
              && var o := TranslateOriginal(st.dests[rec.routed.dest], req);
                 && (rec.routed.Forwarded? <==> o.Some? && valid && sendOk)
                 && (rec.routed.Forwarded? ==> rec.routed.msg == ToWire(req, Narrow(rec.routed.wire), o.value))
  {
    var uid := OrZero(FindUid(st.uid, st.sources[s], req));
    var net := Net(if req.NewOrderSingle? then uid else st.uid, st.dests);
    RouteKeepsWellFormed(net, st.sources[s].router, req, uid, valid, sendOk);
  }

  // ---------- Ids drawn ----------

  function DrawnBy(rec: Record): nat {
    if rec.Request? then rec.drawn else 0
  }

  /** Ids drawn from the shared counter by the first n steps. */
  function Drawn(trace: seq<Record>, n: nat): nat
    requires n <= |trace|
  {
    if n == 0 then 0 else Drawn(trace, n - 1) + DrawnBy(trace[n - 1])
  }

  lemma {:induction false} DrawnGrows(trace: seq<Record>, i: nat, n: nat)
    requires i <= n <= |trace|
    ensures Drawn(trace, i) <= Drawn(trace, n)
    decreases n
  {
    if i < n {
      DrawnGrows(trace, i, n - 1);
    }
  }

  lemma RouteStamps(net: Net, r: RouterState, req: Request, uid: uint64, valid: bool, sendOk: bool)
    requires WellFormedRouter(r, |net.dests|)
    ensures var routed := Route(net, r, req, uid, valid, sendOk).routed;
            routed.Forwarded? ==> routed.msg.c == Narrow(routed.wire)
  {
  }

  lemma NextUidAdds(uid: uint64)
    ensures NextUid(uid) == (uid + 1) % TWO64
    ensures NextUid(NextUid(uid)) == (uid + 2) % TWO64
    ensures uid == (uid + 0) % TWO64
  {
  }

  /** Ids a request step draws: the uid of a new order, then a wire id if a destination saw it. */
  lemma RequestDraws(st: State, s: nat, req: Request, valid: bool, sendOk: bool)
    requires WellFormed(st) && s < |st.sources|
    ensures var (st', rec) := StepRequest(st, s, req, valid, sendOk);
            && st'.uid == (st.uid + rec.drawn) % TWO64
            && (IsNewOrder(rec) ==> rec.uid == NextUid(st.uid) && 1 <= rec.drawn)
            && (!rec.routed.NotRouted? ==> rec.routed.wire == st'.uid && 1 <= rec.drawn)
            && (rec.routed.Forwarded? ==> rec.routed.msg.c == Narrow(rec.routed.wire))
  {
    var uid := OrZero(FindUid(st.uid, st.sources[s], req));
    var net := Net(if req.NewOrderSingle? then uid else st.uid, st.dests);
    RouteKeepsWellFormed(net, st.sources[s].router, req, uid, valid, sendOk);
    RouteStamps(net, st.sources[s].router, req, uid, valid, sendOk);
    NextUidAdds(st.uid);
  }

  lemma DrawAdds(x: nat, y: nat)
    ensures (Draw(x) + y) % TWO64 == Draw(x + y)
  {
  }

  lemma EventAdvances(r: Run, i: nat)
    requires IsRun(r) && i < |r.events|
    ensures r.states[i + 1].uid == (r.states[i].uid + DrawnBy(r.trace[i])) % TWO64
  {
    EventDraws(r, i);
  }

  lemma EventDraws(r: Run, i: nat)
    requires IsRun(r) && i < |r.events|
    ensures r.states[i + 1].uid == (r.states[i].uid + DrawnBy(r.trace[i])) % TWO64
    ensures WellFormed(r.states[i]) && WellFormed(r.states[i + 1])
    ensures r.trace[i].Request? ==> r.events[i].FromSource? && r.events[i].source < |r.states[i].sources|
    ensures r.trace[i].Request? ==>
              (r.states[i + 1], r.trace[i]) ==
              StepRequest(r.states[i], r.events[i].source, r.events[i].req, r.events[i].valid, r.events[i].sendOk)
    ensures IsNewOrder(r.trace[i]) ==> r.trace[i].uid == NextUid(r.states[i].uid) && 1 <= r.trace[i].drawn
    ensures r.trace[i].Request? && !r.trace[i].routed.NotRouted? ==>
              r.trace[i].routed.wire == r.states[i + 1].uid && 1 <= r.trace[i].drawn
    ensures r.trace[i].Request? && r.trace[i].routed.Forwarded? ==>
              r.trace[i].routed.msg.c == Narrow(r.trace[i].routed.wire)
  {
    assert IsStep(r, i);
    RunStaysWellFormed(r, i + 1);
    var st, e := r.states[i], r.events[i];
    if e.FromSource? {
      RequestDraws(st, e.source, e.req, e.valid, e.sendOk);
    } else {
      NextUidAdds(st.uid);
    }
  }

  /** The counter has been advanced once for every id in the history. */
  lemma {:induction false} CounterIsDrawn(r: Run, n: nat)
    requires IsRun(r) && n <= |r.events|
    ensures r.states[n].uid == Draw(Drawn(r.trace, n))
    decreases n
  {
    if n != 0 {
      CounterIsDrawn(r, n - 1);
      EventAdvances(r, n - 1);
      DrawAdds(Drawn(r.trace, n - 1), DrawnBy(r.trace[n - 1]));
    }
  }

  /** Position in the global order of draws of the ids that step i used. */
  lemma IdsOfStep(r: Run, i: nat)
    requires IsRun(r) && i < |r.events|
    ensures IsNewOrder(r.trace[i]) ==>
              r.trace[i].uid == Draw(Drawn(r.trace, i) + 1) && Drawn(r.trace, i) < Drawn(r.trace, i + 1)
    ensures r.trace[i].Request? && !r.trace[i].routed.NotRouted? ==>
              r.trace[i].routed.wire == Draw(Drawn(r.trace, i + 1)) && Drawn(r.trace, i) < Drawn(r.trace, i + 1)
    ensures r.trace[i].Request? && r.trace[i].routed.Forwarded? ==>
              r.trace[i].routed.msg.c == Narrow(r.trace[i].routed.wire)
  {
    assert IsStep(r, i);
    EventDraws(r, i);
    CounterIsDrawn(r, i);
    CounterIsDrawn(r, i + 1);
    DrawAdds(Drawn(r.trace, i), 1);
  }

  /**
   * Two accepted requests share a wire id, and with it a map key, exactly when a multiple of 2^32
   * draws lies between them.
   */
  lemma WireIdRepeats(r: Run, i: nat, j: nat)
    requires IsRun(r) && i <= j < |r.events|
    requires r.trace[i].Request? && r.trace[i].routed.Forwarded?
    requires r.trace[j].Request? && r.trace[j].routed.Forwarded?
    ensures Drawn(r.trace, i + 1) <= Drawn(r.trace, j + 1)
    ensures r.trace[i].routed.msg.c == r.trace[j].routed.msg.c <==>
            (Drawn(r.trace, j + 1) - Drawn(r.trace, i + 1)) % TWO32 == 0
    ensures Widen(r.trace[i].routed.msg.c) == Widen(r.trace[j].routed.msg.c) <==>
            (Drawn(r.trace, j + 1) - Drawn(r.trace, i + 1)) % TWO32 == 0
  {
    IdsOfStep(r, i);
    IdsOfStep(r, j);
    DrawnGrows(r.trace, i + 1, j + 1);
    WireIdClash(Drawn(r.trace, i + 1), Drawn(r.trace, j + 1));
    if Widen(r.trace[i].routed.msg.c) == Widen(r.trace[j].routed.msg.c) {
      WidenInjective(r.trace[i].routed.msg.c, r.trace[j].routed.msg.c);
    }
  }

  /** In any window of 2^32 draws no two accepted requests share a wire id. */
  lemma WireIdUnique(r: Run, i: nat, j: nat)
    requires IsRun(r) && i < j < |r.events|
    requires Drawn(r.trace, j + 1) - Drawn(r.trace, i + 1) < TWO32
    requires r.trace[i].Request? && r.trace[i].routed.Forwarded?
    requires r.trace[j].Request? && r.trace[j].routed.Forwarded?
    ensures r.trace[i].routed.msg.c != r.trace[j].routed.msg.c
  {
    WireIdRepeats(r, i, j);
    IdsOfStep(r, j);
    DrawnGrows(r.trace, i + 1, j);
    var between := Drawn(r.trace, j + 1) - Drawn(r.trace, i + 1);
    assert 0 < between < TWO32;
  }

  /** The first 2^32 draws of a run are such a window. */
  lemma WireIdUniqueEarly(r: Run, i: nat, j: nat)
    requires IsRun(r) && i < j < |r.events|
    requires Drawn(r.trace, j + 1) <= TWO32
    requires r.trace[i].Request? && r.trace[i].routed.Forwarded?
    requires r.trace[j].Request? && r.trace[j].routed.Forwarded?
    ensures r.trace[i].routed.msg.c != r.trace[j].routed.msg.c
  {
    IdsOfStep(r, i);
    WireIdUnique(r, i, j);
  }

  /**
   * The emplace on the wire id adds an entry exactly when no request accepted earlier by this
   * destination is a multiple of 2^32 draws older; in particular within 2^32 draws of its first.
   */
  lemma WireIdInserted(r: Run, j: nat)
    requires IsRun(r) && j < |r.events|
    requires r.trace[j].Request? && r.trace[j].routed.Forwarded?
    ensures r.trace[j].routed.dest < |r.states[j].dests|
    ensures Widen(r.trace[j].routed.msg.c) !in r.states[j].dests[r.trace[j].routed.dest].srcByDest <==>
            forall i :: 0 <= i < j && AcceptedBy(r.trace[i], r.trace[j].routed.dest) ==>
              (Drawn(r.trace, j + 1) - Drawn(r.trace, i + 1)) % TWO32 != 0
    ensures Drawn(r.trace, j + 1) <= TWO32 ==>
              Widen(r.trace[j].routed.msg.c) !in r.states[j].dests[r.trace[j].routed.dest].srcByDest
  {
    DestinationExists(r, j);
    var d, w := r.trace[j].routed.dest, Widen(r.trace[j].routed.msg.c);
    WireKeyIndex(r, j, d, w);
    forall i | 0 <= i < j && AcceptedBy(r.trace[i], d)
      ensures Matches(r.trace[i], AcceptedWireId(d, w)) <==>
              (Drawn(r.trace, j + 1) - Drawn(r.trace, i + 1)) % TWO32 == 0
      ensures Drawn(r.trace, j + 1) <= TWO32 ==> !Matches(r.trace[i], AcceptedWireId(d, w))
    {
      WireIdRepeats(r, i, j);
      if Drawn(r.trace, j + 1) <= TWO32 {
        WireIdUniqueEarly(r, i, j);
      }
    }
  }

  lemma DestinationExists(r: Run, j: nat)
    requires IsRun(r) && j < |r.events|
    requires r.trace[j].Request? && r.trace[j].routed.Forwarded?
    ensures r.trace[j].routed.dest < |r.states[j].dests|
  {
    EventDraws(r, j);
    var e := r.events[j];
    ReachedOutcome(r.states[j], e.source, e.req, e.valid, e.sendOk);
  }

  lemma FirstWithWireId(r: Run, n: nat, i: nat)
    requires IsRun(r) && i < n <= |r.events|
    requires Drawn(r.trace, i + 1) <= TWO32
    requires r.trace[i].Request? && r.trace[i].routed.Forwarded?
    ensures First(r.trace, n, AcceptedWireId(r.trace[i].routed.dest, Widen(r.trace[i].routed.msg.c))) == Some(i)
  {
    var q := AcceptedWireId(r.trace[i].routed.dest, Widen(r.trace[i].routed.msg.c));
    assert Matches(r.trace[i], q);
    var m := First(r.trace, n, q).value;
    if m < i {
      WireIdUniqueEarly(r, m, i);
      WidenInjective(r.trace[m].routed.msg.c, r.trace[i].routed.msg.c);
    }
  }

  /** While the counter has not wrapped, uids are positive and name one new order. */
  lemma FirstWithUid(r: Run, n: nat, i: nat)
    requires IsRun(r) && i < n <= |r.events|
    requires Drawn(r.trace, n) < TWO64
    requires IsNewOrder(r.trace[i])
    ensures r.trace[i].uid == Drawn(r.trace, i) + 1
    ensures First(r.trace, n, NewOrderWithUid(r.trace[i].uid)) == Some(i)
  {
    IdsOfStep(r, i);
    DrawnGrows(r.trace, i + 1, n);
    var q := NewOrderWithUid(r.trace[i].uid);
    assert Matches(r.trace[i], q);
    var m := First(r.trace, n, q).value;
    if m < i {
      IdsOfStep(r, m);
      DrawnGrows(r.trace, m + 1, i);
    }
  }

  /** Uid 0 is never handed out while the counter has not wrapped. */
  lemma ZeroIsNoUid(r: Run, n: nat)
    requires IsRun(r) && n <= |r.events|
    requires Drawn(r.trace, n) < TWO64
    ensures First(r.trace, n, NewOrderWithUid(0)).None?
    ensures forall s :: First(r.trace, n, PlacedNewOrder(s, 0)).None?
  {
    forall i | 0 <= i < n && IsNewOrder(r.trace[i])
      ensures r.trace[i].uid != 0
    {
      FirstWithUid(r, n, i);
    }
  }

  /**
   * Following dest-by-src and then src-by-dest always finds an entry. It is the same client id's
   * if and only if the first request accepted under the wire id is the first accepted under the
   * client id, as it is whenever that request falls into the first 2^32 draws.
   */
  lemma MapsInverse(r: Run, n: nat, d: nat, k: uint64)
    requires IsRun(r) && n <= |r.events| && d < |r.states[n].dests|
    requires k in r.states[n].dests[d].destBySrc
    ensures var dest := r.states[n].dests[d];
            var w := dest.destBySrc[k];
            var i := First(r.trace, n, AcceptedClientId(d, k));
            && w in dest.srcByDest && i.Some?
            && (dest.srcByDest[w].clOrdId == k <==> First(r.trace, n, AcceptedWireId(d, w)) == i)
            && (Drawn(r.trace, i.value + 1) <= TWO32 ==> dest.srcByDest[w].clOrdId == k)
  {
    var dest := r.states[n].dests[d];
    ClientIdIndex(r, n, d, k);
    var i := First(r.trace, n, AcceptedClientId(d, k)).value;
    var w := Widen(r.trace[i].routed.msg.c);
    WireKeyIndex(r, n, d, w);
    assert Matches(r.trace[i], AcceptedWireId(d, w));
    var m := First(r.trace, n, AcceptedWireId(d, w)).value;
    if r.trace[m].req.clOrdId == k {
      assert Matches(r.trace[m], AcceptedClientId(d, k));
    }
    if Drawn(r.trace, i + 1) <= TWO32 {
      FirstWithWireId(r, n, i);
    }
  }
}
