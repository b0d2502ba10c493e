/**
 * The routing state and its steps as values: what the sessions, the routers and the shared
 * id counter hold, and what one inbound message does to all of them.
 */
module Routing {
  import opened Types
  import opened WireIds
  import opened Messages
  import opened RoundRobin

  // ---------- State ----------

  datatype RoutingInfo = RoutingInfo(clOrdId: uint64, uid: uint64)

  /** A destination session: `sent` lists what its transport accepted, `logged` its rejects. */
  datatype DestState = DestState(
    connected: bool,
    destBySrc: map<uint64, uint64>,
    srcByDest: map<uint64, RoutingInfo>,
    sent: seq<WireRequest>,
    logged: seq<RejectCode>)

  /** A source session's router. A round-robin router caches slots, not sessions. */
  datatype RouterState =
    | RoundRobinRouter(slots: seq<nat>, index: nat, uidToSlot: map<uint64, nat>)
    | OneToOneRouter(destination: nat)

  /** A source session: `handed` lists what it handed to its client's transport. */
  datatype SourceState = SourceState(
    clOrdIdToUid: map<uint64, uint64>,
    router: RouterState,
    handed: seq<ClientMessage>)

  datatype State = State(
    uid: uint64,
    sources: seq<SourceState>,
    dests: seq<DestState>,
    uidToSource: map<uint64, nat>)

  ghost predicate WellFormedRouter(r: RouterState, destCount: nat) {
    match r
    case OneToOneRouter(d) => d < destCount
    case RoundRobinRouter(slots, index, cache) =>
      && (forall i :: 0 <= i < |slots| ==> slots[i] < destCount)
      && (slots == [] || index < |slots|)
      && forall u :: u in cache ==> cache[u] < |slots|
  }

  ghost predicate WellFormed(st: State) {
    && (forall s :: 0 <= s < |st.sources| ==> WellFormedRouter(st.sources[s].router, |st.dests|))
    && forall u :: u in st.uidToSource ==> st.uidToSource[u] < |st.sources|
  }

  // ---------- Destination side ----------

  /** What became of a request. `wire` is the 64-bit id drawn for it. */
  datatype Routed =
    | NotRouted(code: RejectCode)
    | Refused(dest: nat, wire: uint64, code: RejectCode)
    | Forwarded(dest: nat, wire: uint64, msg: WireRequest)

  function Info(routed: Routed): RejectInfo {
    if routed.Forwarded? then Success else Rejected(routed.code)
  }

  /** Field o: a new order has none, other requests translate the original client id. */
  function TranslateOriginal(d: DestState, req: Request): Option<int32> {
    if req.NewOrderSingle? then Some(0)
    else
      match Find(d.destBySrc, req.origClOrdId)
      case None => None
      case Some(key) => Some(Narrow(key))
  }

  /** `update_destination_routing_info_impl`, run only after the transport took the message. */
  function Remember(d: DestState, req: Request, uid: uint64, msg: WireRequest): DestState {
    d.(srcByDest := Emplace(d.srcByDest, Widen(msg.c), RoutingInfo(req.clOrdId, uid)),
       destBySrc := Emplace(d.destBySrc, req.clOrdId, Widen(msg.c)),
       sent := d.sent + [msg])
  }

  /** `on_message_from_peer_impl`: id is the destination, wire the id just drawn. */
  function Receive(d: DestState, id: nat, wire: uint64, req: Request, uid: uint64, valid: bool, sendOk: bool)
    : (DestState, Routed)
  {
    match TranslateOriginal(d, req)
    case None => (d, Refused(id, wire, DestinationSessionInvalidOriginalMsgId))
    case Some(o) =>
      if !valid then (d, Refused(id, wire, ValidatorValidationFailed))
      else if !sendOk then (d, Refused(id, wire, TransportFailedToSendData))
      else
        var msg := ToWire(req, Narrow(wire), o);
        (Remember(d, req, uid, msg), Forwarded(id, wire, msg))
  }

  // ---------- Routers ----------

  /** Everything a source's router can change outside itself. */
  datatype Net = Net(uid: uint64, dests: seq<DestState>)

  function Deliver(net: Net, d: nat, req: Request, uid: uint64, valid: bool, sendOk: bool): (Net, Routed)
    requires d < |net.dests|
  {
    var wire := NextUid(net.uid);
    var (dest, routed) := Receive(net.dests[d], d, wire, req, uid, valid, sendOk);
    (Net(wire, net.dests[d := dest]), routed)
  }

  function Links(dests: seq<DestState>, slots: seq<nat>): (links: seq<bool>)
    requires forall i :: 0 <= i < |slots| ==> slots[i] < |dests|
    ensures |links| == |slots|
    ensures forall i :: 0 <= i < |slots| ==> links[i] == dests[slots[i]].connected
  {
    seq(|slots|, i requires 0 <= i < |slots| => dests[slots[i]].connected)
  }

  /** Result of routing one request; `slot` is the round-robin slot it was sent to. */
  datatype RouteResult = RouteResult(net: Net, router: RouterState, slot: Option<nat>, routed: Routed)

  function RouteFirst(net: Net, r: RouterState, req: Request, uid: uint64, valid: bool, sendOk: bool): RouteResult
    requires r.RoundRobinRouter? && WellFormedRouter(r, |net.dests|)
  {
    match NextConnected(Links(net.dests, r.slots), r.index)
    case None => RouteResult(net, r, None, NotRouted(DestinationRouterNoDestinationsAvailable))
    case Some(p) =>
      NextConnectedMeaning(Links(net.dests, r.slots), r.index);
      var (net', routed) := Deliver(net, r.slots[p], req, uid, valid, sendOk);
      RouteResult(net', r.(index := p, uidToSlot := Emplace(r.uidToSlot, uid, p)), Some(p), routed)
  }

  function RouteSubsequent(net: Net, r: RouterState, req: Request, uid: uint64, valid: bool, sendOk: bool)
    : RouteResult
    requires r.RoundRobinRouter? && WellFormedRouter(r, |net.dests|)
  {
    match Find(r.uidToSlot, uid)
    case None => RouteResult(net, r, None, NotRouted(DestinationRouterSessionNotFoundForUid))
    case Some(p) =>
      var (net', routed) := Deliver(net, r.slots[p], req, uid, valid, sendOk);
      RouteResult(net', r, Some(p), routed)
  }

  function RouteOneToOne(net: Net, r: RouterState, req: Request, uid: uint64, valid: bool, sendOk: bool)
    : RouteResult
    requires r.OneToOneRouter? && WellFormedRouter(r, |net.dests|)
  {
    if !net.dests[r.destination].connected then
      RouteResult(net, r, None, NotRouted(DestinationRouterNoDestinationsAvailable))
    else
      var (net', routed) := Deliver(net, r.destination, req, uid, valid, sendOk);
      RouteResult(net', r, None, routed)
  }

  function Route(net: Net, r: RouterState, req: Request, uid: uint64, valid: bool, sendOk: bool): RouteResult
    requires WellFormedRouter(r, |net.dests|)
  {
    if r.OneToOneRouter? then RouteOneToOne(net, r, req, uid, valid, sendOk)
    else if req.NewOrderSingle? then RouteFirst(net, r, req, uid, valid, sendOk)
    else RouteSubsequent(net, r, req, uid, valid, sendOk)
  }

  // ---------- Steps ----------

  /** Inputs: messages, link changes, and what the validator and the transport answer. */
  datatype Event =
    | FromSource(source: nat, req: Request, valid: bool, sendOk: bool)
    | FromDestination(dest: nat, reply: WireReply, valid: bool, sendOk: bool)
    | LinkChange(dest: nat, up: bool)

  predicate Enabled(st: State, e: Event) {
    if e.FromSource? then e.source < |st.sources| else e.dest < |st.dests|
  }

  /** What one step did: the history that the theorems speak about. */
  datatype Record =
    | Request(source: nat, req: Request, uid: uint64, known: bool, slot: Option<nat>, routed: Routed,
              rejects: nat, drawn: nat)
    | Reply(dest: nat, reply: WireReply, delivered: Option<(nat, ClientMessage)>)
    | Link(dest: nat, up: bool)

  /** A new order draws its uid; other requests look theirs up. */
  function FindUid(counter: uint64, src: SourceState, req: Request): Option<uint64> {
    if req.NewOrderSingle? then Some(NextUid(counter)) else Find(src.clOrdIdToUid, req.origClOrdId)
  }

  /** A message's uid stays 0 when none was found. */
  function OrZero(uid: Option<uint64>): uint64 {
    if uid.Some? then uid.value else 0
  }

  function AddReject(handed: seq<ClientMessage>, failed: bool, req: Request): seq<ClientMessage> {
    if failed then handed + [BlankReject(req)] else handed
  }

  /** The part of the state that a request of one source session can change. */
  datatype Reach = Reach(net: Net, src: SourceState, uidToSource: map<uint64, nat>)

  /** `update_source_routing_info`: new orders enter the source router and the session's index. */
  function Learn(r: Reach, s: nat, req: Request, uid: uint64): Reach {
    if req.NewOrderSingle?
    then Reach(r.net, r.src.(clOrdIdToUid := Emplace(r.src.clOrdIdToUid, req.clOrdId, uid)),
               Emplace(r.uidToSource, uid, s))
    else r
  }

  /**
   * `procoess_message_from_transport` of source session s: a failed stage sends a reject and the
   * next one runs all the same.
   */
  function RunPipeline(before: Reach, s: nat, req: Request, valid: bool, sendOk: bool): (Reach, Record)
    requires WellFormedRouter(before.src.router, |before.net.dests|)
  {
    var src, isNew := before.src, req.NewOrderSingle?;
    var found := FindUid(before.net.uid, src, req);
    var uid := OrZero(found);
    var handed := AddReject(src.handed, found.None?, req);
    var x := Route(Net(if isNew then uid else before.net.uid, before.net.dests), src.router, req, uid, valid, sendOk);
    var forwarded := Reach(x.net, src.(router := x.router, handed := AddReject(handed, !x.routed.Forwarded?, req)),
                           before.uidToSource);
    (Learn(forwarded, s, req, uid),
     Request(s, req, uid, found.Some?, x.slot, x.routed,
             One(found.None?) + One(!x.routed.Forwarded?), One(isNew) + One(!x.routed.NotRouted?)))
  }

  function StepRequest(st: State, s: nat, req: Request, valid: bool, sendOk: bool): (State, Record)
    requires WellFormed(st) && s < |st.sources|
  {
    var (x, rec) := RunPipeline(Reach(Net(st.uid, st.dests), st.sources[s], st.uidToSource), s, req, valid, sendOk);
    (State(x.net.uid, st.sources[s := x.src], x.net.dests, x.uidToSource), rec)
  }

  /** The client message built from a reply; an unknown wire id leaves its ids zero. */
  function ToClient(reply: WireReply, info: Option<RoutingInfo>): ClientMessage {
    ClientMessage(reply.kind, ToUint32(reply.a), ToUint32(reply.b), if info.Some? then info.value.clOrdId else 0)
  }

  /** What the source router answers: no source for the uid, or the client transport's answer. */
  function SourceOutcome(target: Option<nat>, sendOk: bool): RejectInfo {
    if target.None? then Rejected(SourceRouterRoutingFailed)
    else if sendOk then Success
    else Rejected(TransportFailedToSendData)
  }

  function Log(logged: seq<RejectCode>, info: RejectInfo): seq<RejectCode> {
    if info.Rejected? then logged + [info.code] else logged
  }

  /** A destination's log after the first two stages of a reply: lookup and validation each add their reject. */
  function LogLookup(logged: seq<RejectCode>, info: Option<RoutingInfo>, valid: bool): seq<RejectCode> {
    var lookup := if info.None? then Rejected(DestinationSessionSourceMsgIdNotFound) else Success;
    var validation := if valid then Success else Rejected(ValidatorValidationFailed);
    Log(Log(logged, lookup), validation)
  }

  /** The log after all stages: sending adds its reject too. */
  function LogReply(logged: seq<RejectCode>, info: Option<RoutingInfo>, valid: bool, outcome: RejectInfo)
    : seq<RejectCode>
  {
    Log(LogLookup(logged, info, valid), outcome)
  }

  function Hand(sources: seq<SourceState>, target: Option<nat>, msg: ClientMessage): seq<SourceState>
    requires target.Some? ==> target.value < |sources|
  {
    if target.None? then sources
    else sources[target.value := sources[target.value].(handed := sources[target.value].handed + [msg])]
  }

  /** `procoess_message_from_transport` of the destination session, which only logs rejects. */
  function StepReply(st: State, d: nat, reply: WireReply, valid: bool, sendOk: bool): (State, Record)
    requires WellFormed(st) && d < |st.dests|
  {
    var dest := st.dests[d];
    var info := Find(dest.srcByDest, Widen(reply.c));
    var uid := if info.Some? then info.value.uid else 0;
    var msg := ToClient(reply, info);
    var target := Find(st.uidToSource, uid);
    var dest' := dest.(logged := LogReply(dest.logged, info, valid, SourceOutcome(target, sendOk)));
    (st.(sources := Hand(st.sources, target, msg), dests := st.dests[d := dest']),
     Reply(d, reply, if target.Some? then Some((target.value, msg)) else None))
  }

  function StepLink(st: State, d: nat, up: bool): (State, Record)
    requires d < |st.dests|
  {
    (st.(dests := st.dests[d := st.dests[d].(connected := up)]), Link(d, up))
  }

  function Step(st: State, e: Event): (State, Record)
    requires WellFormed(st) && Enabled(st, e)
  {
    match e
    case FromSource(s, req, valid, sendOk) => StepRequest(st, s, req, valid, sendOk)
    case FromDestination(d, reply, valid, sendOk) => StepReply(st, d, reply, valid, sendOk)
    case LinkChange(d, up) => StepLink(st, d, up)
  }

  // ---------- What one step keeps ----------

  lemma RouteKeepsWellFormed(net: Net, r: RouterState, req: Request, uid: uint64, valid: bool, sendOk: bool)
    requires WellFormedRouter(r, |net.dests|)
    ensures var result := Route(net, r, req, uid, valid, sendOk);
            && WellFormedRouter(result.router, |result.net.dests|)
            && |result.net.dests| == |net.dests|
            && result.net.uid == (if result.routed.NotRouted? then net.uid else NextUid(net.uid))
            && (!result.routed.NotRouted? ==> result.routed.dest < |net.dests|
                                              && result.routed.wire == NextUid(net.uid))
  {
    if r.RoundRobinRouter? && req.NewOrderSingle? {
      NextConnectedMeaning(Links(net.dests, r.slots), r.index);
    }
  }

  /** No step changes how many sessions there are or leaves a dangling reference. */
  lemma StepKeepsWellFormed(st: State, e: Event)
    requires WellFormed(st) && Enabled(st, e)
    ensures var st' := Step(st, e).0;
            WellFormed(st') && |st'.sources| == |st.sources| && |st'.dests| == |st.dests|
  {
    if e.FromSource? {
      var uid := OrZero(FindUid(st.uid, st.sources[e.source], e.req));
      var counter := if e.req.NewOrderSingle? then uid else st.uid;
      RouteKeepsWellFormed(Net(counter, st.dests), st.sources[e.source].router, e.req, uid, e.valid, e.sendOk);
    }
  }
}
