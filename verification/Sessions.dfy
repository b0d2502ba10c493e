/** The mutable sessions and routers, each method tied to the step it performs in module Routing. */
module Sessions {
  import opened Types
  import opened WireIds
  import opened Messages
  import opened RoundRobin
  import opened Routing
  import opened History

  // ---------- Destination session ----------

  class DestinationSession {
    const id: nat
    const generator: UIDGenerator
    const sourceRouter: SourceRouter
    var connected: bool
    var destClOrdIdBySrcClOrdId: map<uint64, uint64>
    var srcRoutingInfoByDestClOrdId: map<uint64, RoutingInfo>
    var sent: seq<WireRequest>
    var logged: seq<RejectCode>

    constructor (id: nat, generator: UIDGenerator, sourceRouter: SourceRouter)
      ensures this.id == id && this.generator == generator && this.sourceRouter == sourceRouter
      ensures Abs() == DestState(true, map[], map[], [], [])
    {
      this.id, this.generator, this.sourceRouter := id, generator, sourceRouter;
      connected := true;
      destClOrdIdBySrcClOrdId, srcRoutingInfoByDestClOrdId := map[], map[];
      sent, logged := [], [];
    }

    ghost function Abs(): DestState
      reads this
    {
      DestState(connected, destClOrdIdBySrcClOrdId, srcRoutingInfoByDestClOrdId, sent, logged)
    }

    /** Fills field o of a cancel or replace; fails when the original is not known here. */
    method HandleOrigClOrdId(req: Request) returns (o: Option<int32>)
      ensures o == TranslateOriginal(Abs(), req)
    {
      match req
      case NewOrderSingle(_, _, _) =>
        o := Some(0);
      case _ =>
        if req.origClOrdId in destClOrdIdBySrcClOrdId {
          o := Some(Narrow(destClOrdIdBySrcClOrdId[req.origClOrdId]));
        } else {
          o := None;
        }
    }

    method UpdateDestinationRoutingInfo(req: Request, uid: uint64, msg: WireRequest)
      modifies this`srcRoutingInfoByDestClOrdId, this`destClOrdIdBySrcClOrdId
      ensures Abs().(sent := old(sent) + [msg]) == Remember(old(Abs()), req, uid, msg)
    {
      var key := Widen(msg.c);
      if key !in srcRoutingInfoByDestClOrdId {
        srcRoutingInfoByDestClOrdId := srcRoutingInfoByDestClOrdId[key := RoutingInfo(req.clOrdId, uid)];
      }
      if req.clOrdId !in destClOrdIdBySrcClOrdId {
        destClOrdIdBySrcClOrdId := destClOrdIdBySrcClOrdId[req.clOrdId := key];
      }
    }

    /** A wire id is drawn first, then come lookup, validation and sending with early returns. */
    method OnMessageFromPeer(req: Request, uid: uint64, valid: bool, sendOk: bool)
      returns (info: RejectInfo, ghost routed: Routed)
      modifies this`srcRoutingInfoByDestClOrdId, this`destClOrdIdBySrcClOrdId, this`sent, generator
      ensures generator.uid == NextUid(old(generator.uid))
      ensures (Abs(), routed) == Receive(old(Abs()), id, generator.uid, req, uid, valid, sendOk)
      ensures info == Info(routed)
    {
      var wire := generator.GetNextUid();
      var o := HandleOrigClOrdId(req);
      if o.None? {
        routed := Refused(id, wire, DestinationSessionInvalidOriginalMsgId);
        return Rejected(DestinationSessionInvalidOriginalMsgId), routed;
      }
      if !valid {
        routed := Refused(id, wire, ValidatorValidationFailed);
        return Rejected(ValidatorValidationFailed), routed;
      }
      var msg := ToWire(req, Narrow(wire), o.value);
      if !sendOk {
        routed := Refused(id, wire, TransportFailedToSendData);
        return Rejected(TransportFailedToSendData), routed;
      }
      UpdateDestinationRoutingInfo(req, uid, msg);
      sent := sent + [msg];
      return Success, Forwarded(id, wire, msg);
    }

    /** The first stages of a reply, lookup and validation: a failed one is logged and the next runs all the same. */
    method LookUp(reply: WireReply, valid: bool) returns (found: Option<RoutingInfo>, log: seq<RejectCode>)
      ensures found == Find(srcRoutingInfoByDestClOrdId, Widen(reply.c))
      ensures log == LogLookup(logged, found, valid)
    {
      log := logged;
      found := HandleClOrdIdFromDestination(reply.c);
      if found.None? {
        log := log + [DestinationSessionSourceMsgIdNotFound];
      }
      if !valid {
        log := log + [ValidatorValidationFailed];
      }
    }

    /** The last stage: the source router gets the reply, under uid zero if none was found. */
    method PassToSource(reply: WireReply, found: Option<RoutingInfo>, sendOk: bool, log: seq<RejectCode>,
                        ghost sources: seq<SourceSession>)
      returns (log': seq<RejectCode>)
      requires sourceRouter.KnowsOnly(sources)
      modifies sourceRouter.uidToSource.Values`handed
      ensures var target := Find(old(sourceRouter.Abs()), if found.Some? then found.value.uid else 0);
              && log' == Log(log, SourceOutcome(target, sendOk))
              && (target.Some? ==> target.value < |sources|)
              && SourceStates(sources) == Hand(old(SourceStates(sources)), target, ToClient(reply, found))
    {
      var uid: uint64 := if found.Some? then found.value.uid else 0;
      var outcome := sourceRouter.SendMessageToSource(uid, ToClient(reply, found), sendOk, sources);
      log' := log;
      if outcome.Rejected? {
        log' := log' + [outcome.code];
      }
    }

    /** A reply from the venue: it is passed on as far as it gets, and every reject is logged. */
    method OnMessageFromTransport(reply: WireReply, valid: bool, sendOk: bool, ghost sources: seq<SourceSession>)
      requires sourceRouter.KnowsOnly(sources)
      modifies this`logged, sourceRouter.uidToSource.Values`handed
      ensures var info := Find(old(Abs()).srcByDest, Widen(reply.c));
              var target := Find(old(sourceRouter.Abs()), if info.Some? then info.value.uid else 0);
              && Abs() == old(Abs()).(logged := LogReply(old(logged), info, valid, SourceOutcome(target, sendOk)))
              && (target.Some? ==> target.value < |sources|)
              && SourceStates(sources) == Hand(old(SourceStates(sources)), target, ToClient(reply, info))
    {
      var found, log := LookUp(reply, valid);
      log := PassToSource(reply, found, sendOk, log, sources);
      SetLog(log, sources);
    }

    method SetLog(log: seq<RejectCode>, ghost sources: seq<SourceSession>)
      modifies this`logged
      ensures Abs() == old(Abs()).(logged := log) && SourceStates(sources) == old(SourceStates(sources))
    {
      logged := log;
    }

    /** The client id and uid behind a wire id; without them the reply keeps zeros. */
    method HandleClOrdIdFromDestination(c: int32) returns (found: Option<RoutingInfo>)
      ensures found == Find(srcRoutingInfoByDestClOrdId, Widen(c))
    {
      var key := Widen(c);
      found := if key in srcRoutingInfoByDestClOrdId then Some(srcRoutingInfoByDestClOrdId[key]) else None;
    }
  }

  /** Destination sessions listed by their ids, all drawing from one counter. */
  ghost predicate Registered(dests: seq<DestinationSession>, generator: UIDGenerator) {
    forall i :: 0 <= i < |dests| ==> dests[i].id == i && dests[i].generator == generator
  }

  ghost function DestStates(dests: seq<DestinationSession>): (states: seq<DestState>)
    reads dests
    ensures |states| == |dests|
    ensures forall i {:trigger states[i]} :: 0 <= i < |dests| ==> states[i] == dests[i].Abs()
  {
    seq(|dests|, i requires 0 <= i < |dests| reads dests => dests[i].Abs())
  }

  /** One destination session handles a request; all the others keep their state. */
  method SendToDestination(d: DestinationSession, req: Request, uid: uint64, valid: bool, sendOk: bool,
                           generator: UIDGenerator, ghost dests: seq<DestinationSession>)
    returns (info: RejectInfo, ghost routed: Routed)
    requires Registered(dests, generator) && d in dests
    modifies d, generator
    ensures d.id < |dests|
    ensures (Net(generator.uid, DestStates(dests)), routed) ==
            Deliver(Net(old(generator.uid), old(DestStates(dests))), d.id, req, uid, valid, sendOk)
    ensures info == Info(routed)
  {
    info, routed := d.OnMessageFromPeer(req, uid, valid, sendOk);
    assert DestStates(dests) == old(DestStates(dests))[d.id := d.Abs()];
  }

  // ---------- Destination routers ----------

  class DestinationRouterRoundRobin {
    const destinations: seq<DestinationSession>
    var index: nat
    /** Slots stand for the references into `destinations` that the cache holds. */
    var uidToDestination: map<uint64, nat>

    constructor (destinations: seq<DestinationSession>)
      ensures this.destinations == destinations && index == 0 && uidToDestination == map[]
    {
      this.destinations := destinations;
      index, uidToDestination := 0, map[];
    }

    ghost function Slots(): seq<nat> {
      seq(|destinations|, i requires 0 <= i < |destinations| => destinations[i].id)
    }

    ghost function Abs(): RouterState
      reads this
    {
      RoundRobinRouter(Slots(), index, uidToDestination)
    }

    ghost predicate Valid(dests: seq<DestinationSession>)
      reads this
    {
      && (forall i :: 0 <= i < |destinations| ==> destinations[i] in dests)
      && (destinations == [] || index < |destinations|)
      && forall u :: u in uidToDestination ==> uidToDestination[u] < |destinations|
    }

    lemma ValidIsWellFormed(dests: seq<DestinationSession>, generator: UIDGenerator)
      requires Valid(dests) && Registered(dests, generator)
      ensures WellFormedRouter(Abs(), |dests|)
    {
    }

    method GetNextSession() returns (destination: DestinationSession)
      requires index < |destinations|
      modifies this`index
      ensures index == Advance(old(index), |destinations|) && destination == destinations[index]
    {
      index := (index + 1) % |destinations|;
      destination := destinations[index];
    }

    method CacheDestinationByUid(uid: uint64, slot: nat)
      modifies this`uidToDestination
      ensures uidToDestination == Emplace(old(uidToDestination), uid, slot)
    {
      if uid !in uidToDestination {
        uidToDestination := uidToDestination[uid := slot];
      }
    }

    /** The search loop of the first event: leaves the pointer on the slot found, if any. */
    method FindAvailableDestination(ghost links: seq<bool>) returns (found: bool)
      requires destinations == [] || index < |destinations|
      requires |links| == |destinations|
      requires forall i :: 0 <= i < |links| ==> links[i] == destinations[i].connected
      modifies this`index
      ensures NextConnected(links, old(index)) == if found then Some(index) else None
      ensures !found ==> index == old(index)
    {
      ghost var n := |destinations|;
      var i := 0;
      while i < |destinations|
        invariant i <= n
        invariant n > 0 ==> index < n
        invariant n > 0 ==> index == if old(index) + i < n then old(index) + i else old(index) + i - n
        invariant n == 0 ==> index == old(index)
        invariant NextConnected(links, old(index)) == Search(links, index, n - i)
      {
        var destination := GetNextSession();
        if destination.connected {
          return true;
        }
        i := i + 1;
      }
      return false;
    }

    method SendFirstEvent(req: Request, uid: uint64, valid: bool, sendOk: bool,
                          generator: UIDGenerator, ghost dests: seq<DestinationSession>)
      returns (info: RejectInfo, ghost result: RouteResult)
      requires Registered(dests, generator) && Valid(dests)
      modifies this, destinations, generator
      ensures WellFormedRouter(old(Abs()), |dests|)
      ensures result == RouteFirst(Net(old(generator.uid), old(DestStates(dests))), old(Abs()), req, uid, valid, sendOk)
      ensures result.net == Net(generator.uid, DestStates(dests)) && result.router == Abs()
      ensures info == Info(result.routed)
      ensures Valid(dests)
    {
      ValidIsWellFormed(dests, generator);
      ghost var net, before := Net(generator.uid, DestStates(dests)), Abs();
      ghost var links := Links(net.dests, before.slots);
      var found := FindAvailableDestination(links);
      assert DestStates(dests) == net.dests;
      if !found {
        result := RouteResult(net, before, None, NotRouted(DestinationRouterNoDestinationsAvailable));
        return Rejected(DestinationRouterNoDestinationsAvailable), result;
      }
      NextConnectedMeaning(links, before.index);
      ghost var routed;
      info, routed := SendToDestination(destinations[index], req, uid, valid, sendOk, generator, dests);
      CacheDestinationByUid(uid, index);
      result := RouteResult(Net(generator.uid, DestStates(dests)), Abs(), Some(index), routed);
    }

    method SendSubsequentEvent(req: Request, uid: uint64, valid: bool, sendOk: bool,
                               generator: UIDGenerator, ghost dests: seq<DestinationSession>)
      returns (info: RejectInfo, ghost result: RouteResult)
      requires Registered(dests, generator) && Valid(dests)
      modifies destinations, generator
      ensures WellFormedRouter(old(Abs()), |dests|)
      ensures result ==
              RouteSubsequent(Net(old(generator.uid), old(DestStates(dests))), old(Abs()), req, uid, valid, sendOk)
      ensures result.net == Net(generator.uid, DestStates(dests)) && result.router == Abs()
      ensures info == Info(result.routed)
    {
      ValidIsWellFormed(dests, generator);
      if uid in uidToDestination {
        var slot := uidToDestination[uid];
        ghost var routed;
        info, routed := SendToDestination(destinations[slot], req, uid, valid, sendOk, generator, dests);
        result := RouteResult(Net(generator.uid, DestStates(dests)), Abs(), Some(slot), routed);
      } else {
        info := Rejected(DestinationRouterSessionNotFoundForUid);
        result := RouteResult(Net(generator.uid, DestStates(dests)), Abs(), None,
                              NotRouted(DestinationRouterSessionNotFoundForUid));
      }
    }
  }

  class DestinationRouterOneToOne {
    const destination: DestinationSession

    constructor (destination: DestinationSession)
      ensures this.destination == destination
    {
      this.destination := destination;
    }

    ghost function Abs(): RouterState {
      OneToOneRouter(destination.id)
    }

    method OnMessageFromSource(req: Request, uid: uint64, valid: bool, sendOk: bool,
                               generator: UIDGenerator, ghost dests: seq<DestinationSession>)
      returns (info: RejectInfo, ghost result: RouteResult)
      requires Registered(dests, generator) && destination in dests
      modifies destination, generator
      ensures WellFormedRouter(Abs(), |dests|)
      ensures result == RouteOneToOne(Net(old(generator.uid), old(DestStates(dests))), Abs(), req, uid, valid, sendOk)
      ensures result.net == Net(generator.uid, DestStates(dests)) && result.router == Abs()
      ensures info == Info(result.routed)
    {
      if !destination.connected {
        info := Rejected(DestinationRouterNoDestinationsAvailable);
        result := RouteResult(Net(generator.uid, DestStates(dests)), Abs(), None,
                              NotRouted(DestinationRouterNoDestinationsAvailable));
      } else {
        ghost var routed;
        info, routed := SendToDestination(destination, req, uid, valid, sendOk, generator, dests);
        result := RouteResult(Net(generator.uid, DestStates(dests)), Abs(), None, routed);
      }
    }
  }

  /** `DestinationRouterPtrVariant` */
  datatype DestinationRouter =
    | RoundRobin(roundRobin: DestinationRouterRoundRobin)
    | OneToOne(oneToOne: DestinationRouterOneToOne)
  {
    /** The router object itself, if it has state. */
    ghost function Own(): set<object> {
      if RoundRobin? then {roundRobin} else {}
    }

    ghost function Targets(): seq<DestinationSession> {
      if RoundRobin? then roundRobin.destinations else [oneToOne.destination]
    }

    ghost function Abs(): RouterState
      reads Own()
    {
      if RoundRobin? then roundRobin.Abs() else oneToOne.Abs()
    }

    ghost predicate Valid(dests: seq<DestinationSession>)
      reads Own()
    {
      if RoundRobin? then roundRobin.Valid(dests) else oneToOne.destination in dests
    }

    /** Visits the variant; the round-robin router tells first from subsequent events. */
    method OnMessageFromSource(req: Request, uid: uint64, valid: bool, sendOk: bool,
                               generator: UIDGenerator, ghost dests: seq<DestinationSession>)
      returns (info: RejectInfo, ghost result: RouteResult)
      requires Registered(dests, generator) && Valid(dests)
      modifies Own(), Targets(), generator
      ensures WellFormedRouter(old(Abs()), |dests|)
      ensures result == Route(Net(old(generator.uid), old(DestStates(dests))), old(Abs()), req, uid, valid, sendOk)
      ensures result.net == Net(generator.uid, DestStates(dests)) && result.router == Abs()
      ensures info == Info(result.routed)
      ensures Valid(dests)
    {
      match this
      case OneToOne(router) =>
        assert Targets() == [router.destination] && router.destination in Targets();
        info, result := router.OnMessageFromSource(req, uid, valid, sendOk, generator, dests);
      case RoundRobin(router) =>
        if req.NewOrderSingle? {
          info, result := router.SendFirstEvent(req, uid, valid, sendOk, generator, dests);
        } else {
          info, result := router.SendSubsequentEvent(req, uid, valid, sendOk, generator, dests);
        }
    }
  }

  // ---------- Source router and source session ----------

  class SourceRouter {
    var uidToSource: map<uint64, SourceSession>

    constructor ()
      ensures uidToSource == map[]
    {
      uidToSource := map[];
    }

    ghost function Abs(): map<uint64, nat>
      reads this
    {
      map u | u in uidToSource :: uidToSource[u].id
    }

    ghost predicate KnowsOnly(sources: seq<SourceSession>)
      reads this
    {
      && (forall i :: 0 <= i < |sources| ==> sources[i].id == i)
      && forall u :: u in uidToSource ==> uidToSource[u] in sources
    }

    method UpdateSourceRoutingInfo(uid: uint64, session: SourceSession)
      modifies this
      ensures Abs() == Emplace(old(Abs()), uid, session.id)
      ensures uidToSource == Emplace(old(uidToSource), uid, session)
    {
      if uid !in uidToSource {
        uidToSource := uidToSource[uid := session];
      }
    }

    method SendMessageToSource(uid: uint64, msg: ClientMessage, sendOk: bool, ghost sources: seq<SourceSession>)
      returns (info: RejectInfo)
      requires KnowsOnly(sources)
      modifies uidToSource.Values`handed
      ensures var target := Find(old(Abs()), uid);
              && (target.Some? ==> target.value < |sources|)
              && SourceStates(sources) == Hand(old(SourceStates(sources)), target, msg)
              && info == SourceOutcome(target, sendOk)
    {
      if uid in uidToSource {
        var session := uidToSource[uid];
        info := session.OnMessageFromPeer(msg, sendOk);
        assert SourceStates(sources) == old(SourceStates(sources))[session.id := session.Abs()];
      } else {
        info := Rejected(SourceRouterRoutingFailed);
        assert SourceStates(sources) == old(SourceStates(sources));
      }
    }
  }

  class SourceSession {
    const id: nat
    const generator: UIDGenerator
    const router: DestinationRouter
    const sourceRouter: SourceRouter
    var clOrdIdToUid: map<uint64, uint64>
    var handed: seq<ClientMessage>

    constructor (id: nat, generator: UIDGenerator, router: DestinationRouter, sourceRouter: SourceRouter)
      ensures this.id == id && this.generator == generator && this.router == router
      ensures this.sourceRouter == sourceRouter && clOrdIdToUid == map[] && handed == []
    {
      this.id, this.generator, this.router, this.sourceRouter := id, generator, router, sourceRouter;
      clOrdIdToUid, handed := map[], [];
    }

    ghost function Abs(): SourceState
      reads this, router.Own()
    {
      SourceState(clOrdIdToUid, router.Abs(), handed)
    }

    /** A message of a destination goes to the client's transport. */
    method OnMessageFromPeer(msg: ClientMessage, sendOk: bool) returns (info: RejectInfo)
      modifies this`handed
      ensures handed == old(handed) + [msg]
      ensures info == if sendOk then Success else Rejected(TransportFailedToSendData)
    {
      handed := handed + [msg];
      info := if sendOk then Success else Rejected(TransportFailedToSendData);
    }

    /** The client gets a blank reject; the transport's answer is ignored. */
    method RejectMessageFromTransport(req: Request)
      modifies this`handed
      ensures |handed| == |old(handed)| + 1 && handed[..|old(handed)|] == old(handed)
      ensures var reject := handed[|old(handed)|];
              && (reject.kind == CancelReject <==> req.CancelRequest?)
              && reject.a == 0 && reject.b == 0 && reject.clOrdId == 0
    {
      handed := handed + [BlankReject(req)];
    }

    /** Draws the uid of a new order, or looks up the one of the original; None is a reject. */
    method HandleMessageFromTransport(req: Request) returns (uid: Option<uint64>)
      modifies generator
      ensures req.NewOrderSingle? ==> generator.uid == NextUid(old(generator.uid)) && uid == Some(generator.uid)
      ensures !req.NewOrderSingle? ==>
                generator.uid == old(generator.uid) && uid == Find(clOrdIdToUid, req.origClOrdId)
    {
      match req
      case NewOrderSingle(_, _, _) =>
        var next := generator.GetNextUid();
        uid := Some(next);
      case _ =>
        if req.origClOrdId in clOrdIdToUid {
          uid := Some(clOrdIdToUid[req.origClOrdId]);
        } else {
          uid := None;
        }
    }

    /** The part of the system that a request of this session can change. */
    ghost function ReachOf(dests: seq<DestinationSession>): Reach
      reads this, router.Own(), generator, sourceRouter, dests
    {
      Reach(Net(generator.uid, DestStates(dests)), Abs(), sourceRouter.Abs())
    }

    /** First stage: the uid, and a reject if there is none. */
    method Handle(req: Request, ghost dests: seq<DestinationSession>) returns (found: Option<uint64>)
      requires router.Valid(dests)
      modifies this`handed, generator
      ensures router.Valid(dests)
      ensures found == FindUid(old(generator.uid), old(Abs()), req)
      ensures var before := old(ReachOf(dests));
              ReachOf(dests) ==
              Reach(before.net.(uid := if req.NewOrderSingle? then OrZero(found) else before.net.uid),
                    before.src.(handed := AddReject(before.src.handed, found.None?, req)),
                    before.uidToSource)
    {
      found := HandleMessageFromTransport(req);
      if found.None? {
        RejectMessageFromTransport(req);
      }
    }

    /** Second stage: `send_message_to_peer`, and a reject if that failed. */
    method Forward(req: Request, uid: uint64, valid: bool, sendOk: bool,
                   ghost dests: seq<DestinationSession>, ghost sources: seq<SourceSession>)
      returns (ghost x: RouteResult)
      requires Registered(dests, generator) && router.Valid(dests) && sourceRouter.KnowsOnly(sources)
      modifies this`handed, router.Own(), router.Targets(), generator
      ensures router.Valid(dests) && sourceRouter.KnowsOnly(sources)
      ensures var before := old(ReachOf(dests));
              && WellFormedRouter(before.src.router, |before.net.dests|)
              && x == Route(before.net, before.src.router, req, uid, valid, sendOk)
              && ReachOf(dests) ==
                 Reach(x.net,
                       before.src.(router := x.router,
                                   handed := AddReject(before.src.handed, !x.routed.Forwarded?, req)),
                       before.uidToSource)
    {
      ghost var routes := sourceRouter.uidToSource;
      var info;
      info, x := router.OnMessageFromSource(req, uid, valid, sendOk, generator, dests);
      assert sourceRouter.uidToSource == routes;
      if info.Rejected? {
        RejectMessageFromTransport(req);
      }
    }

    /** Last stage: the source router learns every first event, the session's own index every new order. */
    method UpdateSourceRoutingInfo(req: Request, uid: uint64,
                                   ghost dests: seq<DestinationSession>, ghost sources: seq<SourceSession>)
      requires router.Valid(dests) && sourceRouter.KnowsOnly(sources) && this in sources
      modifies this`clOrdIdToUid, sourceRouter
      ensures router.Valid(dests) && sourceRouter.KnowsOnly(sources)
      ensures ReachOf(dests) == Learn(old(ReachOf(dests)), id, req, uid)
    {
      if req.NewOrderSingle? {
        sourceRouter.UpdateSourceRoutingInfo(uid, this);
        if req.clOrdId !in clOrdIdToUid {
          clOrdIdToUid := clOrdIdToUid[req.clOrdId := uid];
        }
      }
    }

    /** The pipeline for a client request: a reject is sent and the next stage runs all the same. */
    method OnMessageFromTransport(req: Request, valid: bool, sendOk: bool,
                                  ghost dests: seq<DestinationSession>, ghost sources: seq<SourceSession>)
      requires Registered(dests, generator) && router.Valid(dests)
      requires sourceRouter.KnowsOnly(sources) && this in sources
      modifies this`clOrdIdToUid, this`handed, router.Own(), router.Targets(), generator, sourceRouter
      ensures WellFormedRouter(old(router.Abs()), |dests|)
      ensures ReachOf(dests) == RunPipeline(old(ReachOf(dests)), id, req, valid, sendOk).0
      ensures router.Valid(dests)
      ensures sourceRouter.KnowsOnly(sources)
    {
      var found := Handle(req, dests);
      var uid := OrZero(found);
      ghost var x := Forward(req, uid, valid, sendOk, dests, sources);
      UpdateSourceRoutingInfo(req, uid, dests, sources);
    }
  }

  /** The source sessions with their routers. */
  ghost function SourceObjects(sources: seq<SourceSession>): set<object> {
    (set i | 0 <= i < |sources| :: sources[i] as object) +
    (set i, o | 0 <= i < |sources| && o in sources[i].router.Own() :: o)
  }

  ghost function SourceStates(sources: seq<SourceSession>): (states: seq<SourceState>)
    reads SourceObjects(sources)
    ensures |states| == |sources|
    ensures forall i {:trigger states[i]} :: 0 <= i < |sources| ==> states[i] == sources[i].Abs()
  {
    seq(|sources|, i requires 0 <= i < |sources| reads SourceObjects(sources) => sources[i].Abs())
  }

  // ---------- The whole system ----------

  /** All sessions of an application, built around one id counter and one source router. */
  class Application {
    const generator: UIDGenerator
    const sourceRouter: SourceRouter
    const dests: seq<DestinationSession>
    const sources: seq<SourceSession>

    /** Every session is listed under its id, and no two source sessions share a router object. */
    ghost predicate Wired() {
      && Registered(dests, generator)
      && (forall d :: 0 <= d < |dests| ==> dests[d].sourceRouter == sourceRouter)
      && (forall s :: 0 <= s < |sources| ==>
            sources[s].id == s && sources[s].generator == generator && sources[s].sourceRouter == sourceRouter)
      && forall s, t :: 0 <= s < t < |sources| ==> sources[s].router.Own() !! sources[t].router.Own()
    }

    ghost predicate Valid()
      reads SourceObjects(sources), sourceRouter
    {
      && Wired() && sourceRouter.KnowsOnly(sources)
      && forall s :: 0 <= s < |sources| ==> sources[s].router.Valid(dests)
    }

    ghost function Abs(): State
      reads generator, sourceRouter, dests, SourceObjects(sources)
    {
      State(generator.uid, SourceStates(sources), DestStates(dests), sourceRouter.Abs())
    }

    /** Assembles sessions that have just been created. */
    constructor (generator: UIDGenerator, sourceRouter: SourceRouter,
                 dests: seq<DestinationSession>, sources: seq<SourceSession>)
      requires Registered(dests, generator)
      requires forall d :: 0 <= d < |dests| ==> dests[d].sourceRouter == sourceRouter
      requires forall s :: 0 <= s < |sources| ==>
                 sources[s].id == s && sources[s].generator == generator && sources[s].sourceRouter == sourceRouter
                 && sources[s].router.Valid(dests)
      requires forall s, t :: 0 <= s < t < |sources| ==> sources[s].router.Own() !! sources[t].router.Own()
      requires sourceRouter.uidToSource == map[]
      ensures Valid() && this.generator == generator && this.sourceRouter == sourceRouter
      ensures this.dests == dests && this.sources == sources
    {
      this.generator, this.sourceRouter, this.dests, this.sources := generator, sourceRouter, dests, sources;
    }

    lemma ValidIsWellFormed()
      requires Valid()
      ensures WellFormed(Abs())
    {
      forall s | 0 <= s < |sources|
        ensures WellFormedRouter(Abs().sources[s].router, |dests|)
      {
        if sources[s].router.RoundRobin? {
          sources[s].router.roundRobin.ValidIsWellFormed(dests, generator);
        }
      }
    }

    /** Client s sends a request; the other source sessions see nothing of it. */
    method HandleRequest(s: nat, req: Request, valid: bool, sendOk: bool)
      requires Valid() && s < |sources|
      modifies generator, sourceRouter, dests, SourceObjects(sources)
      ensures Valid()
      ensures WellFormedRouter(old(sources[s].router.Abs()), |dests|)
      ensures sources[s].ReachOf(dests) ==
              RunPipeline(old(sources[s].ReachOf(dests)), s, req, valid, sendOk).0
      ensures forall t :: 0 <= t < |sources| && t != s ==> sources[t].Abs() == old(sources[t].Abs())
    {
      var session := sources[s];
      session.OnMessageFromTransport(req, valid, sendOk, dests, sources);
      forall t | 0 <= t < |sources| && t != s
        ensures sources[t].Abs() == old(sources[t].Abs()) && sources[t].router.Valid(dests)
      {
        assert sources[t].router.Own() !! session.router.Own();
      }
    }

    /** A request performs the step that module Routing gives for it. */
    method OnRequest(s: nat, req: Request, valid: bool, sendOk: bool)
      requires Valid() && s < |sources|
      modifies generator, sourceRouter, dests, SourceObjects(sources)
      ensures Valid()
      ensures WellFormed(old(Abs())) && Abs() == Step(old(Abs()), FromSource(s, req, valid, sendOk)).0
    {
      ValidIsWellFormed();
      HandleRequest(s, req, valid, sendOk);
      assert SourceStates(sources) == old(SourceStates(sources))[s := sources[s].Abs()];
    }

    /** Destination d's venue sends a reply. */
    method HandleReply(d: nat, reply: WireReply, valid: bool, sendOk: bool)
      requires Valid() && d < |dests|
      modifies dests, SourceObjects(sources)
      ensures Valid()
      ensures var info := Find(old(dests[d].Abs()).srcByDest, Widen(reply.c));
              var target := Find(old(sourceRouter.Abs()), if info.Some? then info.value.uid else 0);
              && (target.Some? ==> target.value < |sources|)
              && dests[d].Abs() == old(dests[d].Abs()).(logged :=
                                     LogReply(old(dests[d].logged), info, valid, SourceOutcome(target, sendOk)))
              && SourceStates(sources) == Hand(old(SourceStates(sources)), target, ToClient(reply, info))
      ensures forall e :: 0 <= e < |dests| && e != d ==> dests[e].Abs() == old(dests[e].Abs())
    {
      dests[d].OnMessageFromTransport(reply, valid, sendOk, sources);
      forall s | 0 <= s < |sources|
        ensures sources[s].router.Valid(dests)
      {
        assert old(sources[s].router.Valid(dests));
      }
    }

    /** A reply performs the step that module Routing gives for it. */
    method OnReply(d: nat, reply: WireReply, valid: bool, sendOk: bool)
      requires Valid() && d < |dests|
      modifies dests, SourceObjects(sources)
      ensures Valid()
      ensures WellFormed(old(Abs())) && Abs() == Step(old(Abs()), FromDestination(d, reply, valid, sendOk)).0
    {
      ValidIsWellFormed();
      HandleReply(d, reply, valid, sendOk);
      assert DestStates(dests) == old(DestStates(dests))[d := dests[d].Abs()];
    }

    /** The environment connects or disconnects destination d. */
    method OnLinkChange(d: nat, up: bool)
      requires Valid() && d < |dests|
      modifies dests
      ensures Valid()
      ensures WellFormed(old(Abs())) && Abs() == Step(old(Abs()), LinkChange(d, up)).0
    {
      ValidIsWellFormed();
      ghost var before := Abs();
      dests[d].connected := up;
      assert DestStates(dests) == before.dests[d := dests[d].Abs()];
      assert SourceStates(sources) == before.sources;
    }

    /** Freshly created sessions start a run. */
    lemma StartIsInitial()
      requires Valid()
      requires generator.uid == 0 && sourceRouter.uidToSource == map[]
      requires forall d :: 0 <= d < |dests| ==> InitialDest(dests[d].Abs())
      requires forall s :: 0 <= s < |sources| ==> InitialSource(sources[s].Abs(), |dests|)
      ensures Initial(Abs())
    {
    }

    method OnEvent(e: Event)
      requires Valid() && Enabled(Abs(), e)
      modifies generator, sourceRouter, dests, SourceObjects(sources)
      ensures Valid()
      ensures WellFormed(old(Abs())) && Abs() == Step(old(Abs()), e).0
    {
      match e
      case FromSource(s, req, valid, sendOk) => OnRequest(s, req, valid, sendOk);
      case FromDestination(d, reply, valid, sendOk) => OnReply(d, reply, valid, sendOk);
      case LinkChange(d, up) => OnLinkChange(d, up);
    }

    /** An event takes the objects one step further in their run. */
    method GoOn(e: Event, ghost run: Run) returns (ghost next: Run)
      requires Valid() && IsRun(run) && run.states[|run.events|] == Abs()
      requires Enabled(run.states[0], e)
      modifies generator, sourceRouter, dests, SourceObjects(sources)
      ensures Valid() && IsRun(next)
      ensures next.events == run.events + [e] && run.states <= next.states
      ensures next.states[|next.events|] == Abs()
    {
      next := Continue(run, e);
      OnEvent(e);
    }

    /** The event loop handles one event at a time, so that the objects go through a run. */
    method ProcessEvents(events: seq<Event>) returns (ghost run: Run)
      requires Valid() && Initial(Abs())
      requires forall i :: 0 <= i < |events| ==> Enabled(Abs(), events[i])
      modifies generator, sourceRouter, dests, SourceObjects(sources)
      ensures Valid()
      ensures IsRun(run) && run.events == events
      ensures run.states[0] == old(Abs()) && run.states[|events|] == Abs()
    {
      run := Run([Abs()], [], []);
      for n := 0 to |events|
        invariant Valid()
        invariant IsRun(run) && run.events == events[..n]
        invariant run.states[0] == old(Abs()) && run.states[n] == Abs()
      {
        run := GoOn(events[n], run);
      }
    }

    /** From freshly created sessions on, whatever events come. */
    method Start(events: seq<Event>) returns (ghost run: Run)
      requires Valid()
      requires generator.uid == 0 && sourceRouter.uidToSource == map[]
      requires forall d :: 0 <= d < |dests| ==> InitialDest(dests[d].Abs())
      requires forall s :: 0 <= s < |sources| ==> InitialSource(sources[s].Abs(), |dests|)
      requires forall i :: 0 <= i < |events| ==>
                 if events[i].FromSource? then events[i].source < |sources| else events[i].dest < |dests|
      modifies generator, sourceRouter, dests, SourceObjects(sources)
      ensures Valid()
      ensures IsRun(run) && run.events == events && run.states[|events|] == Abs()
    {
      StartIsInitial();
      run := ProcessEvents(events);
    }
  }

  /** A round-robin router with one slot for each destination. */
  ghost predicate RoutesOverAll(src: SourceState, destCount: nat) {
    && src.router.RoundRobinRouter? && |src.router.slots| == destCount
    && forall i :: 0 <= i < destCount ==> src.router.slots[i] == i
  }

  /** A client with a round-robin router of its own over all destinations. */
  method NewClient(id: nat, generator: UIDGenerator, sourceRouter: SourceRouter, dests: seq<DestinationSession>)
    returns (client: SourceSession)
    requires Registered(dests, generator)
    ensures fresh(client) && fresh(client.router.Own()) && client.router.RoundRobin?
    ensures client.id == id && client.generator == generator && client.sourceRouter == sourceRouter
    ensures client.router.Valid(dests) && InitialSource(client.Abs(), |dests|)
    ensures RoutesOverAll(client.Abs(), |dests|)
  {
    var router := new DestinationRouterRoundRobin(dests);
    router.ValidIsWellFormed(dests, generator);
    client := new SourceSession(id, generator, RoundRobin(router), sourceRouter);
  }

  /** Two clients with routers of their own over one venue. */
  method NewSessions() returns (generator: UIDGenerator, sourceRouter: SourceRouter, venue: DestinationSession,
                                client0: SourceSession, client1: SourceSession)
    ensures fresh(generator) && fresh(sourceRouter) && fresh(venue) && fresh(SourceObjects([client0, client1]))
    ensures generator.uid == 0 && sourceRouter.uidToSource == map[]
    ensures Registered([venue], generator) && venue.sourceRouter == sourceRouter && InitialDest(venue.Abs())
    ensures client0.id == 0 && client0.generator == generator && client0.sourceRouter == sourceRouter
    ensures client1.id == 1 && client1.generator == generator && client1.sourceRouter == sourceRouter
    ensures client0.router.Valid([venue]) && client1.router.Valid([venue])
    ensures client0.router.Own() !! client1.router.Own()
    ensures InitialSource(client0.Abs(), 1) && InitialSource(client1.Abs(), 1) && venue.connected
    ensures RoutesOverAll(client0.Abs(), 1) && RoutesOverAll(client1.Abs(), 1)
  {
    generator := new UIDGenerator();
    sourceRouter := new SourceRouter();
    venue := new DestinationSession(0, generator, sourceRouter);
    client0 := NewClient(0, generator, sourceRouter, [venue]);
    client1 := NewClient(1, generator, sourceRouter, [venue]);
  }

  /** Every client can reach every venue. */
  ghost predicate AllConnected(st: State) {
    && (forall s :: 0 <= s < |st.sources| ==> RoutesOverAll(st.sources[s], |st.dests|))
    && forall d :: 0 <= d < |st.dests| ==> st.dests[d].connected
  }

  /** The system assembled from them. */
  method NewSystem() returns (app: Application)
    ensures app.Valid() && |app.sources| == 2 && |app.dests| == 1 && Initial(app.Abs())
    ensures AllConnected(app.Abs())
    ensures fresh({app.generator, app.sourceRouter, app.dests[0]}) && fresh(SourceObjects(app.sources))
  {
    var generator, sourceRouter, venue, client0, client1 := NewSessions();
    app := new Application(generator, sourceRouter, [venue], [client0, client1]);
    app.StartIsInitial();
  }

  /** The system goes through a run. */
  method TwoClientsOneVenue(events: seq<Event>) returns (app: Application, ghost run: Run)
    requires forall i :: 0 <= i < |events| ==>
               if events[i].FromSource? then events[i].source < 2 else events[i].dest < 1
    ensures app.Valid() && |app.sources| == 2 && |app.dests| == 1
    ensures IsRun(run) && AllConnected(run.states[0]) && run.events == events && run.states[|events|] == app.Abs()
  {
    app := NewSystem();
    run := app.ProcessEvents(events);
  }
}
