/** From bytes to the routing system: reads on the connections of all clients and venues drive a run. */
module Inbound {
  import opened Types
  import opened Arithmetic
  import opened Framing
  import opened Codec
  import opened Dispatch
  import opened History
  import M = Messages
  import R = Routing

  // ---------- From bytes to events ----------

  datatype Peer = Client(source: nat) | Venue(dest: nat)

  function ProtocolOf(peer: Peer): Protocol {
    if peer.Client? then ProtocolA else ProtocolB
  }

  /** What a peer's bytes can ask of the router, or have answered by the protocol itself. */
  datatype Payload = Ask(req: M.Request) | Tell(reply: M.WireReply) | Answered(msg: Message)

  /** A read on a peer's connection, with the validator's answers by position, or the connection's end. */
  datatype Arrival = Arrives(peer: Peer, input: Read, valid: nat -> bool) | Drops(peer: Peer)

  /** What a callback leads to: an answer of the protocol itself, or an event of the routing system. */
  datatype Tick = Answer(peer: Peer, msg: Message) | Happens(event: R.Event)

  function Asked(reqs: seq<M.Request>): seq<Payload> {
    seq(|reqs|, i requires 0 <= i < |reqs| => Ask(reqs[i]))
  }

  function Told(replies: seq<M.WireReply>): seq<Payload> {
    seq(|replies|, i requires 0 <= i < |replies| => Tell(replies[i]))
  }

  function PayloadsIn(peer: Peer, delivery: Delivery): seq<Payload> {
    match delivery
    case Control(kind) => if kind.Logon? || kind.Logout? then [Answered(Message(kind, [0, 0]))] else []
    case Application(msg) => if peer.Client? then Asked(RequestOf(msg)) else Told(WireReplyOf(msg))
    case Invalid => []
  }

  function Payloads(peer: Peer, deliveries: seq<Delivery>): seq<Payload> {
    if deliveries == [] then [] else PayloadsIn(peer, deliveries[0]) + Payloads(peer, deliveries[1..])
  }

  /** The transport takes what it is given: `send_data` fails by an exception only. */
  function EventFor(peer: Peer, payload: Payload, valid: bool): seq<Tick> {
    match (peer, payload)
    case (Client(s), Ask(req)) => [Happens(R.FromSource(s, req, valid, true))]
    case (Venue(d), Tell(reply)) => [Happens(R.FromDestination(d, reply, valid, true))]
    case (_, Answered(msg)) => [Answer(peer, msg)]
    case _ => []
  }

  function EventsFor(peer: Peer, payloads: seq<Payload>, valid: bool): seq<Tick> {
    if payloads == [] then [] else EventFor(peer, payloads[0], valid) + EventsFor(peer, payloads[1..], valid)
  }

  function TicksOf(peer: Peer, delivery: Delivery, valid: bool): seq<Tick> {
    EventsFor(peer, PayloadsIn(peer, delivery), valid)
  }

  function Ticks(peer: Peer, deliveries: seq<Delivery>, valid: nat -> bool, k: nat): seq<Tick>
    decreases |deliveries|
  {
    if deliveries == [] then []
    else TicksOf(peer, deliveries[0], valid(k)) + Ticks(peer, deliveries[1..], valid, k + 1)
  }

  lemma OnePayload(peer: Peer, payload: Payload, valid: bool)
    ensures EventsFor(peer, [payload], valid) == EventFor(peer, payload, valid)
  {
    assert [payload][1..] == [];
    assert EventFor(peer, payload, valid) + [] == EventFor(peer, payload, valid);
  }

  /**
   * What one callback leads to, in full: an answer without content to a logon or logout; for a message
   * of the session at most one event, with the answer that the validator has for this callback, and
   * with a transport that takes whatever is sent.
   */
  lemma TicksOfCallback(peer: Peer, delivery: Delivery, valid: bool)
    ensures delivery.Control? ==>
              TicksOf(peer, delivery, valid) ==
              match delivery.kind
              case Logon => [Answer(peer, Message(Logon, [0, 0]))]
              case Logout => [Answer(peer, Message(Logout, [0, 0]))]
              case _ => []
    ensures delivery.Application? && peer.Client? ==>
              var reqs := RequestOf(delivery.msg);
              && |reqs| <= 1
              && TicksOf(peer, delivery, valid) ==
                 if reqs == [] then [] else [Happens(R.FromSource(peer.source, reqs[0], valid, true))]
    ensures delivery.Application? && peer.Venue? ==>
              var replies := WireReplyOf(delivery.msg);
              && |replies| <= 1
              && TicksOf(peer, delivery, valid) ==
                 if replies == [] then [] else [Happens(R.FromDestination(peer.dest, replies[0], valid, true))]
    ensures delivery.Invalid? ==> TicksOf(peer, delivery, valid) == []
  {
    var payloads := PayloadsIn(peer, delivery);
    if payloads != [] {
      assert payloads == [payloads[0]];
      OnePayload(peer, payloads[0], valid);
    }
  }

  // ---------- Connections ----------

  /** The next connection starts over the array as the last one left it. */
  function Dropped(m: Memory): (m': Memory)
    ensures IsMemory(m) ==> IsMemory(m') && Front(m') == []
  {
    Memory(m.buffer, 0)
  }

  predicate ArrivalFits(m: Memory, x: Arrival) {
    && IsMemory(m)
    && (x.Arrives? ==>
          x.input.chunk != [] && m.length + |x.input.chunk| <= CAPACITY && LONGEST <= |x.input.beyond|)
  }

  function AfterArrival(p: Protocol, m: Memory, x: Arrival): (m': Memory)
    requires ArrivalFits(m, x)
    ensures IsMemory(m')
  {
    if x.Drops? then Dropped(m) else AfterRead(p, m, x.input)
  }

  function CallbacksAt(p: Protocol, m: Memory, x: Arrival): seq<Callback>
    requires ArrivalFits(m, x)
  {
    if x.Drops? then [] else CallbacksOf(p, m, x.input)
  }

  function TicksAt(m: Memory, x: Arrival): seq<Tick>
    requires ArrivalFits(m, x)
  {
    if x.Drops? then []
    else Ticks(x.peer, Deliveries(CallbacksOf(ProtocolOf(x.peer), m, x.input)), x.valid, 0)
  }

  /** The reads of a peer's connections, one connection after the other. */
  function ConnectionsOf(arrivals: seq<Arrival>, peer: Peer): (conns: seq<seq<Read>>)
    ensures conns != []
  {
    if arrivals == [] then [[]]
    else
      var later := ConnectionsOf(arrivals[1..], peer);
      if arrivals[0].peer != peer then later
      else if arrivals[0].Drops? then [[]] + later
      else [[arrivals[0].input] + later[0]] + later[1..]
  }

  predicate ConnectionsFit(p: Protocol, m: Memory, conns: seq<seq<Read>>)
    requires conns != []
  {
    && IsMemory(m) && Fitting(p, Front(m), conns[0])
    && forall j :: 1 <= j < |conns| ==> Fitting(p, [], conns[j])
  }

  lemma FitAfterFirst(p: Protocol, m: Memory, conns: seq<seq<Read>>)
    requires |conns| > 1 && ConnectionsFit(p, m, conns)
    ensures ConnectionsFit(p, Dropped(After(p, m, conns[0])), conns[1..])
  {
  }

  /** Everything a peer's connections have the endpoint dispatch; `m` is the memory in the first of them. */
  function Heard(p: Protocol, m: Memory, conns: seq<seq<Read>>): seq<Callback>
    requires conns != [] && ConnectionsFit(p, m, conns)
    decreases |conns|
  {
    CallbacksBy(p, m, conns[0]) +
    if |conns| == 1 then []
    else
      FitAfterFirst(p, m, conns);
      Heard(p, Dropped(After(p, m, conns[0])), conns[1..])
  }

  predicate PeerFits(peer: Peer, m: Memory, arrivals: seq<Arrival>) {
    ConnectionsFit(ProtocolOf(peer), m, ConnectionsOf(arrivals, peer))
  }

  lemma FittingMore(p: Protocol, m: Memory, input: Read, conn: seq<Read>)
    requires IsMemory(m) && input.chunk != [] && m.length + |input.chunk| <= CAPACITY && LONGEST <= |input.beyond|
    requires Fitting(p, Front(AfterRead(p, m, input)), conn)
    ensures Fitting(p, Front(m), [input] + conn)
  {
    assert Chunks([input] + conn)[1..] == Chunks(conn);
  }

  lemma FirstHeard(p: Protocol, m: Memory, input: Read, conn: seq<Read>, later: seq<seq<Read>>)
    requires IsMemory(m) && input.chunk != [] && m.length + |input.chunk| <= CAPACITY && LONGEST <= |input.beyond|
    requires ConnectionsFit(p, AfterRead(p, m, input), [conn] + later)
    ensures ConnectionsFit(p, m, [[input] + conn] + later)
    ensures Heard(p, m, [[input] + conn] + later) ==
            CallbacksOf(p, m, input) + Heard(p, AfterRead(p, m, input), [conn] + later)
  {
    var all, next, m' := [[input] + conn] + later, [conn] + later, AfterRead(p, m, input);
    FittingMore(p, m, input, conn);
    FirstOfCallbacks(p, m, input, conn);
    assert ([input] + conn)[1..] == conn;
    forall j | 1 <= j < |all|
      ensures Fitting(p, [], all[j])
    {
      assert next[j] == all[j];
    }
    assert all[1..] == later == next[1..];
    Associate(CallbacksOf(p, m, input), CallbacksBy(p, m', conn),
              if later == [] then [] else Heard(p, Dropped(After(p, m', conn)), later));
  }

  lemma DropHeard(p: Protocol, m: Memory, later: seq<seq<Read>>)
    requires later != [] && IsMemory(m) && ConnectionsFit(p, Dropped(m), later)
    ensures ConnectionsFit(p, m, [[]] + later)
    ensures Heard(p, m, [[]] + later) == Heard(p, Dropped(m), later)
  {
    var all := [[]] + later;
    assert all[1..] == later;
    forall j | 1 <= j < |all|
      ensures Fitting(p, [], all[j])
    {
      assert all[j] == later[j - 1];
    }
  }

  /** What arrives first, and then the rest on the memory it leaves. */
  lemma {:induction false} FirstOf(arrivals: seq<Arrival>, m: Memory)
    requires arrivals != [] && ArrivalFits(m, arrivals[0])
    requires var q := arrivals[0].peer; PeerFits(q, AfterArrival(ProtocolOf(q), m, arrivals[0]), arrivals[1..])
    ensures var q, x := arrivals[0].peer, arrivals[0];
            && PeerFits(q, m, arrivals)
            && Heard(ProtocolOf(q), m, ConnectionsOf(arrivals, q)) ==
               CallbacksAt(ProtocolOf(q), m, x) +
               Heard(ProtocolOf(q), AfterArrival(ProtocolOf(q), m, x), ConnectionsOf(arrivals[1..], q))
  {
    var q, x := arrivals[0].peer, arrivals[0];
    var later := ConnectionsOf(arrivals[1..], q);
    if x.Drops? {
      DropHeard(ProtocolOf(q), m, later);
    } else {
      assert later == [later[0]] + later[1..];
      FirstHeard(ProtocolOf(q), m, x.input, later[0], later[1..]);
    }
  }

  // ---------- All connections ----------

  /** The memories of all connections after something arrived on one of them. */
  function Moved(memories: map<Peer, Memory>, x: Arrival): map<Peer, Memory>
    requires x.peer in memories && ArrivalFits(memories[x.peer], x)
  {
    memories[x.peer := AfterArrival(ProtocolOf(x.peer), memories[x.peer], x)]
  }

  /** Everything that arrives belongs to a connection, and every read fits its buffer. */
  ghost predicate AllFit(memories: map<Peer, Memory>, arrivals: seq<Arrival>)
    decreases |arrivals|
  {
    && (forall peer :: peer in memories ==> IsMemory(memories[peer]))
    && (arrivals != [] ==>
          && arrivals[0].peer in memories && ArrivalFits(memories[arrivals[0].peer], arrivals[0])
          && AllFit(Moved(memories, arrivals[0]), arrivals[1..]))
  }

  function MemoriesAfter(memories: map<Peer, Memory>, arrivals: seq<Arrival>): map<Peer, Memory>
    requires AllFit(memories, arrivals)
    decreases |arrivals|
  {
    if arrivals == [] then memories else MemoriesAfter(Moved(memories, arrivals[0]), arrivals[1..])
  }

  /** Everything that the reads on all connections lead to, in order. */
  function Timeline(memories: map<Peer, Memory>, arrivals: seq<Arrival>): seq<Tick>
    requires AllFit(memories, arrivals)
    decreases |arrivals|
  {
    if arrivals == [] then []
    else
      TicksAt(memories[arrivals[0].peer], arrivals[0]) + Timeline(Moved(memories, arrivals[0]), arrivals[1..])
  }

  /** One more arrival adds what it leads to. */
  lemma {:induction false} TimelineMore(memories: map<Peer, Memory>, arrivals: seq<Arrival>, x: Arrival)
    requires AllFit(memories, arrivals)
    requires var now := MemoriesAfter(memories, arrivals); x.peer in now && ArrivalFits(now[x.peer], x)
    ensures AllFit(memories, arrivals + [x])
    ensures var now := MemoriesAfter(memories, arrivals);
            && MemoriesAfter(memories, arrivals + [x]) == Moved(now, x)
            && Timeline(memories, arrivals + [x]) == Timeline(memories, arrivals) + TicksAt(now[x.peer], x)
    decreases |arrivals|
  {
    var all := arrivals + [x];
    if arrivals == [] {
      assert all == [x] && all[1..] == [];
    } else {
      assert all[0] == arrivals[0] && all[1..] == arrivals[1..] + [x];
      var next := Moved(memories, arrivals[0]);
      TimelineMore(next, arrivals[1..], x);
      Associate(TicksAt(memories[arrivals[0].peer], arrivals[0]), Timeline(next, arrivals[1..]),
                TicksAt(MemoriesAfter(memories, arrivals)[x.peer], x));
    }
  }

  // ---------- What the events carry ----------

  /** What the events of a peer, and the answers to it, carry. */
  function CarriedBy(tick: Tick, peer: Peer): seq<Payload> {
    match tick
    case Answer(q, msg) => if peer == q then [Answered(msg)] else []
    case Happens(FromSource(s, req, _, _)) => if peer == Client(s) then [Ask(req)] else []
    case Happens(FromDestination(d, reply, _, _)) => if peer == Venue(d) then [Tell(reply)] else []
    case _ => []
  }

  function Carried(ticks: seq<Tick>, peer: Peer): seq<Payload> {
    if ticks == [] then [] else CarriedBy(ticks[0], peer) + Carried(ticks[1..], peer)
  }

  lemma {:induction false} CarriedAdds(a: seq<Tick>, b: seq<Tick>, peer: Peer)
    ensures Carried(a + b, peer) == Carried(a, peer) + Carried(b, peer)
    decreases |a|
  {
    if a == [] {
      assert a + b == b;
    } else {
      assert (a + b)[1..] == a[1..] + b;
      CarriedAdds(a[1..], b, peer);
      Associate(CarriedBy(a[0], peer), Carried(a[1..], peer), Carried(b, peer));
    }
  }

  /** It can come from the peer, and if it is an answer, it is one without content. */
  predicate Fit(peer: Peer, payload: Payload) {
    match payload
    case Ask(_) => peer.Client?
    case Tell(_) => peer.Venue?
    case Answered(msg) => IsControl(msg.kind) && msg.words == [0, 0]
  }

  lemma PayloadsFit(peer: Peer, delivery: Delivery)
    ensures forall i :: 0 <= i < |PayloadsIn(peer, delivery)| ==> Fit(peer, PayloadsIn(peer, delivery)[i])
  {
  }

  lemma EventCarries(peer: Peer, payload: Payload, valid: bool, q: Peer)
    requires Fit(peer, payload)
    ensures Carried(EventFor(peer, payload, valid), q) == if q == peer then [payload] else []
  {
    assert EventFor(peer, payload, valid)[1..] == [];
  }

  lemma {:induction false} EventsCarry(peer: Peer, payloads: seq<Payload>, valid: bool, q: Peer)
    requires forall i :: 0 <= i < |payloads| ==> Fit(peer, payloads[i])
    ensures Carried(EventsFor(peer, payloads, valid), q) == if q == peer then payloads else []
    decreases |payloads|
  {
    if payloads != [] {
      EventCarries(peer, payloads[0], valid, q);
      EventsCarry(peer, payloads[1..], valid, q);
      CarriedTogether(EventFor(peer, payloads[0], valid), EventsFor(peer, payloads[1..], valid), q,
                      if q == peer then [payloads[0]] else [], if q == peer then payloads[1..] else []);
      assert payloads == [payloads[0]] + payloads[1..];
    }
  }

  lemma CarriedTogether(a: seq<Tick>, b: seq<Tick>, q: Peer, x: seq<Payload>, y: seq<Payload>)
    requires Carried(a, q) == x && Carried(b, q) == y
    ensures Carried(a + b, q) == x + y
  {
    CarriedAdds(a, b, q);
  }

  lemma {:induction false} TicksCarry(peer: Peer, deliveries: seq<Delivery>, valid: nat -> bool, k: nat, q: Peer)
    ensures Carried(Ticks(peer, deliveries, valid, k), q) == if q == peer then Payloads(peer, deliveries) else []
    decreases |deliveries|
  {
    if deliveries != [] {
      var first := TicksOf(peer, deliveries[0], valid(k));
      PayloadsFit(peer, deliveries[0]);
      EventsCarry(peer, PayloadsIn(peer, deliveries[0]), valid(k), q);
      TicksCarry(peer, deliveries[1..], valid, k + 1, q);
      CarriedAdds(first, Ticks(peer, deliveries[1..], valid, k + 1), q);
    }
  }

  lemma {:induction false} PayloadsAdd(peer: Peer, a: seq<Delivery>, b: seq<Delivery>)
    ensures Payloads(peer, a + b) == Payloads(peer, a) + Payloads(peer, b)
    decreases |a|
  {
    if a == [] {
      assert a + b == b;
    } else {
      assert (a + b)[1..] == a[1..] + b;
      PayloadsAdd(peer, a[1..], b);
      Associate(PayloadsIn(peer, a[0]), Payloads(peer, a[1..]), Payloads(peer, b));
    }
  }

  lemma {:induction false} DeliveriesAdd(a: seq<Callback>, b: seq<Callback>)
    ensures Deliveries(a + b) == Deliveries(a) + Deliveries(b)
    decreases |a|
  {
    if a == [] {
      assert a + b == b;
    } else {
      assert (a + b)[1..] == a[1..] + b;
      DeliveriesAdd(a[1..], b);
      Associate([a[0].delivery], Deliveries(a[1..]), Deliveries(b));
    }
  }

  lemma ArrivalCarries(m: Memory, x: Arrival, q: Peer)
    requires ArrivalFits(m, x)
    ensures Carried(TicksAt(m, x), q) ==
            if q == x.peer then Payloads(q, Deliveries(CallbacksAt(ProtocolOf(q), m, x))) else []
  {
    if x.Arrives? {
      TicksCarry(x.peer, Deliveries(CallbacksOf(ProtocolOf(x.peer), m, x.input)), x.valid, 0, q);
    }
  }

  /** The events of a peer carry what its own connections delivered, whatever the others do in between. */
  lemma {:induction false} TimelineCarries(memories: map<Peer, Memory>, arrivals: seq<Arrival>, q: Peer)
    requires AllFit(memories, arrivals) && q in memories
    ensures PeerFits(q, memories[q], arrivals)
    ensures Carried(Timeline(memories, arrivals), q) ==
            Payloads(q, Deliveries(Heard(ProtocolOf(q), memories[q], ConnectionsOf(arrivals, q))))
    decreases |arrivals|
  {
    if arrivals != [] {
      var x, later := arrivals[0], arrivals[1..];
      var m, next := memories[x.peer], Moved(memories, x);
      TimelineCarries(next, later, q);
      CarriedAdds(TicksAt(m, x), Timeline(next, later), q);
      ArrivalCarries(m, x, q);
      if q == x.peer {
        FirstOf(arrivals, m);
        var first, rest := CallbacksAt(ProtocolOf(q), m, x), Heard(ProtocolOf(q), next[q], ConnectionsOf(later, q));
        DeliveriesAdd(first, rest);
        PayloadsAdd(q, Deliveries(first), Deliveries(rest));
      }
    }
  }

  // ---------- The run ----------

  function EventsIn(ticks: seq<Tick>): seq<R.Event> {
    if ticks == [] then [] else (if ticks[0].Happens? then [ticks[0].event] else []) + EventsIn(ticks[1..])
  }

  /** The connection a tick comes from. */
  function Owner(tick: Tick): Option<Peer> {
    match tick
    case Answer(peer, _) => Some(peer)
    case Happens(FromSource(s, _, _, _)) => Some(Client(s))
    case Happens(FromDestination(d, _, _, _)) => Some(Venue(d))
    case Happens(LinkChange(_, _)) => None
  }

  /** It comes from one of these, and if it is an answer, it is the protocol's own. */
  predicate Owned(tick: Tick, peers: set<Peer>) {
    && Owner(tick).Some? && Owner(tick).value in peers
    && (tick.Answer? ==> IsControl(tick.msg.kind) && tick.msg.words == [0, 0])
  }

  ghost predicate OwnedBy(ticks: seq<Tick>, peers: set<Peer>) {
    forall i {:trigger Owned(ticks[i], peers)} :: 0 <= i < |ticks| ==> Owned(ticks[i], peers)
  }

  lemma OwnedAdds(a: seq<Tick>, b: seq<Tick>, peers: set<Peer>)
    requires OwnedBy(a, peers) && OwnedBy(b, peers)
    ensures OwnedBy(a + b, peers)
  {
    forall i | 0 <= i < |a + b|
      ensures Owned((a + b)[i], peers)
    {
      assert if i < |a| then Owned(a[i], peers) else Owned(b[i - |a|], peers);
    }
  }

  lemma OwnedByMore(ticks: seq<Tick>, peers: set<Peer>, more: set<Peer>)
    requires OwnedBy(ticks, peers) && peers <= more
    ensures OwnedBy(ticks, more)
  {
    forall i | 0 <= i < |ticks|
      ensures Owned(ticks[i], more)
    {
      assert Owned(ticks[i], peers);
    }
  }

  lemma OwnedTail(ticks: seq<Tick>, peers: set<Peer>)
    requires OwnedBy(ticks, peers) && ticks != []
    ensures Owned(ticks[0], peers) && OwnedBy(ticks[1..], peers)
  {
    assert Owned(ticks[0], peers);
    forall i | 0 <= i < |ticks| - 1
      ensures Owned(ticks[1..][i], peers)
    {
      assert Owned(ticks[i + 1], peers);
    }
  }

  lemma {:induction false} EventsOwned(peer: Peer, payloads: seq<Payload>, valid: bool)
    requires forall i :: 0 <= i < |payloads| ==> Fit(peer, payloads[i])
    ensures OwnedBy(EventsFor(peer, payloads, valid), {peer})
    decreases |payloads|
  {
    if payloads != [] {
      EventsOwned(peer, payloads[1..], valid);
      OwnedAdds(EventFor(peer, payloads[0], valid), EventsFor(peer, payloads[1..], valid), {peer});
    }
  }

  lemma {:induction false} TicksOwned(peer: Peer, deliveries: seq<Delivery>, valid: nat -> bool, k: nat)
    ensures OwnedBy(Ticks(peer, deliveries, valid, k), {peer})
    decreases |deliveries|
  {
    if deliveries != [] {
      PayloadsFit(peer, deliveries[0]);
      EventsOwned(peer, PayloadsIn(peer, deliveries[0]), valid(k));
      TicksOwned(peer, deliveries[1..], valid, k + 1);
      OwnedAdds(TicksOf(peer, deliveries[0], valid(k)), Ticks(peer, deliveries[1..], valid, k + 1), {peer});
    }
  }

  lemma ArrivalOwned(m: Memory, x: Arrival, peers: set<Peer>)
    requires ArrivalFits(m, x) && x.peer in peers
    ensures OwnedBy(TicksAt(m, x), peers)
  {
    if x.Arrives? {
      TicksOwned(x.peer, Deliveries(CallbacksOf(ProtocolOf(x.peer), m, x.input)), x.valid, 0);
      OwnedByMore(TicksAt(m, x), {x.peer}, peers);
    }
  }

  lemma {:induction false} TimelineOwned(memories: map<Peer, Memory>, arrivals: seq<Arrival>)
    requires AllFit(memories, arrivals)
    ensures OwnedBy(Timeline(memories, arrivals), memories.Keys)
    decreases |arrivals|
  {
    if arrivals != [] {
      var x := arrivals[0];
      var m, next := memories[x.peer], Moved(memories, x);
      assert next.Keys == memories.Keys;
      TimelineOwned(next, arrivals[1..]);
      ArrivalOwned(m, x, memories.Keys);
      OwnedAdds(TicksAt(m, x), Timeline(next, arrivals[1..]), memories.Keys);
    }
  }

  /** Connections of sessions that exist. */
  predicate Known(st: R.State, peer: Peer) {
    if peer.Client? then peer.source < |st.sources| else peer.dest < |st.dests|
  }

  lemma {:induction false} OwnedIsEnabled(st: R.State, ticks: seq<Tick>, peers: set<Peer>)
    requires OwnedBy(ticks, peers) && forall peer :: peer in peers ==> Known(st, peer)
    ensures forall i :: 0 <= i < |EventsIn(ticks)| ==> R.Enabled(st, EventsIn(ticks)[i])
    decreases |ticks|
  {
    if ticks != [] {
      OwnedTail(ticks, peers);
      OwnedIsEnabled(st, ticks[1..], peers);
      assert Known(st, Owner(ticks[0]).value);
    }
  }

  /** Whatever events come, there is a run with them. */
  lemma RunOver(st: R.State, events: seq<R.Event>) returns (r: Run)
    requires Initial(st) && forall i :: 0 <= i < |events| ==> R.Enabled(st, events[i])
    ensures IsRun(r) && r.states[0] == st && r.events == events
  {
    r := Run([st], [], []);
    for n := 0 to |events|
      invariant IsRun(r) && r.states[0] == st && r.events == events[..n]
    {
      r := Continue(r, events[n]);
    }
  }

  /** The bytes of all connections drive a run. */
  lemma BytesDriveRun(st: R.State, memories: map<Peer, Memory>, arrivals: seq<Arrival>) returns (r: Run)
    requires Initial(st) && AllFit(memories, arrivals) && forall peer :: peer in memories ==> Known(st, peer)
    ensures IsRun(r) && r.states[0] == st && r.events == EventsIn(Timeline(memories, arrivals))
  {
    TimelineOwned(memories, arrivals);
    OwnedIsEnabled(st, Timeline(memories, arrivals), memories.Keys);
    r := RunOver(st, EventsIn(Timeline(memories, arrivals)));
  }

  // ---------- Messages arrive ----------

  /** What a peer sends over one connection: messages, and a last one that is cut off when the connection ends. */
  datatype Talk = Talk(last: uint64, msgs: seq<Message>, cut: seq<byte>)

  ghost predicate Carries(p: Protocol, conn: seq<Read>, talk: Talk) {
    && ValidMessages(p, talk.msgs) && !Complete(p, talk.cut)
    && Concat(Chunks(conn)) == EncodeAll(p, talk.last, talk.msgs) + talk.cut
  }

  /** Every connection carries, under any split, what is said over it. */
  ghost predicate AllCarry(p: Protocol, conns: seq<seq<Read>>, talks: seq<Talk>) {
    |conns| == |talks| && forall j :: 0 <= j < |conns| ==> Carries(p, conns[j], talks[j])
  }

  /** Everything a peer says, over all its connections. */
  function Said(talks: seq<Talk>): seq<Message> {
    if talks == [] then [] else talks[0].msgs + Said(talks[1..])
  }

  lemma {:induction false} DeliveriesOfAdds(p: Protocol, a: seq<Message>, b: seq<Message>)
    ensures DeliveriesOf(p, a + b) == DeliveriesOf(p, a) + DeliveriesOf(p, b)
    decreases |a|
  {
    if a == [] {
      assert a + b == b;
    } else {
      assert (a + b)[1..] == a[1..] + b;
      DeliveriesOfAdds(p, a[1..], b);
      Associate([DeliveryOf(p, a[0])], DeliveriesOf(p, a[1..]), DeliveriesOf(p, b));
    }
  }

  lemma ConnectionHandles(p: Protocol, m: Memory, conn: seq<Read>, talk: Talk)
    requires IsMemory(m) && m.length == 0 && Fitting(p, Front(m), conn) && Carries(p, conn, talk)
    ensures Deliveries(CallbacksBy(p, m, conn)) == DeliveriesOf(p, talk.msgs)
  {
    assert Front(m) == [] && m == Memory(m.buffer, 0);
    EncodedStreamHandled(p, talk.last, talk.msgs, talk.cut, Execution(m.buffer, conn));
  }

  /** Each connection delivers its whole messages; the one that was cut off is forgotten when it ends. */
  lemma {:induction false} AllConnectionsHandle(p: Protocol, m: Memory, conns: seq<seq<Read>>, talks: seq<Talk>)
    requires conns != [] && ConnectionsFit(p, m, conns) && m.length == 0 && AllCarry(p, conns, talks)
    ensures Deliveries(Heard(p, m, conns)) == DeliveriesOf(p, Said(talks))
    decreases |conns|
  {
    ConnectionHandles(p, m, conns[0], talks[0]);
    DeliveriesOfAdds(p, talks[0].msgs, Said(talks[1..]));
    if |conns| == 1 {
      assert Heard(p, m, conns) == CallbacksBy(p, m, conns[0]);
    } else {
      var m' := Dropped(After(p, m, conns[0]));
      FitAfterFirst(p, m, conns);
      AllConnectionsHandle(p, m', conns[1..], talks[1..]);
      DeliveriesAdd(CallbacksBy(p, m, conns[0]), Heard(p, m', conns[1..]));
    }
  }

  /** What one message leads to: logon and logout are answered with their like, a session message is an event. */
  function TraceOf(peer: Peer, msg: Message): seq<Payload> {
    match msg.kind
    case Logon => [Answered(Message(Logon, [0, 0]))]
    case Logout => [Answered(Message(Logout, [0, 0]))]
    case _ => if peer.Client? then Asked(RequestOf(msg)) else Told(WireReplyOf(msg))
  }

  function Traces(peer: Peer, msgs: seq<Message>): seq<Payload> {
    if msgs == [] then [] else TraceOf(peer, msgs[0]) + Traces(peer, msgs[1..])
  }

  lemma DeliveredTrace(peer: Peer, msg: Message)
    ensures PayloadsIn(peer, DeliveryOf(ProtocolOf(peer), msg)) == TraceOf(peer, msg)
  {
  }

  lemma {:induction false} DeliveredTraces(peer: Peer, msgs: seq<Message>)
    ensures Payloads(peer, DeliveriesOf(ProtocolOf(peer), msgs)) == Traces(peer, msgs)
    decreases |msgs|
  {
    if msgs != [] {
      DeliveredTraces(peer, msgs[1..]);
      DeliveredTrace(peer, msgs[0]);
      assert DeliveriesOf(ProtocolOf(peer), msgs)[1..] == DeliveriesOf(ProtocolOf(peer), msgs[1..]);
    }
  }

  /**
   * A peer whose bytes, under any split and among any reads of others, are encoded messages: the
   * events of its session and the answers to it are exactly what these messages call for, in order.
   */
  lemma MessagesBecomeEvents(memories: map<Peer, Memory>, arrivals: seq<Arrival>, q: Peer, talks: seq<Talk>)
    requires AllFit(memories, arrivals) && q in memories && memories[q].length == 0
    requires AllCarry(ProtocolOf(q), ConnectionsOf(arrivals, q), talks)
    ensures Carried(Timeline(memories, arrivals), q) == Traces(q, Said(talks))
  {
    TimelineCarries(memories, arrivals, q);
    AllConnectionsHandle(ProtocolOf(q), memories[q], ConnectionsOf(arrivals, q), talks);
    DeliveredTraces(q, Said(talks));
  }

  /** What goes to the router, answers left out. */
  function Requested(payloads: seq<Payload>): seq<Payload> {
    if payloads == [] then []
    else (if payloads[0].Answered? then [] else [payloads[0]]) + Requested(payloads[1..])
  }

  lemma {:induction false} RequestedAdds(a: seq<Payload>, b: seq<Payload>)
    ensures Requested(a + b) == Requested(a) + Requested(b)
    decreases |a|
  {
    if a == [] {
      assert a + b == b;
    } else {
      assert (a + b)[1..] == a[1..] + b;
      RequestedAdds(a[1..], b);
      Associate(if a[0].Answered? then [] else [a[0]], Requested(a[1..]), Requested(b));
    }
  }

  lemma {:induction false} AllRequested(payloads: seq<Payload>)
    requires forall i :: 0 <= i < |payloads| ==> !payloads[i].Answered?
    ensures Requested(payloads) == payloads
    decreases |payloads|
  {
    if payloads != [] {
      AllRequested(payloads[1..]);
    }
  }

  lemma AskedAdds(a: seq<M.Request>, b: seq<M.Request>)
    ensures Asked(a + b) == Asked(a) + Asked(b)
  {
  }

  lemma ToldAdds(a: seq<M.WireReply>, b: seq<M.WireReply>)
    ensures Told(a + b) == Told(a) + Told(b)
  {
  }

  lemma TraceAsks(s: nat, d: nat, msg: Message)
    ensures Requested(TraceOf(Client(s), msg)) == Asked(RequestOf(msg))
    ensures Requested(TraceOf(Venue(d), msg)) == Told(WireReplyOf(msg))
  {
    AllRequested(Asked(RequestOf(msg)));
    AllRequested(Told(WireReplyOf(msg)));
    assert Requested([]) == [] && [Answered(Message(msg.kind, [0, 0]))][1..] == [];
  }

  /** What a client's messages ask is the requests among them. */
  lemma {:induction false} RequestsAsk(s: nat, msgs: seq<Message>)
    ensures Requested(Traces(Client(s), msgs)) == Asked(Gather(RequestOf, msgs))
    decreases |msgs|
  {
    if msgs != [] {
      RequestsAsk(s, msgs[1..]);
      TraceAsks(s, 0, msgs[0]);
      RequestedAdds(TraceOf(Client(s), msgs[0]), Traces(Client(s), msgs[1..]));
      AskedAdds(RequestOf(msgs[0]), Gather(RequestOf, msgs[1..]));
    }
  }

  /** What a venue's messages tell is the replies among them. */
  lemma {:induction false} RepliesTell(d: nat, msgs: seq<Message>)
    ensures Requested(Traces(Venue(d), msgs)) == Told(Gather(WireReplyOf, msgs))
    decreases |msgs|
  {
    if msgs != [] {
      RepliesTell(d, msgs[1..]);
      TraceAsks(0, d, msgs[0]);
      RequestedAdds(TraceOf(Venue(d), msgs[0]), Traces(Venue(d), msgs[1..]));
      ToldAdds(WireReplyOf(msgs[0]), Gather(WireReplyOf, msgs[1..]));
    }
  }

  /** Every session message of a client is a request, and says no more than that. */
  lemma SessionMessageIsRequest(msg: Message)
    requires ValidMessage(ProtocolA, msg) && ForSession(ProtocolA, msg.kind)
    ensures |RequestOf(msg)| == 1 && RequestMessage(RequestOf(msg)[0]) == msg
  {
    Powers();
    FieldsInRange(Widths(ProtocolA, msg.kind), msg.words);
  }

  /** Every session message of a venue is a reply. */
  lemma SessionMessageIsReply(msg: Message)
    requires ValidMessage(ProtocolB, msg) && ForSession(ProtocolB, msg.kind)
    ensures |WireReplyOf(msg)| == 1
  {
    Powers();
    FieldsInRange(Widths(ProtocolB, msg.kind), msg.words);
  }

  lemma FieldsInRange(widths: seq<nat>, words: seq<nat>)
    requires WordsFit(widths, words)
    ensures |words| == |widths| && forall i :: 0 <= i < |words| ==> words[i] < Power256(widths[i])
  {
    forall i | 0 <= i < |words|
      ensures words[i] < Power256(widths[i])
    {
      assert WordFits(widths, words, i);
    }
  }

  lemma LayoutIsValid<T(!new)>(p: Protocol, items: seq<T>, write: T -> Message, read: Message -> seq<T>)
    requires Layout(p, write, read)
    ensures ValidMessages(p, MapAll(write, items))
  {
    forall i | 0 <= i < |items|
      ensures ValidMessage(p, MapAll(write, items)[i])
    {
      assert ValidMessage(p, write(items[i]));
    }
  }

  /** The messages of a peer that a sequence of events carries. */
  function CarriedInto(events: seq<R.Event>, peer: Peer): seq<Payload> {
    if events == [] then [] else CarriedBy(Happens(events[0]), peer) + CarriedInto(events[1..], peer)
  }

  lemma FirstCarried(e: R.Event, later: seq<R.Event>, peer: Peer)
    ensures CarriedInto([e] + later, peer) == CarriedBy(Happens(e), peer) + CarriedInto(later, peer)
  {
    assert ([e] + later)[1..] == later;
  }

  lemma {:induction false} CarriedByEvents(ticks: seq<Tick>, peer: Peer)
    ensures CarriedInto(EventsIn(ticks), peer) == Requested(Carried(ticks, peer))
    decreases |ticks|
  {
    if ticks != [] {
      CarriedByEvents(ticks[1..], peer);
      var first, later := CarriedBy(ticks[0], peer), EventsIn(ticks[1..]);
      RequestedAdds(first, Carried(ticks[1..], peer));
      if ticks[0].Happens? {
        AllRequested(first);
        FirstCarried(ticks[0].event, later, peer);
      } else {
        assert Requested(first) == [] by {
          assert first == [] || first[1..] == [];
        }
        assert [] + later == later;
      }
    }
  }

  /**
   * From bytes to the run: whatever else is read in between, whatever logons and other messages lie
   * between them and wherever connections end, the requests of client s in the run are exactly those
   * among the messages it encoded, in order.
   */
  lemma RequestsDriveRun(st: R.State, memories: map<Peer, Memory>, arrivals: seq<Arrival>, s: nat, talks: seq<Talk>)
    returns (r: Run)
    requires Initial(st) && AllFit(memories, arrivals) && forall peer :: peer in memories ==> Known(st, peer)
    requires Client(s) in memories && memories[Client(s)].length == 0
    ensures IsRun(r) && r.states[0] == st && r.events == EventsIn(Timeline(memories, arrivals))
    ensures AllCarry(ProtocolA, ConnectionsOf(arrivals, Client(s)), talks) ==>
              CarriedInto(r.events, Client(s)) == Asked(Gather(RequestOf, Said(talks)))
  {
    r := BytesDriveRun(st, memories, arrivals);
    if AllCarry(ProtocolA, ConnectionsOf(arrivals, Client(s)), talks) {
      MessagesBecomeEvents(memories, arrivals, Client(s), talks);
      RequestsAsk(s, Said(talks));
      CarriedByEvents(Timeline(memories, arrivals), Client(s));
    }
  }

  /** And so are the replies of venue d. */
  lemma RepliesDriveRun(st: R.State, memories: map<Peer, Memory>, arrivals: seq<Arrival>, d: nat, talks: seq<Talk>)
    returns (r: Run)
    requires Initial(st) && AllFit(memories, arrivals) && forall peer :: peer in memories ==> Known(st, peer)
    requires Venue(d) in memories && memories[Venue(d)].length == 0
    ensures IsRun(r) && r.states[0] == st && r.events == EventsIn(Timeline(memories, arrivals))
    ensures AllCarry(ProtocolB, ConnectionsOf(arrivals, Venue(d)), talks) ==>
              CarriedInto(r.events, Venue(d)) == Told(Gather(WireReplyOf, Said(talks)))
  {
    r := BytesDriveRun(st, memories, arrivals);
    if AllCarry(ProtocolB, ConnectionsOf(arrivals, Venue(d)), talks) {
      MessagesBecomeEvents(memories, arrivals, Venue(d), talks);
      RepliesTell(d, Said(talks));
      CarriedByEvents(Timeline(memories, arrivals), Venue(d));
    }
  }
}
