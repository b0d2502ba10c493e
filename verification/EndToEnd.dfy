/** From the bytes of one peer to the bytes of another: what the gateway does, in numbers. */
module EndToEnd {
  import opened Types
  import opened Arithmetic
  import opened WireIds
  import opened RoundRobin
  import opened Framing
  import opened Codec
  import opened Dispatch
  import opened Layout
  import opened Transport
  import opened History
  import opened Sessions
  import opened Inbound
  import opened Outbound
  import opened Gateway
  import M = Messages
  import R = Routing

  // ---------- Where events come from ----------

  /** The event that a callback leads to, with the validator's answer to it and a transport that takes everything. */
  predicate IsEventOf(peer: Peer, delivery: Delivery, valid: bool, e: R.Event) {
    && delivery.Application?
    && match peer
       case Client(s) =>
         RequestOf(delivery.msg) != [] && e == R.FromSource(s, RequestOf(delivery.msg)[0], valid, true)
       case Venue(d) =>
         WireReplyOf(delivery.msg) != [] && e == R.FromDestination(d, WireReplyOf(delivery.msg)[0], valid, true)
  }

  lemma EventOfTicks(peer: Peer, delivery: Delivery, valid: bool)
    ensures var events := EventsIn(TicksOf(peer, delivery, valid));
            |events| <= 1 && (|events| == 1 ==> IsEventOf(peer, delivery, valid, events[0]))
  {
    var ticks := TicksOf(peer, delivery, valid);
    TicksOfCallback(peer, delivery, valid);
    if ticks != [] {
      assert |ticks| == 1 && EventsIn(ticks[1..]) == [];
    }
  }

  lemma TicksFirst(peer: Peer, callbacks: seq<Callback>, valid: nat -> bool, k: nat)
    requires callbacks != []
    ensures Ticks(peer, Deliveries(callbacks), valid, k) ==
            TicksOf(peer, callbacks[0].delivery, valid(k)) + Ticks(peer, Deliveries(callbacks[1..]), valid, k + 1)
    ensures EventsIn(Ticks(peer, Deliveries(callbacks), valid, k)) ==
            EventsIn(TicksOf(peer, callbacks[0].delivery, valid(k)))
            + EventsIn(Ticks(peer, Deliveries(callbacks[1..]), valid, k + 1))
  {
    assert Deliveries(callbacks)[1..] == Deliveries(callbacks[1..]);
    EventsInAdds(TicksOf(peer, callbacks[0].delivery, valid(k)),
                 Ticks(peer, Deliveries(callbacks[1..]), valid, k + 1));
  }

  function EventsOf(peer: Peer, callbacks: seq<Callback>, valid: nat -> bool, k: nat): seq<R.Event> {
    EventsIn(Ticks(peer, Deliveries(callbacks), valid, k))
  }

  lemma EventsOfNone(peer: Peer, valid: nat -> bool, k: nat)
    ensures EventsOf(peer, [], valid, k) == []
  {
  }

  /** The events of the first callback, and then those of the others. */
  lemma EventsOfFirst(peer: Peer, callbacks: seq<Callback>, valid: nat -> bool, k: nat) returns (first: seq<R.Event>)
    requires callbacks != []
    ensures first == EventsIn(TicksOf(peer, callbacks[0].delivery, valid(k))) && |first| <= 1
    ensures |first| == 1 ==> IsEventOf(peer, callbacks[0].delivery, valid(k), first[0])
    ensures EventsOf(peer, callbacks, valid, k) == first + EventsOf(peer, callbacks[1..], valid, k + 1)
  {
    TicksFirst(peer, callbacks, valid, k);
    EventOfTicks(peer, callbacks[0].delivery, valid(k));
    first := EventsIn(TicksOf(peer, callbacks[0].delivery, valid(k)));
  }

  /** How many events the first n callbacks lead to. */
  function EventsBefore(peer: Peer, callbacks: seq<Callback>, valid: nat -> bool, k: nat, n: nat): nat
    requires n <= |callbacks|
  {
    |EventsOf(peer, callbacks[..n], valid, k)|
  }

  lemma EventsBeforeLater(peer: Peer, callbacks: seq<Callback>, valid: nat -> bool, k: nat, n: nat,
                          first: seq<R.Event>)
    requires 0 < n <= |callbacks| && first == EventsIn(TicksOf(peer, callbacks[0].delivery, valid(k)))
    ensures EventsBefore(peer, callbacks, valid, k, n) ==
            |first| + EventsBefore(peer, callbacks[1..], valid, k + 1, n - 1)
  {
    assert callbacks[..n][1..] == callbacks[1..][..n - 1];
    var same := EventsOfFirst(peer, callbacks[..n], valid, k);
  }

  ghost predicate CallbackEvents(peer: Peer, callbacks: seq<Callback>, valid: nat -> bool, k: nat,
                                 events: seq<R.Event>)
  {
    events == EventsOf(peer, callbacks, valid, k)
  }

  /** Said of any events equal to these, so that only proofs that name such events look inside. */
  ghost predicate AreCallbackEvents(peer: Peer, callbacks: seq<Callback>, valid: nat -> bool, k: nat,
                                    events: seq<R.Event>)
  {
    forall x :: x == events ==> CallbackEvents(peer, callbacks, valid, k, x)
  }

  ghost predicate FirstCallbackEvents(peer: Peer, callbacks: seq<Callback>, valid: nat -> bool, k: nat,
                                      first: seq<R.Event>)
  {
    && callbacks != [] && first == EventsIn(TicksOf(peer, callbacks[0].delivery, valid(k)))
    && |first| <= 1 && (|first| == 1 ==> IsEventOf(peer, callbacks[0].delivery, valid(k), first[0]))
  }

  /** The same for those of the first callback. */
  ghost predicate AreFirstEvents(peer: Peer, callbacks: seq<Callback>, valid: nat -> bool, k: nat,
                                 first: seq<R.Event>)
  {
    forall x :: x == first ==> FirstCallbackEvents(peer, callbacks, valid, k, x)
  }

  lemma CallbackParts(peer: Peer, callbacks: seq<Callback>, valid: nat -> bool, k: nat, events: seq<R.Event>)
    returns (first: seq<R.Event>, later: seq<R.Event>)
    requires AreCallbackEvents(peer, callbacks, valid, k, events) && events != []
    ensures callbacks != [] && events == first + later && AreFirstEvents(peer, callbacks, valid, k, first)
    ensures AreCallbackEvents(peer, callbacks[1..], valid, k + 1, later)
  {
    assert CallbackEvents(peer, callbacks, valid, k, events);
    if callbacks == [] {
      EventsOfNone(peer, valid, k);
    }
    first := EventsOfFirst(peer, callbacks, valid, k);
    later := EventsOf(peer, callbacks[1..], valid, k + 1);
    assert FirstCallbackEvents(peer, callbacks, valid, k, first);
    assert CallbackEvents(peer, callbacks[1..], valid, k + 1, later);
  }

  /** An event comes from callback n, behind the events of the callbacks before it. */
  ghost predicate FromCallback(peer: Peer, callbacks: seq<Callback>, valid: nat -> bool, k: nat, n: nat, j: nat,
                               e: R.Event)
  {
    && n < |callbacks| && j == EventsBefore(peer, callbacks, valid, k, n)
    && IsEventOf(peer, callbacks[n].delivery, valid(k + n), e)
  }

  ghost predicate IsFromCallback(peer: Peer, callbacks: seq<Callback>, valid: nat -> bool, k: nat, n: nat, j: nat,
                                 e: R.Event)
  {
    forall x :: x == e ==> FromCallback(peer, callbacks, valid, k, n, j, x)
  }

  /** Every event of a read comes from one of its callbacks. */
  lemma {:induction false} CallbackOrigin(peer: Peer, callbacks: seq<Callback>, valid: nat -> bool, k: nat,
                                          events: seq<R.Event>, j: nat) returns (n: nat)
    requires AreCallbackEvents(peer, callbacks, valid, k, events) && j < |events|
    ensures IsFromCallback(peer, callbacks, valid, k, n, j, events[j])
    decreases |callbacks|
  {
    var first, later := CallbackParts(peer, callbacks, valid, k, events);
    if j < |first| {
      n := 0;
      FirstOrigin(peer, callbacks, valid, k, first, j);
    } else {
      n := CallbackOrigin(peer, callbacks[1..], valid, k + 1, later, j - |first|);
      LaterOrigin(peer, callbacks, valid, k, first, n, j - |first|, later[j - |first|]);
      n := n + 1;
    }
  }

  lemma FirstOrigin(peer: Peer, callbacks: seq<Callback>, valid: nat -> bool, k: nat, first: seq<R.Event>, j: nat)
    requires AreFirstEvents(peer, callbacks, valid, k, first) && j < |first|
    ensures IsFromCallback(peer, callbacks, valid, k, 0, j, first[j])
  {
    assert FirstCallbackEvents(peer, callbacks, valid, k, first);
    assert callbacks[..0] == [];
    EventsOfNone(peer, valid, k);
    assert FromCallback(peer, callbacks, valid, k, 0, j, first[j]);
  }

  lemma LaterOrigin(peer: Peer, callbacks: seq<Callback>, valid: nat -> bool, k: nat, first: seq<R.Event>, n: nat,
                    j: nat, e: R.Event)
    requires callbacks != [] && AreFirstEvents(peer, callbacks, valid, k, first)
    requires IsFromCallback(peer, callbacks[1..], valid, k + 1, n, j, e)
    ensures IsFromCallback(peer, callbacks, valid, k, n + 1, |first| + j, e)
  {
    assert FromCallback(peer, callbacks[1..], valid, k + 1, n, j, e);
    BehindFirst(peer, callbacks, valid, k, first, n);
    assert callbacks[1..][n] == callbacks[n + 1] && k + 1 + n == k + (n + 1);
    assert FromCallback(peer, callbacks, valid, k, n + 1, |first| + j, e);
  }

  lemma BehindFirst(peer: Peer, callbacks: seq<Callback>, valid: nat -> bool, k: nat, first: seq<R.Event>, n: nat)
    requires n + 1 <= |callbacks| && AreFirstEvents(peer, callbacks, valid, k, first)
    ensures EventsBefore(peer, callbacks, valid, k, n + 1) ==
            |first| + EventsBefore(peer, callbacks[1..], valid, k + 1, n)
  {
    assert FirstCallbackEvents(peer, callbacks, valid, k, first);
    EventsBeforeLater(peer, callbacks, valid, k, n + 1, first);
  }

  /** An event of the run, and the callback of the read that it comes from. */
  ghost predicate ComesFrom(start: map<Peer, Memory>, arrivals: seq<Arrival>, j: nat, a: nat, n: nat, e: R.Event) {
    && a < |arrivals| && arrivals[a].Arrives? && AllFit(start, arrivals[..a])
    && var x := arrivals[a];
       && x.peer in MemoriesAfter(start, arrivals[..a]) && ArrivalFits(MemoriesAfter(start, arrivals[..a])[x.peer], x)
       && var callbacks := CallbacksOf(ProtocolOf(x.peer), MemoriesAfter(start, arrivals[..a])[x.peer], x.input);
          && n < |callbacks| && IsEventOf(x.peer, callbacks[n].delivery, x.valid(n), e)
          && j == |EventsIn(Timeline(start, arrivals[..a]))| + EventsBefore(x.peer, callbacks, x.valid, 0, n)
  }

  /** Said of any event equal to it, so that only proofs that name such an event look inside. */
  ghost predicate HasOrigin(start: map<Peer, Memory>, arrivals: seq<Arrival>, j: nat, a: nat, n: nat, e: R.Event) {
    forall x :: x == e ==> ComesFrom(start, arrivals, j, a, n, x)
  }

  lemma ComesFromLater(start: map<Peer, Memory>, arrivals: seq<Arrival>, j: nat, a: nat, n: nat, e: R.Event, c: nat)
    requires AllFit(start, arrivals) && arrivals != []
    requires ComesFrom(Moved(start, arrivals[0]), arrivals[1..], j, a, n, e)
    requires c == |EventsIn(TicksAt(start[arrivals[0].peer], arrivals[0]))|
    ensures ComesFrom(start, arrivals, c + j, a + 1, n, e)
  {
    LaterFront(start, arrivals, a, c);
    assert arrivals[1..][a] == arrivals[a + 1];
  }

  lemma LaterFront(start: map<Peer, Memory>, arrivals: seq<Arrival>, a: nat, c: nat)
    requires AllFit(start, arrivals) && a < |arrivals| && AllFit(Moved(start, arrivals[0]), arrivals[1..][..a])
    requires c == |EventsIn(TicksAt(start[arrivals[0].peer], arrivals[0]))|
    ensures AllFit(start, arrivals[..a + 1])
    ensures MemoriesAfter(start, arrivals[..a + 1]) == MemoriesAfter(Moved(start, arrivals[0]), arrivals[1..][..a])
    ensures |EventsIn(Timeline(start, arrivals[..a + 1]))| ==
            c + |EventsIn(Timeline(Moved(start, arrivals[0]), arrivals[1..][..a]))|
  {
    var front := arrivals[..a + 1];
    assert front[0] == arrivals[0] && front[1..] == arrivals[1..][..a];
    EventsInAdds(TicksAt(start[arrivals[0].peer], arrivals[0]), Timeline(Moved(start, arrivals[0]), front[1..]));
  }

  lemma ComesFromFirst(start: map<Peer, Memory>, arrivals: seq<Arrival>, j: nat)
    returns (n: nat)
    requires AllFit(start, arrivals) && arrivals != []
    requires j < |EventsIn(TicksAt(start[arrivals[0].peer], arrivals[0]))|
    ensures HasOrigin(start, arrivals, j, 0, n, EventsIn(TicksAt(start[arrivals[0].peer], arrivals[0]))[j])
  {
    var x, m := arrivals[0], start[arrivals[0].peer];
    NothingBefore(start, arrivals);
    assert x.Arrives?;
    var callbacks, events := CallbacksOf(ProtocolOf(x.peer), m, x.input), EventsIn(TicksAt(m, x));
    assert CallbackEvents(x.peer, callbacks, x.valid, 0, events);
    n := CallbackOrigin(x.peer, callbacks, x.valid, 0, events, j);
    assert FromCallback(x.peer, callbacks, x.valid, 0, n, j, events[j]);
  }

  lemma NothingBefore(start: map<Peer, Memory>, arrivals: seq<Arrival>)
    requires AllFit(start, arrivals)
    ensures AllFit(start, arrivals[..0]) && MemoriesAfter(start, arrivals[..0]) == start
    ensures EventsIn(Timeline(start, arrivals[..0])) == []
  {
    assert arrivals[..0] == [];
  }

  /** The events of the first arrival, and those of the others. */
  ghost predicate EventsSplit(start: map<Peer, Memory>, arrivals: seq<Arrival>, first: seq<R.Event>,
                              later: seq<R.Event>)
  {
    && AllFit(start, arrivals) && arrivals != []
    && first == EventsIn(TicksAt(start[arrivals[0].peer], arrivals[0]))
    && later == EventsIn(Timeline(Moved(start, arrivals[0]), arrivals[1..]))
  }

  /** Said of any events equal to these, so that only proofs that name such events look inside. */
  ghost predicate ArePartsOf(start: map<Peer, Memory>, arrivals: seq<Arrival>, first: seq<R.Event>,
                             later: seq<R.Event>)
  {
    forall x :: x == first ==> EventsSplit(start, arrivals, x, later)
  }

  ghost predicate TimelineIs(start: map<Peer, Memory>, arrivals: seq<Arrival>, events: seq<R.Event>) {
    AllFit(start, arrivals) && events == EventsIn(Timeline(start, arrivals))
  }

  /** The same for the events of all arrivals. */
  ghost predicate AreEventsOf(start: map<Peer, Memory>, arrivals: seq<Arrival>, events: seq<R.Event>) {
    forall x :: x == events ==> TimelineIs(start, arrivals, x)
  }

  lemma EventParts(start: map<Peer, Memory>, arrivals: seq<Arrival>, events: seq<R.Event>)
    returns (first: seq<R.Event>, later: seq<R.Event>)
    requires AreEventsOf(start, arrivals, events) && events != []
    ensures arrivals != [] && events == first + later && ArePartsOf(start, arrivals, first, later)
  {
    assert TimelineIs(start, arrivals, events);
    first := EventsIn(TicksAt(start[arrivals[0].peer], arrivals[0]));
    later := EventsIn(Timeline(Moved(start, arrivals[0]), arrivals[1..]));
    EventsInAdds(TicksAt(start[arrivals[0].peer], arrivals[0]), Timeline(Moved(start, arrivals[0]), arrivals[1..]));
    assert EventsSplit(start, arrivals, first, later);
  }

  /**
   * Every event comes from a callback of an arrival: with the validator's answer to just this callback,
   * accepted by the transport, and behind the events of all earlier callbacks.
   */
  lemma {:induction false} EventOrigin(start: map<Peer, Memory>, arrivals: seq<Arrival>, events: seq<R.Event>, j: nat)
    returns (a: nat, n: nat)
    requires AreEventsOf(start, arrivals, events) && j < |events|
    ensures HasOrigin(start, arrivals, j, a, n, events[j])
    decreases |arrivals|, 1
  {
    var first, later := EventParts(start, arrivals, events);
    if j < |first| {
      a := 0;
      n := FirstEventOrigin(start, arrivals, first, later, j);
    } else {
      a, n := LaterEventOrigin(start, arrivals, first, later, j - |first|);
    }
  }

  lemma FirstEventOrigin(start: map<Peer, Memory>, arrivals: seq<Arrival>, first: seq<R.Event>, later: seq<R.Event>,
                         j: nat) returns (n: nat)
    requires ArePartsOf(start, arrivals, first, later) && j < |first|
    ensures HasOrigin(start, arrivals, j, 0, n, first[j])
  {
    assert EventsSplit(start, arrivals, first, later);
    n := ComesFromFirst(start, arrivals, j);
  }

  lemma {:induction false} LaterEventOrigin(start: map<Peer, Memory>, arrivals: seq<Arrival>, first: seq<R.Event>,
                                            later: seq<R.Event>, j: nat) returns (a: nat, n: nat)
    requires arrivals != [] && ArePartsOf(start, arrivals, first, later) && j < |later|
    ensures HasOrigin(start, arrivals, |first| + j, a, n, later[j])
    decreases |arrivals|, 0
  {
    var next := LaterEvents(start, arrivals, first, later);
    a, n := EventOrigin(next, arrivals[1..], later, j);
    OriginBehind(start, arrivals, first, later, next, j, a, n, later[j]);
    a := a + 1;
  }

  /** The memories after the first arrival, said of any equal to them. */
  ghost predicate AreNext(start: map<Peer, Memory>, arrivals: seq<Arrival>, next: map<Peer, Memory>) {
    forall x :: x == next ==> MovedTo(start, arrivals, x)
  }

  ghost predicate MovedTo(start: map<Peer, Memory>, arrivals: seq<Arrival>, next: map<Peer, Memory>) {
    AllFit(start, arrivals) && arrivals != [] && next == Moved(start, arrivals[0])
  }

  lemma LaterEvents(start: map<Peer, Memory>, arrivals: seq<Arrival>, first: seq<R.Event>, later: seq<R.Event>)
    returns (next: map<Peer, Memory>)
    requires ArePartsOf(start, arrivals, first, later)
    ensures AreNext(start, arrivals, next) && arrivals != [] && AreEventsOf(next, arrivals[1..], later)
  {
    assert EventsSplit(start, arrivals, first, later);
    next := Moved(start, arrivals[0]);
    assert MovedTo(start, arrivals, next) && TimelineIs(next, arrivals[1..], later);
  }

  lemma OriginBehind(start: map<Peer, Memory>, arrivals: seq<Arrival>, first: seq<R.Event>, later: seq<R.Event>,
                     next: map<Peer, Memory>, j: nat, a: nat, n: nat, e: R.Event)
    requires ArePartsOf(start, arrivals, first, later) && AreNext(start, arrivals, next) && arrivals != []
    requires HasOrigin(next, arrivals[1..], j, a, n, e)
    ensures HasOrigin(start, arrivals, |first| + j, a + 1, n, e)
  {
    assert ComesFrom(next, arrivals[1..], j, a, n, e);
    MovedBehind(start, arrivals, first, later, next);
    ComesFromLater(start, arrivals, j, a, n, e, |first|);
  }

  lemma MovedBehind(start: map<Peer, Memory>, arrivals: seq<Arrival>, first: seq<R.Event>, later: seq<R.Event>,
                    next: map<Peer, Memory>)
    requires ArePartsOf(start, arrivals, first, later) && AreNext(start, arrivals, next)
    ensures AllFit(start, arrivals) && arrivals != [] && next == Moved(start, arrivals[0])
    ensures |first| == |EventsIn(TicksAt(start[arrivals[0].peer], arrivals[0]))|
  {
    assert EventsSplit(start, arrivals, first, later) && MovedTo(start, arrivals, next);
  }

  /** In a past every message was taken by its transport, and no link changed. */
  lemma EventsAreTaken(past: Past, j: nat)
    requires IsPast(past) && j < |past.run.events|
    ensures !past.run.events[j].LinkChange? && past.run.events[j].sendOk
  {
    assert TimelineIs(past.start, past.arrivals, past.run.events);
    var a, n := EventOrigin(past.start, past.arrivals, past.run.events, j);
    assert ComesFrom(past.start, past.arrivals, j, a, n, past.run.events[j]);
  }

  // ---------- Answers ----------

  /**
   * What a peer reads from its connection, under any split: of the protocol's own messages exactly one logon
   * without content for each logon among its messages, and one logout for each logout, in order.
   */
  lemma EndpointAnswers(app: Application, transports: seq<TransportSingleThreaded>, past: Past, k: nat, peer: Peer,
                        talks: seq<Talk>, chunks: seq<seq<byte>>)
    requires InStep(app, transports, past) && k < |transports| && peer == PeerAt(|app.sources|, k)
    requires peer in past.start && past.start[peer].length == 0
    requires AllCarry(ProtocolOf(peer), ConnectionsOf(past.arrivals, peer), talks)
    requires Concat(chunks) == transports[k].endpoint.wire
    ensures Gather(ControlOf, MessagesOf(DecodeAll(ProtocolOf(peer), DispatchedBy(ProtocolOf(peer), [], chunks)))) ==
            Answers(Said(talks))
  {
    WireNow(app, transports, past, k, peer);
    SentIsRead(ProtocolOf(peer), transports[k].endpoint.start, SentTo(past, peer), chunks);
    AnswersSent(past.run, past.start, past.arrivals, peer, talks);
  }

  /**
   * And each answer stands in its place: behind everything the session sent in return for the messages
   * before it, and for any others until then, and in front of everything that came later.
   */
  lemma EndpointAnswersInPlace(app: Application, transports: seq<TransportSingleThreaded>, past: Past, k: nat,
                               peer: Peer, talks: seq<Talk>, chunks: seq<seq<byte>>, before: seq<Message>,
                               msg: Message, after: seq<Message>)
    returns (earlier: seq<Message>, later: seq<Message>, n: nat)
    requires InStep(app, transports, past) && k < |transports| && peer == PeerAt(|app.sources|, k)
    requires peer in past.start && past.start[peer].length == 0
    requires AllCarry(ProtocolOf(peer), ConnectionsOf(past.arrivals, peer), talks)
    requires Concat(chunks) == transports[k].endpoint.wire
    requires Said(talks) == before + [msg] + after && (msg.kind.Logon? || msg.kind.Logout?)
    ensures MessagesOf(DecodeAll(ProtocolOf(peer), DispatchedBy(ProtocolOf(peer), [], chunks))) ==
            earlier + [Message(msg.kind, [0, 0])] + later
    ensures n <= |past.run.events| && n < |past.run.states| && Known(past.run.states[n], peer)
    ensures CarriedInto(past.run.events[..n], peer) == Requested(Traces(peer, before))
    ensures CarriedInto(past.run.events[n..], peer) == Requested(Traces(peer, after))
    ensures Gather(SessionOf, earlier) == Output(past.run.states[n], peer)
  {
    WireNow(app, transports, past, k, peer);
    SentIsRead(ProtocolOf(peer), transports[k].endpoint.start, SentTo(past, peer), chunks);
    earlier, later, n := AnswerInPlace(past.run, past.start, past.arrivals, peer, talks, before, msg, after);
  }

  // ---------- A new order, from bytes to bytes ----------

  /** The 29 bytes of a client's new order. */
  predicate IsOrder(b: seq<byte>) {
    |b| == 29 && U32(b, 0) == 29 && b[4] == 3
  }

  function OrderIn(b: seq<byte>): M.Request
    requires IsOrder(b)
  {
    M.NewOrderSingle(U32(b, 13), U32(b, 17), U64(b, 21))
  }

  lemma FrontFields(b: seq<byte>, behind: seq<byte>, at: nat)
    requires at + 4 <= |b|
    ensures U32(b + behind, at) == U32(b, at)
    ensures at + 8 <= |b| ==> U64(b + behind, at) == U64(b, at)
  {
  }

  lemma OneCallback(p: Protocol, data: seq<byte>, behind: seq<byte>)
    requires Consumes(p, data) && SizeField(data) == |data| && LONGEST <= |behind|
    ensures Callbacks(p, data, behind) == [CallbackOn(p, data, behind)]
    ensures Deliveries(Callbacks(p, data, behind)) == [CallbackOn(p, data, behind).delivery]
  {
    var later := data[SizeField(data)..];
    assert later == [] && !Complete(p, later);
    assert Callbacks(p, later, behind) == [];
    var callbacks := Callbacks(p, data, behind);
    assert callbacks == [CallbackOn(p, data, behind)] && callbacks[1..] == [];
  }

  lemma OneTick(peer: Peer, delivery: Delivery, valid: nat -> bool)
    ensures Ticks(peer, [delivery], valid, 0) == TicksOf(peer, delivery, valid(0))
  {
    assert [delivery][1..] == [] && TicksOf(peer, delivery, valid(0)) + [] == TicksOf(peer, delivery, valid(0));
  }

  lemma OrderDelivered(b: seq<byte>, behind: seq<byte>)
    requires IsOrder(b) && LONGEST <= |behind|
    ensures Consumes(ProtocolA, b) && SizeField(b) == |b|
    ensures var delivery := CallbackOn(ProtocolA, b, behind).delivery;
            delivery.Application? && RequestOf(delivery.msg) == [OrderIn(b)]
  {
    HeadInNumbers(b);
    FourBytes(b, 0);
    ReceivedFromClient(b, behind);
    FrontFields(b, behind, 13);
    FrontFields(b, behind, 17);
    FrontFields(b, behind, 21);
  }

  /** A read that brings an order is one event, with the validator's first answer. */
  lemma OrderArrives(m: Memory, x: Arrival, s: nat)
    requires IsMemory(m) && m.length == 0 && x.Arrives? && x.peer == Client(s)
    requires IsOrder(x.input.chunk) && LONGEST <= |x.input.beyond|
    ensures ArrivalFits(m, x)
    ensures EventsIn(TicksAt(m, x)) == [R.FromSource(s, OrderIn(x.input.chunk), x.valid(0), true)]
  {
    OrderTicks(m, x, s);
    OneEvent(R.FromSource(s, OrderIn(x.input.chunk), x.valid(0), true));
  }

  lemma OneEvent(e: R.Event)
    ensures EventsIn([Happens(e)]) == [e]
  {
    assert [Happens(e)][1..] == [];
  }

  /** Where a client's next new order goes: the first connected slot after the router's pointer. */
  ghost predicate NextFor(st: R.State, s: nat, d: nat) {
    && s < |st.sources| && st.sources[s].router.RoundRobinRouter?
    && var router := st.sources[s].router;
       && (forall i :: 0 <= i < |router.slots| ==> router.slots[i] < |st.dests|)
       && exists p: nat :: IsNext(R.Links(st.dests, router.slots), router.index, p) && router.slots[p] == d
  }

  /** A valid new order is forwarded to that venue, under the second id drawn for it, and to nobody else. */
  lemma OrderForwarded(st: R.State, s: nat, req: M.Request, d: nat)
    requires R.WellFormed(st) && NextFor(st, s, d) && req.NewOrderSingle?
    ensures d < |st.dests|
    ensures var after := R.StepRequest(st, s, req, true, true).0;
            && after.uid == NextUid(NextUid(st.uid)) && |after.dests| == |st.dests|
            && after.dests[d].sent ==
               st.dests[d].sent + [M.WireNewOrderSingle(Narrow(req.a), Narrow(req.b), Narrow(after.uid))]
            && (forall e :: 0 <= e < |st.dests| && e != d ==> after.dests[e] == st.dests[e])
            && forall t :: 0 <= t < |st.sources| ==> after.sources[t].handed == st.sources[t].handed
  {
    var router := st.sources[s].router;
    var links := R.Links(st.dests, router.slots);
    var p: nat :| IsNext(links, router.index, p) && router.slots[p] == d;
    NextConnectedMeaning(links, router.index);
    assert NextConnected(links, router.index) == Some(p);
  }

  /** The state of a past now. */
  function StateOf(past: Past): R.State
    requires |past.run.states| == |past.run.events| + 1
  {
    past.run.states[|past.run.events|]
  }

  /** An order arrives: the run takes one step, and that step forwards it. */
  lemma OrderTaken(run: Run, next: Run, m: Memory, x: Arrival, s: nat, d: nat)
    requires IsMemory(m) && m.length == 0 && x.Arrives? && x.peer == Client(s)
    requires IsOrder(x.input.chunk) && LONGEST <= |x.input.beyond| && x.valid(0)
    requires ArrivalFits(m, x) && GoesOn(run, next, EventsIn(TicksAt(m, x)))
    requires NextFor(run.states[|run.events|], s, d)
    ensures var st, after, order := run.states[|run.events|], next.states[|next.events|], OrderIn(x.input.chunk);
            && next.events == run.events + [R.FromSource(s, order, true, true)]
            && after.uid == NextUid(NextUid(st.uid)) && d < |st.dests| == |after.dests|
            && after.dests[d].sent ==
               st.dests[d].sent + [M.WireNewOrderSingle(Narrow(order.a), Narrow(order.b), Narrow(after.uid))]
            && (forall e :: 0 <= e < |st.dests| && e != d ==> after.dests[e] == st.dests[e])
            && |after.sources| == |st.sources|
            && forall t :: 0 <= t < |st.sources| ==> after.sources[t].handed == st.sources[t].handed
  {
    OrderArrives(m, x, s);
    assert IsStep(next, |run.events|);
    OrderForwarded(run.states[|run.events|], s, OrderIn(x.input.chunk), d);
    R.StepKeepsWellFormed(run.states[|run.events|], next.events[|run.events|]);
  }

  /** While one event is handled, a peer is sent what its session adds to its output. */
  lemma SentForEvent(run: Run, next: Run, peer: Peer, before: seq<Tick>, e: R.Event)
    requires GoesOn(run, next, [e]) && run.events == EventsIn(before) && Known(run.states[0], peer)
    ensures next.events == EventsIn(before + [Happens(e)]) && Known(next.states[0], peer)
    ensures Known(run.states[|run.events|], peer) && Known(next.states[|next.events|], peer)
    ensures var was, now := Output(run.states[|run.events|], peer), Output(next.states[|next.events|], peer);
            && was <= now
            && SentOver(next, peer, before + [Happens(e)]) == SentOver(run, peer, before) + now[|was|..]
  {
    OneEvent(e);
    var earlier, outs := TwoRuns(run, next, peer, before, [Happens(e)]);
    OutgoingGoesOn(peer, before, [Happens(e)], earlier, outs);
    OneSend(peer, e, outs, |run.events|);
    OutputsOfBoth(run, next, [e], peer);
  }

  lemma OneSend(peer: Peer, e: R.Event, outs: seq<seq<Message>>, i: nat)
    requires Grows(outs) && i + 1 < |outs|
    ensures |EventsIn([Happens(e)])| == 1 && outs[i] <= outs[i + 1]
    ensures Outgoing(peer, [Happens(e)], outs, i) == outs[i + 1][|outs[i]|..]
  {
    OneEvent(e);
    EventSends(peer, Happens(e), outs, i);
    assert [Happens(e)][1..] == [];
  }

  /** The message that forwards an order under the id drawn for it. */
  function OrderMessage(order: seq<byte>, id: int32): Message
    requires IsOrder(order)
  {
    WireRequestMessage(M.WireNewOrderSingle(Narrow(U32(order, 13)), Narrow(U32(order, 17)), id))
  }

  /** What the order does to everything that was sent: one message for venue d, none for anybody else. */
  lemma SentForOrder(past: Past, x: Arrival, past': Past, s: nat, d: nat, peer: Peer)
    requires IsPast(past) && IsPast(past') && past'.start == past.start && past'.arrivals == past.arrivals + [x]
    requires Client(s) in MemoriesAfter(past.start, past.arrivals) && peer in past.start
    requires x.Arrives? && x.peer == Client(s) && IsOrder(x.input.chunk) && LONGEST <= |x.input.beyond| && x.valid(0)
    requires var m := MemoryNow(past, Client(s));
             && m.length == 0 && ArrivalFits(m, x) && GoesOn(past.run, past'.run, EventsIn(TicksAt(m, x)))
    requires NextFor(StateOf(past), s, d)
    ensures SentTo(past', peer) == SentTo(past, peer) +
            if peer == Venue(d) then [OrderMessage(x.input.chunk, Narrow(StateOf(past').uid))] else []
  {
    var m, order := MemoryNow(past, Client(s)), OrderIn(x.input.chunk);
    var e := R.FromSource(s, order, true, true);
    OrderArrives(m, x, s);
    OrderTicks(m, x, s);
    OrderTaken(past.run, past'.run, m, x, s, d);
    TimelineMore(past.start, past.arrivals, x);
    SentForEvent(past.run, past'.run, peer, Timeline(past.start, past.arrivals), e);
    OutputAfterOrder(StateOf(past), StateOf(past'), peer, d,
                     M.WireNewOrderSingle(Narrow(order.a), Narrow(order.b), Narrow(StateOf(past').uid)));
  }

  lemma OrderTicks(m: Memory, x: Arrival, s: nat)
    requires IsMemory(m) && m.length == 0 && x.Arrives? && x.peer == Client(s)
    requires IsOrder(x.input.chunk) && LONGEST <= |x.input.beyond|
    ensures ArrivalFits(m, x)
    ensures TicksAt(m, x) == [Happens(R.FromSource(s, OrderIn(x.input.chunk), x.valid(0), true))]
  {
    var b, behind := x.input.chunk, Behind(m, x.input);
    assert Front(m) + b == b;
    OrderDelivered(b, behind);
    OneCallback(ProtocolA, b, behind);
    var delivery := CallbackOn(ProtocolA, b, behind).delivery;
    OneTick(x.peer, delivery, x.valid);
    TicksOfCallback(x.peer, delivery, x.valid(0));
  }

  lemma OutputAfterOrder(st: R.State, after: R.State, peer: Peer, d: nat, msg: M.WireRequest)
    requires Known(st, peer) && Known(after, peer) && d < |st.dests| == |after.dests|
    requires |st.sources| == |after.sources| && after.dests[d].sent == st.dests[d].sent + [msg]
    requires forall e :: 0 <= e < |st.dests| && e != d ==> after.dests[e] == st.dests[e]
    requires forall t :: 0 <= t < |st.sources| ==> after.sources[t].handed == st.sources[t].handed
    ensures var was, now := Output(st, peer), Output(after, peer);
            was <= now && now[|was|..] == if peer == Venue(d) then [WireRequestMessage(msg)] else []
  {
    MapAllAdds(WireRequestMessage, st.dests[d].sent, [msg]);
    assert [msg][1..] == [] && MapAll(WireRequestMessage, [msg]) == [WireRequestMessage(msg)];
  }

  /** One more message on a wire. */
  lemma WireGrows(p: Protocol, start: uint64, sent: seq<Message>, msg: Message, seqNo: uint64)
    requires ValidMessages(p, sent) && ValidMessage(p, msg) && seqNo == SequenceAfter(start, |sent| + 1)
    ensures EncodeAll(p, start, sent + [msg]) == EncodeAll(p, start, sent) + Encode(p, msg, seqNo)
  {
    AppendEncoding(p, start, sent, msg);
    assert |sent + [msg]| == |sent| + 1;
  }

  /** The bytes that forward an order: 40 of them, with the same price and size, and the id drawn for it. */
  predicate Forwards(forwarded: seq<byte>, order: seq<byte>, id: int32, seqNo: uint64)
    requires IsOrder(order)
  {
    && HeaderB(forwarded, 40, 13, seqNo)
    && U32(forwarded, 24) == U32(order, 13) && U32(forwarded, 28) == U32(order, 17)
    && Signed(U32(forwarded, 32)) == id
  }

  lemma ForwardedOrderBytes(order: seq<byte>, id: int32, seqNo: uint64)
    requires IsOrder(order)
    ensures ValidMessage(ProtocolB, OrderMessage(order, id))
    ensures Forwards(Encode(ProtocolB, OrderMessage(order, id), seqNo), order, id, seqNo)
  {
    var wire := M.WireNewOrderSingle(Narrow(U32(order, 13)), Narrow(U32(order, 17)), id);
    WireRequestBytes(wire, seqNo);
    var b := Encode(ProtocolB, WireRequestMessage(wire), seqNo);
    SameField(U32(order, 13), U32(b, 24));
    SameField(U32(order, 17), U32(b, 28));
  }

  lemma SameField(u: uint32, v: uint32)
    requires Signed(v) == Narrow(u)
    ensures v == u
  {
  }

  /** The bytes written to each connection so far. */
  ghost function Wires(transports: seq<TransportSingleThreaded>): (wires: seq<seq<byte>>)
    reads AllParts(transports)
    ensures |wires| == |transports|
    ensures forall k :: 0 <= k < |wires| ==> wires[k] == WireAt(transports[k])
  {
    seq(|transports|, k requires 0 <= k < |transports| reads AllParts(transports) => WireAt(transports[k]))
  }

  ghost function WireAt(t: TransportSingleThreaded): seq<byte>
    reads Parts(t)
  {
    t.endpoint.wire
  }

  ghost function Starts(transports: seq<TransportSingleThreaded>): (starts: seq<uint64>)
    ensures |starts| == |transports|
    ensures forall k :: 0 <= k < |starts| ==> starts[k] == transports[k].endpoint.start
  {
    seq(|transports|, k requires 0 <= k < |transports| => transports[k].endpoint.start)
  }

  /** Every connection's bytes encode what was sent over it. */
  ghost predicate WiresTell(wires: seq<seq<byte>>, starts: seq<uint64>, clients: nat, sent: seq<seq<Message>>) {
    && |sent| == |wires| == |starts|
    && forall k :: 0 <= k < |wires| ==> WireTells(wires[k], ProtocolOf(PeerAt(clients, k)), starts[k], sent[k])
  }

  ghost predicate WireTells(wire: seq<byte>, p: Protocol, start: uint64, sent: seq<Message>) {
    ValidMessages(p, sent) && wire == EncodeAll(p, start, sent)
  }

  lemma WiresNow(app: Application, transports: seq<TransportSingleThreaded>, past: Past)
    requires InStep(app, transports, past)
    ensures WiresTell(Wires(transports), Starts(transports), |app.sources|, AllSent(|app.sources|, |transports|, past))
  {
    forall k | 0 <= k < |transports|
      ensures WireTells(Wires(transports)[k], ProtocolOf(PeerAt(|app.sources|, k)), Starts(transports)[k],
                        AllSent(|app.sources|, |transports|, past)[k])
    {
      WireNow(app, transports, past, k, PeerAt(|app.sources|, k));
    }
  }

  /** This message was sent over connection k, and none over any other. */
  ghost predicate OneMoreSent(sent: seq<seq<Message>>, sent': seq<seq<Message>>, k: nat, msg: Message) {
    && |sent'| == |sent|
    && forall j :: 0 <= j < |sent| ==> SentMore(sent[j], sent'[j], j == k, msg)
  }

  ghost predicate SentMore(sent: seq<Message>, sent': seq<Message>, here: bool, msg: Message) {
    sent' == sent + if here then [msg] else []
  }

  /** These bytes were written to connection k, and none to any other. */
  ghost predicate GrowsOnly(wires: seq<seq<byte>>, wires': seq<seq<byte>>, k: nat, more: seq<byte>) {
    && |wires'| == |wires|
    && forall j :: 0 <= j < |wires| ==> wires'[j] == wires[j] + if j == k then more else []
  }

  /** One message more for one venue is its bytes more on that wire, and nothing on the others. */
  lemma WiresForOne(wires: seq<seq<byte>>, wires': seq<seq<byte>>, starts: seq<uint64>, clients: nat,
                    sent: seq<seq<Message>>, sent': seq<seq<Message>>, k: nat, msg: Message)
    returns (seqNo: uint64)
    requires WiresTell(wires, starts, clients, sent) && WiresTell(wires', starts, clients, sent')
    requires clients <= k < |wires| == |wires'| && ValidMessage(ProtocolB, msg)
    requires OneMoreSent(sent, sent', k, msg)
    ensures GrowsOnly(wires, wires', k, Encode(ProtocolB, msg, seqNo))
  {
    seqNo := SequenceAfter(starts[k], |sent[k]| + 1);
    forall j | 0 <= j < |wires|
      ensures wires'[j] == wires[j] + if j == k then Encode(ProtocolB, msg, seqNo) else []
    {
      if j == k {
        WireGoesOn(wires[k], wires'[k], starts[k], sent[k], sent'[k], msg, seqNo);
      } else {
        WireStays(wires[j], wires'[j], ProtocolOf(PeerAt(clients, j)), starts[j], sent[j], sent'[j], msg);
      }
    }
  }

  lemma WireGoesOn(wire: seq<byte>, wire': seq<byte>, start: uint64, sent: seq<Message>, sent': seq<Message>,
                   msg: Message, seqNo: uint64)
    requires WireTells(wire, ProtocolB, start, sent) && WireTells(wire', ProtocolB, start, sent')
    requires SentMore(sent, sent', true, msg) && ValidMessage(ProtocolB, msg)
    requires seqNo == SequenceAfter(start, |sent| + 1)
    ensures wire' == wire + Encode(ProtocolB, msg, seqNo)
  {
    WireGrows(ProtocolB, start, sent, msg, seqNo);
  }

  lemma WireStays(wire: seq<byte>, wire': seq<byte>, p: Protocol, start: uint64, sent: seq<Message>,
                  sent': seq<Message>, msg: Message)
    requires WireTells(wire, p, start, sent) && WireTells(wire', p, start, sent') && SentMore(sent, sent', false, msg)
    ensures wire' == wire + []
  {
    assert sent + [] == sent;
  }

  /** A valid order of client s arrives as a whole, over an empty buffer, and the run goes on with it. */
  ghost predicate OrderStep(clients: nat, peers: nat, past: Past, x: Arrival, past': Past, s: nat, d: nat) {
    && Covers(clients, peers, past) && Covers(clients, peers, past') && s < clients <= peers
    && past'.start == past.start && past'.arrivals == past.arrivals + [x]
    && x.Arrives? && x.peer == Client(s) && IsOrder(x.input.chunk) && LONGEST <= |x.input.beyond| && x.valid(0)
    && var m := Memories(clients, peers, past)[s];
       && m.length == 0 && ArrivalFits(m, x) && GoesOn(past.run, past'.run, EventsIn(TicksAt(m, x)))
       && NextFor(StateOf(past), s, d)
  }

  /** What the order does to all that was sent, connection by connection. */
  lemma AllSentForOrder(clients: nat, peers: nat, past: Past, x: Arrival, past': Past, s: nat, d: nat)
    requires OrderStep(clients, peers, past, x, past', s, d)
    ensures OneMoreSent(AllSent(clients, peers, past), AllSent(clients, peers, past'), clients + d,
                        OrderMessage(x.input.chunk, Narrow(StateOf(past').uid)))
  {
    assert PeerAt(clients, s) == Client(s) && Client(s) in past.start;
    forall k | 0 <= k < peers
      ensures SentMore(AllSent(clients, peers, past)[k], AllSent(clients, peers, past')[k], k == clients + d,
                       OrderMessage(x.input.chunk, Narrow(StateOf(past').uid)))
    {
      assert PeerAt(clients, k) == Venue(d) <==> k == clients + d;
      SentForOrder(past, x, past', s, d, PeerAt(clients, k));
    }
  }

  /** What an order does to the run. */
  lemma OrderInRun(clients: nat, peers: nat, past: Past, x: Arrival, past': Past, s: nat, d: nat)
    requires OrderStep(clients, peers, past, x, past', s, d)
    ensures StateOf(past').uid == NextUid(NextUid(StateOf(past).uid))
    ensures past'.run.events == past.run.events + [R.FromSource(s, OrderIn(x.input.chunk), true, true)]
  {
    OrderTaken(past.run, past'.run, Memories(clients, peers, past)[s], x, s, d);
  }

  /** And to the bytes on every connection. */
  lemma OrderOnWires(clients: nat, peers: nat, past: Past, x: Arrival, past': Past, s: nat, d: nat,
                     wires: seq<seq<byte>>, wires': seq<seq<byte>>, starts: seq<uint64>)
    returns (forwarded: seq<byte>, seqNo: uint64)
    requires OrderStep(clients, peers, past, x, past', s, d) && clients + d < peers == |wires| == |wires'|
    requires WiresTell(wires, starts, clients, AllSent(clients, peers, past))
    requires WiresTell(wires', starts, clients, AllSent(clients, peers, past'))
    ensures Forwards(forwarded, x.input.chunk, Narrow(StateOf(past').uid), seqNo)
    ensures GrowsOnly(wires, wires', clients + d, forwarded)
  {
    var order, id := x.input.chunk, Narrow(StateOf(past').uid);
    AllSentForOrder(clients, peers, past, x, past', s, d);
    ForwardedOrderBytes(order, id, 0);
    seqNo := WiresForOne(wires, wires', starts, clients, AllSent(clients, peers, past), AllSent(clients, peers, past'),
                         clients + d, OrderMessage(order, id));
    ForwardedOrderBytes(order, id, seqNo);
    forwarded := Encode(ProtocolB, OrderMessage(order, id), seqNo);
  }

  lemma VenueConnection(app: Application, transports: seq<TransportSingleThreaded>, past: Past, s: nat, d: nat)
    requires InStep(app, transports, past) && NextFor(StateOf(past), s, d)
    ensures |app.sources| + d < |transports|
  {
    Sizes(app, StateOf(past));
  }

  lemma OrderFitsEmpty(peer: Peer, m: Memory, order: seq<byte>, beyond: seq<byte>, valid: nat -> bool)
    requires IsMemory(m) && m.length == 0 && IsOrder(order)
    ensures ArrivalOf(peer, m, order, beyond, valid) == Arrives(peer, Read(order, beyond), valid)
  {
    assert order[..29] == order;
  }

  /** The read event of an order. */
  method ReadOrder(app: Application, transports: seq<TransportSingleThreaded>, s: nat, ghost d: nat, order: seq<byte>,
                   beyond: seq<byte>, valid: nat -> bool, ghost past: Past)
    returns (ghost past': Past)
    requires InStep(app, transports, past) && s < |app.sources| && LONGEST <= |beyond| && IsOrder(order) && valid(0)
    requires Memories(|app.sources|, |transports|, past)[s].length == 0 && NextFor(StateOf(past), s, d)
    modifies AppObjects(app), AllParts(transports)
    ensures InStep(app, transports, past')
    ensures OrderStep(|app.sources|, |transports|, past, Arrives(Client(s), Read(order, beyond), valid), past', s, d)
    ensures WiresTell(Wires(transports), Starts(transports), |app.sources|,
                      AllSent(|app.sources|, |transports|, past'))
  {
    NextArrival(app, transports, s, order, beyond, valid, past);
    OrderFitsEmpty(Client(s), Memories(|app.sources|, |transports|, past)[s], order, beyond, valid);
    var n;
    n, past' := OnRead(app, transports, s, order, beyond, valid, past);
    WiresNow(app, transports, past');
  }

  /**
   * A valid new order, from bytes to bytes: 29 of them arrive on a client's connection, and 40 go out on the
   * connection of the venue behind the next connected slot. No other connection sends a byte.
   */
  method OrderGoesOut(app: Application, transports: seq<TransportSingleThreaded>, s: nat, ghost d: nat,
                      order: seq<byte>, beyond: seq<byte>, valid: nat -> bool, ghost past: Past)
    returns (ghost past': Past, ghost forwarded: seq<byte>, ghost seqNo: uint64)
    requires InStep(app, transports, past) && s < |app.sources| && LONGEST <= |beyond|
    requires IsOrder(order) && valid(0)
    requires Memories(|app.sources|, |transports|, past)[s].length == 0 && NextFor(StateOf(past), s, d)
    modifies AppObjects(app), AllParts(transports)
    ensures InStep(app, transports, past') && StateOf(past').uid == NextUid(NextUid(StateOf(past).uid))
    ensures past'.start == past.start
    ensures past'.arrivals == past.arrivals + [Arrives(Client(s), Read(order, beyond), valid)]
    ensures past'.run.events ==
            past.run.events + [R.FromSource(s, M.NewOrderSingle(U32(order, 13), U32(order, 17), U64(order, 21)), true,
                                            true)]
    ensures |app.sources| + d < |transports|
    ensures Forwards(forwarded, order, Narrow(StateOf(past').uid), seqNo)
    ensures GrowsOnly(old(Wires(transports)), Wires(transports), |app.sources| + d, forwarded)
  {
    ghost var wires := Wires(transports);
    WiresNow(app, transports, past);
    VenueConnection(app, transports, past, s, d);
    past' := ReadOrder(app, transports, s, d, order, beyond, valid, past);
    ghost var x := Arrives(Client(s), Read(order, beyond), valid);
    OrderInRun(|app.sources|, |transports|, past, x, past', s, d);
    forwarded, seqNo := OrderOnWires(|app.sources|, |transports|, past, x, past', s, d, wires, Wires(transports),
                                     Starts(transports));
  }

  // ---------- The first order of a new system ----------

  lemma NextOfNew(st: R.State, s: nat)
    requires Initial(st) && AllConnected(st) && s < |st.sources| && |st.dests| == 1
    ensures NextFor(st, s, 0)
  {
    var router := st.sources[s].router;
    assert RoutesOverAll(st.sources[s], 1) && InitialSource(st.sources[s], 1);
    assert IsNext(R.Links(st.dests, router.slots), router.index, 0) && router.slots[0] == 0;
  }

  lemma EmptyAtFirst(clients: nat, peers: nat, past: Past, k: nat)
    requires Covers(clients, peers, past) && past.arrivals == [] && k < peers
    requires forall peer :: peer in past.start ==> past.start[peer].length == 0
    ensures Memories(clients, peers, past)[k].length == 0
  {
    assert PeerAt(clients, k) in past.start;
  }

  lemma SilentAtFirst(app: Application, transports: seq<TransportSingleThreaded>, past: Past)
    requires InStep(app, transports, past) && past.arrivals == []
    ensures forall k :: 0 <= k < |transports| ==> Wires(transports)[k] == []
  {
    WiresNow(app, transports, past);
    forall k | 0 <= k < |transports|
      ensures Wires(transports)[k] == []
    {
      var peer := PeerAt(|app.sources|, k);
      assert WireTells(Wires(transports)[k], ProtocolOf(peer), Starts(transports)[k], SentTo(past, peer));
      assert SentTo(past, peer) == [];
    }
  }

  /** Two clients and a venue, new and connected: client s can send its first order. */
  method NewGateway(ghost s: nat)
    returns (app: Application, transports: seq<TransportSingleThreaded>, ghost past: Past)
    requires s < 2
    ensures fresh(AppObjects(app)) && fresh(AllParts(transports))
    ensures |app.sources| == 2 && |app.dests| == 1 && |transports| == 3 && InStep(app, transports, past)
    ensures StateOf(past).uid == 0 && NextFor(StateOf(past), s, 0) && Memories(2, 3, past)[s].length == 0
    ensures Wires(transports)[0] == [] && Wires(transports)[1] == [] && Wires(transports)[2] == []
  {
    app, transports, past := Assemble();
    Sizes(app, StateOf(past));
    NextOfNew(StateOf(past), s);
    EmptyAtFirst(2, 3, past, s);
    SilentAtFirst(app, transports, past);
  }

  /** The wires of a new system after its first order. */
  lemma FirstWires(wires: seq<seq<byte>>, wires': seq<seq<byte>>, order: seq<byte>, forwarded: seq<byte>, uid: uint64,
                   uid': uint64, seqNo: uint64)
    requires IsOrder(order) && |wires| == 3 && wires[0] == [] && wires[1] == [] && wires[2] == []
    requires GrowsOnly(wires, wires', 2, forwarded) && Forwards(forwarded, order, Narrow(uid'), seqNo)
    requires uid == 0 && uid' == NextUid(NextUid(uid))
    ensures |wires'| == 3 && wires'[0] == [] && wires'[1] == [] && Forwards(wires'[2], order, 2, seqNo)
  {
    assert wires'[2] == [] + forwarded == forwarded;
    assert wires'[0] == [] + [] && wires'[1] == [] + [];
  }

  method SendFirstOrder(app: Application, transports: seq<TransportSingleThreaded>, s: nat, order: seq<byte>,
                        beyond: seq<byte>, valid: nat -> bool, ghost first: Past)
    returns (ghost past: Past, ghost seqNo: uint64)
    requires s < 2 && IsOrder(order) && valid(0) && LONGEST <= |beyond|
    requires |app.sources| == 2 && |app.dests| == 1 && |transports| == 3 && InStep(app, transports, first)
    requires StateOf(first).uid == 0 && NextFor(StateOf(first), s, 0) && Memories(2, 3, first)[s].length == 0
    requires Wires(transports)[0] == [] && Wires(transports)[1] == [] && Wires(transports)[2] == []
    modifies AppObjects(app), AllParts(transports)
    ensures InStep(app, transports, past)
    ensures Wires(transports)[0] == [] && Wires(transports)[1] == []
    ensures Forwards(Wires(transports)[2], order, 2, seqNo)
  {
    ghost var wires, forwarded := Wires(transports), [];
    past, forwarded, seqNo := OrderGoesOut(app, transports, s, 0, order, beyond, valid, first);
    FirstWires(wires, Wires(transports), order, forwarded, StateOf(first).uid, StateOf(past).uid, seqNo);
  }

  /**
   * Two clients and a venue, new: the 29 bytes of either client's first order, and then 40 bytes to the
   * venue, with the client's price and size and with id 2, the second one drawn. The clients get nothing.
   */
  method FirstOrder(s: nat, order: seq<byte>, beyond: seq<byte>, valid: nat -> bool)
    returns (app: Application, transports: seq<TransportSingleThreaded>, ghost past: Past, ghost seqNo: uint64)
    requires s < 2 && IsOrder(order) && valid(0) && LONGEST <= |beyond|
    ensures |app.sources| == 2 && |app.dests| == 1 && InStep(app, transports, past)
    ensures |transports| == 3 && Wires(transports)[0] == [] && Wires(transports)[1] == []
    ensures Forwards(Wires(transports)[2], order, 2, seqNo)
  {
    ghost var first;
    app, transports, first := NewGateway(s);
    past, seqNo := SendFirstOrder(app, transports, s, order, beyond, valid, first);
  }
}
