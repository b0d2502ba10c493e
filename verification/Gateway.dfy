/** The whole gateway: sessions and routers together with the transports of all their peers. */
module Gateway {
  import opened Types
  import opened Framing
  import opened Codec
  import opened Dispatch
  import opened Transport
  import opened History
  import opened Sessions
  import opened Inbound
  import opened Outbound
  import opened WireIds
  import R = Routing

  // ---------- What stands behind the objects ----------

  /** What has arrived on all connections so far, and the run it led to. */
  datatype Past = Past(start: map<Peer, Memory>, arrivals: seq<Arrival>, run: Run)

  ghost predicate IsPast(past: Past) {
    && IsRun(past.run) && AllFit(past.start, past.arrivals)
    && past.run.events == EventsIn(Timeline(past.start, past.arrivals))
    && forall peer :: peer in past.start ==> Known(past.run.states[0], peer)
  }

  /** A peer's memory now. */
  function MemoryNow(past: Past, peer: Peer): Memory
    requires AllFit(past.start, past.arrivals) && peer in MemoriesAfter(past.start, past.arrivals)
  {
    MemoriesAfter(past.start, past.arrivals)[peer]
  }

  /** Everything sent to a peer until now. */
  ghost function SentTo(past: Past, peer: Peer): seq<Message>
    requires IsPast(past) && peer in past.start
  {
    SentOver(past.run, peer, Timeline(past.start, past.arrivals))
  }

  /** Nothing has arrived yet. */
  lemma PastStarts(st: R.State, start: map<Peer, Memory>)
    requires Initial(st) && forall peer :: peer in start ==> IsMemory(start[peer]) && Known(st, peer)
    ensures var past := Past(start, [], Run([st], [], []));
            && IsPast(past) && MemoriesAfter(past.start, past.arrivals) == start
            && forall peer :: peer in start ==> SentTo(past, peer) == []
  {
  }

  lemma {:induction false} SamePeers(memories: map<Peer, Memory>, arrivals: seq<Arrival>)
    requires AllFit(memories, arrivals)
    ensures MemoriesAfter(memories, arrivals).Keys == memories.Keys
    decreases |arrivals|
  {
    if arrivals != [] {
      SamePeers(Moved(memories, arrivals[0]), arrivals[1..]);
      assert Moved(memories, arrivals[0]).Keys == memories.Keys;
    }
  }

  /** The run goes on with these events. */
  ghost predicate GoesOn(run: Run, next: Run, events: seq<R.Event>) {
    IsRun(run) && IsRun(next) && run.states <= next.states && next.events == run.events + events
  }

  lemma KnownThroughout(r: Run, peer: Peer)
    requires IsRun(r) && Known(r.states[0], peer)
    ensures forall n :: 0 <= n < |r.states| ==> Known(r.states[n], peer)
    ensures var outs := Outputs(r.states, peer); Grows(outs) && AllValid(ProtocolOf(peer), outs)
  {
    OutputsGrow(r, peer);
    OutputsValid(r, peer);
  }

  /** The outputs of a run and of the longer one that goes on from it. */
  lemma TwoRuns(run: Run, next: Run, peer: Peer, before: seq<Tick>, ticks: seq<Tick>)
    returns (earlier: seq<seq<Message>>, outs: seq<seq<Message>>)
    requires GoesOn(run, next, EventsIn(ticks)) && run.events == EventsIn(before) && Known(run.states[0], peer)
    ensures next.events == EventsIn(before + ticks) && next.states[0] == run.states[0]
    ensures |EventsIn(before + ticks)| == |EventsIn(before)| + |EventsIn(ticks)|
    ensures Grows(earlier) && Grows(outs) && earlier <= outs
    ensures |earlier| == |EventsIn(before)| + 1 && |outs| == |EventsIn(before + ticks)| + 1
    ensures SentOver(run, peer, before) == Outgoing(peer, before, earlier, 0)
    ensures SentOver(next, peer, before + ticks) == Outgoing(peer, before + ticks, outs, 0)
    ensures forall n :: 0 <= n < |next.states| ==> Known(next.states[n], peer)
    ensures outs == Outputs(next.states, peer)
  {
    KnownThroughout(run, peer);
    KnownThroughout(next, peer);
    EventsInAdds(before, ticks);
    earlier, outs := Outputs(run.states, peer), Outputs(next.states, peer);
  }

  /** What goes out: what went out before, and what the new events let out. */
  lemma OutgoingGoesOn(peer: Peer, before: seq<Tick>, ticks: seq<Tick>, earlier: seq<seq<Message>>,
                       outs: seq<seq<Message>>)
    requires Grows(earlier) && Grows(outs) && earlier <= outs && |earlier| == |EventsIn(before)| + 1
    requires |EventsIn(before + ticks)| == |EventsIn(before)| + |EventsIn(ticks)| == |outs| - 1
    ensures Outgoing(peer, before + ticks, outs, 0) ==
            Outgoing(peer, before, earlier, 0) + Outgoing(peer, ticks, outs, |EventsIn(before)|)
  {
    OutgoingStays(peer, before, earlier, outs, 0);
    OutgoingAdds(peer, before, ticks, outs, 0, |EventsIn(before)|);
  }

  lemma OthersGoOn(peer: Peer, before: seq<Tick>, ticks: seq<Tick>, peers: set<Peer>, earlier: seq<seq<Message>>,
                   outs: seq<seq<Message>>)
    requires Grows(earlier) && Grows(outs) && earlier <= outs && |earlier| == |EventsIn(before)| + 1
    requires |EventsIn(before + ticks)| == |EventsIn(before)| + |EventsIn(ticks)| == |outs| - 1
    requires OwnedBy(ticks, peers) && peer !in peers
    ensures var was, now := outs[|EventsIn(before)|], outs[|outs| - 1];
            && was <= now
            && Outgoing(peer, before + ticks, outs, 0) == Outgoing(peer, before, earlier, 0) + now[|was|..]
  {
    OutgoingGoesOn(peer, before, ticks, earlier, outs);
    OutgoingOfOthers(peer, ticks, peers, outs, |EventsIn(before)|, |outs| - 1);
  }

  /** What has been sent since to the peer itself: answers, and what its session sent in return. */
  lemma SentToOwn(run: Run, next: Run, peer: Peer, before: seq<Tick>, ticks: seq<Tick>, tail: seq<seq<Message>>)
    requires GoesOn(run, next, EventsIn(ticks)) && run.events == EventsIn(before) && Known(run.states[0], peer)
    requires forall n :: 0 <= n < |next.states| ==> Known(next.states[n], peer)
    requires IsTail(Outputs(next.states, peer), |run.events|, tail) && Grows(tail)
    ensures next.events == EventsIn(before + ticks) && Known(next.states[0], peer) && |EventsIn(ticks)| < |tail|
    ensures SentOver(next, peer, before + ticks) ==
            SentOver(run, peer, before) + Outgoing(peer, ticks, tail, 0)
  {
    var earlier, outs := TwoRuns(run, next, peer, before, ticks);
    OutgoingGoesOn(peer, before, ticks, earlier, outs);
    OutgoingLater(peer, ticks, outs, |run.events|, tail, 0, |run.events|);
  }

  lemma SentOfOthers(run: Run, next: Run, peer: Peer, before: seq<Tick>, ticks: seq<Tick>, peers: set<Peer>)
    returns (outs: seq<seq<Message>>)
    requires GoesOn(run, next, EventsIn(ticks)) && run.events == EventsIn(before) && Known(run.states[0], peer)
    requires OwnedBy(ticks, peers) && peer !in peers
    ensures next.events == EventsIn(before + ticks) && Known(next.states[0], peer)
    ensures forall n :: 0 <= n < |next.states| ==> Known(next.states[n], peer)
    ensures outs == Outputs(next.states, peer) && |run.events| <= |next.events| == |outs| - 1
    ensures var was, now := outs[|run.events|], outs[|next.events|];
            && was <= now && SentOver(next, peer, before + ticks) == SentOver(run, peer, before) + now[|was|..]
  {
    var earlier;
    earlier, outs := TwoRuns(run, next, peer, before, ticks);
    OthersGoOn(peer, before, ticks, peers, earlier, outs);
  }

  /** What has been sent since to another peer: what the new events let its session send. */
  lemma SentToOther(run: Run, next: Run, peer: Peer, before: seq<Tick>, ticks: seq<Tick>, peers: set<Peer>)
    requires GoesOn(run, next, EventsIn(ticks)) && run.events == EventsIn(before) && Known(run.states[0], peer)
    requires OwnedBy(ticks, peers) && peer !in peers
    ensures next.events == EventsIn(before + ticks) && Known(next.states[0], peer)
    ensures Known(run.states[|run.events|], peer) && Known(next.states[|next.events|], peer)
    ensures var was, now := Output(run.states[|run.events|], peer), Output(next.states[|next.events|], peer);
            && was <= now && SentOver(next, peer, before + ticks) == SentOver(run, peer, before) + now[|was|..]
  {
    var outs := SentOfOthers(run, next, peer, before, ticks, peers);
    OutputsOfBoth(run, next, EventsIn(ticks), peer);
  }

  lemma OutputsOfBoth(run: Run, next: Run, events: seq<R.Event>, peer: Peer)
    requires GoesOn(run, next, events) && forall n :: 0 <= n < |next.states| ==> Known(next.states[n], peer)
    ensures Known(run.states[|run.events|], peer)
    ensures |next.events| == |run.events| + |events| && |Outputs(next.states, peer)| == |next.events| + 1
    ensures Outputs(next.states, peer)[|run.events|] == Output(run.states[|run.events|], peer)
    ensures Outputs(next.states, peer)[|next.events|] == Output(next.states[|next.events|], peer)
  {
  }

  /** Something more arrives, and the run goes on with what it leads to. */
  lemma PastGoesOn(past: Past, x: Arrival, next: Run) returns (past': Past)
    requires IsPast(past) && x.peer in past.start
    requires x.peer in MemoriesAfter(past.start, past.arrivals) && ArrivalFits(MemoryNow(past, x.peer), x)
    requires GoesOn(past.run, next, EventsIn(TicksAt(MemoryNow(past, x.peer), x)))
    ensures past' == Past(past.start, past.arrivals + [x], next) && IsPast(past')
    ensures MemoriesAfter(past'.start, past'.arrivals) == Moved(MemoriesAfter(past.start, past.arrivals), x)
    ensures Timeline(past'.start, past'.arrivals) ==
            Timeline(past.start, past.arrivals) + TicksAt(MemoryNow(past, x.peer), x)
  {
    past' := Past(past.start, past.arrivals + [x], next);
    TimelineMore(past.start, past.arrivals, x);
    EventsInAdds(Timeline(past.start, past.arrivals), TicksAt(MemoryNow(past, x.peer), x));
    assert next.states[0] == past.run.states[0];
  }

  // ---------- One transport ----------

  /** The objects of one connection. */
  function Parts(t: TransportSingleThreaded): set<object> {
    {t, t.receiveBuffer, t.endpoint, t.endpoint.store}
  }

  ghost predicate Holds(t: TransportSingleThreaded, p: Protocol, m: Memory, sent: seq<Message>)
    reads Parts(t)
  {
    t.Valid() && t.endpoint.protocol == p && t.Content() == m && t.endpoint.sent == sent
  }

  /**
   * A transport in a valid state, with this memory, that has sent these messages. Said of any messages
   * equal to these, so that only proofs that name such messages look inside.
   */
  ghost predicate Keeps(t: TransportSingleThreaded, p: Protocol, m: Memory, sent: seq<Message>)
    reads Parts(t)
  {
    forall msgs :: msgs == sent ==> Holds(t, p, m, msgs)
  }

  lemma KeptMemory(t: TransportSingleThreaded, p: Protocol, m: Memory, sent: seq<Message>)
    requires Keeps(t, p, m, sent)
    ensures IsMemory(m)
  {
    assert Holds(t, p, m, sent);
  }

  /** Messages that reads on other connections let this one's session send. */
  method SendOn(t: TransportSingleThreaded, output: seq<Message>, ghost p: Protocol, ghost m: Memory,
                ghost sent: seq<Message>)
    requires Keeps(t, p, m, sent) && ValidMessages(p, output)
    modifies Parts(t)
    ensures Keeps(t, p, m, sent + output)
  {
    assert Holds(t, p, m, sent);
    t.endpoint.SendOutput(output);
    assert t.Content() == m;
    assert Holds(t, p, m, sent + output);
  }

  /** What a read event makes of a connection; without bytes it is the connection's end. */
  ghost predicate HasRead(p: Protocol, m: Memory, sent: seq<Message>, pending: seq<byte>, beyond: seq<byte>,
                          outputs: nat -> seq<Message>, n: nat, m': Memory, sent': seq<Message>)
    requires LONGEST <= |beyond|
  {
    && IsMemory(m) && n == Fitted(m, pending)
    && (n > 0 ==>
          var input := Read(pending[..n], beyond);
          m' == AfterRead(p, m, input) && sent' == sent + Reactions(CallbacksOf(p, m, input), outputs, 0))
    && (n == 0 ==> m' == Dropped(m) && sent' == sent)
  }

  method ReadOn(t: TransportSingleThreaded, pending: seq<byte>, beyond: seq<byte>, outputs: nat -> seq<Message>,
                ghost p: Protocol, ghost m: Memory, ghost sent: seq<Message>)
    returns (n: nat, ghost m': Memory, ghost sent': seq<Message>)
    requires Keeps(t, p, m, sent)
    requires LONGEST <= |beyond| && ValidOutputs(p, outputs)
    modifies Parts(t)
    ensures Keeps(t, p, m', sent')
    ensures HasRead(p, m, sent, pending, beyond, outputs, n, m', sent')
  {
    KeptMemory(t, p, m, sent);
    assert Holds(t, p, m, sent);
    n := t.ProcessReceivedData(pending, beyond, outputs);
    m', sent' := t.Content(), t.endpoint.sent;
    assert Holds(t, p, m', sent');
  }

  /** How many of the pending bytes a read takes. */
  function Fitted(m: Memory, pending: seq<byte>): (n: nat)
    requires IsMemory(m)
    ensures n <= |pending| && m.length + n <= CAPACITY
  {
    if |pending| < CAPACITY - m.length then |pending| else CAPACITY - m.length
  }

  // ---------- Outputs of a run ----------

  lemma TailMore(outs: seq<seq<Message>>, from: nat, tail: seq<seq<Message>>, more: seq<Message>)
    requires IsTail(outs, from, tail)
    ensures IsTail(outs + [more], from, tail + [more])
  {
    forall j: nat
      ensures SameAt(outs + [more], from, tail + [more], j)
    {
      assert SameAt(outs, from, tail, j);
    }
  }

  lemma TailGrows(outs: seq<seq<Message>>, from: nat, tail: seq<seq<Message>>)
    requires IsTail(outs, from, tail) && Grows(outs)
    ensures Grows(tail)
  {
    forall n: nat
      ensures GrowsAt(tail, n)
    {
      assert SameAt(outs, from, tail, n) && SameAt(outs, from, tail, n + 1) && GrowsAt(outs, from + n);
    }
  }

  lemma OutputsMore(run: Run, next: Run, peer: Peer, from: nat, tail: seq<seq<Message>>)
    requires IsRun(run) && IsRun(next) && Known(run.states[0], peer)
    requires run.states <= next.states && |next.states| == |run.states| + 1
    requires forall n :: 0 <= n < |run.states| ==> Known(run.states[n], peer)
    requires IsTail(Outputs(run.states, peer), from, tail)
    ensures forall n :: 0 <= n < |next.states| ==> Known(next.states[n], peer)
    ensures IsTail(Outputs(next.states, peer), from, tail + [Output(next.states[|run.states|], peer)])
  {
    KnownThroughout(next, peer);
    TailMore(Outputs(run.states, peer), from, tail, Output(next.states[|run.states|], peer));
    assert Outputs(next.states, peer) == Outputs(run.states, peer) + [Output(next.states[|run.states|], peer)];
  }

  // ---------- All transports ----------

  ghost function AllParts(transports: seq<TransportSingleThreaded>): set<object> {
    set k, o | 0 <= k < |transports| && o in Parts(transports[k]) :: o
  }

  /** No two connections share an object. */
  ghost predicate Separate(transports: seq<TransportSingleThreaded>) {
    forall j, k :: 0 <= j < k < |transports| ==> Parts(transports[j]) !! Parts(transports[k])
  }

  /** The connections of the clients come first, then those of the venues. */
  function PeerAt(clients: nat, k: nat): Peer {
    if k < clients then Client(k) else Venue(k - clients)
  }

  function IndexOf(clients: nat, peer: Peer): nat {
    if peer.Client? then peer.source else clients + peer.dest
  }

  ghost predicate AllKeep(clients: nat, transports: seq<TransportSingleThreaded>, memories: seq<Memory>,
                          sent: seq<seq<Message>>)
    reads AllParts(transports)
  {
    |memories| == |sent| == |transports|
    && forall msgs :: msgs == sent ==> EachKeeps(clients, transports, memories, msgs)
  }

  ghost predicate EachKeeps(clients: nat, transports: seq<TransportSingleThreaded>, memories: seq<Memory>,
                            sent: seq<seq<Message>>)
    requires |memories| == |sent| == |transports|
    reads AllParts(transports)
  {
    forall k :: 0 <= k < |transports| ==>
      Keeps(transports[k], ProtocolOf(PeerAt(clients, k)), memories[k], sent[k])
  }

  lemma AllMemories(clients: nat, transports: seq<TransportSingleThreaded>, memories: seq<Memory>,
                    sent: seq<seq<Message>>)
    requires AllKeep(clients, transports, memories, sent)
    ensures forall k :: 0 <= k < |memories| ==> IsMemory(memories[k])
  {
    assert EachKeeps(clients, transports, memories, sent);
    forall k | 0 <= k < |memories|
      ensures IsMemory(memories[k])
    {
      KeptMemory(transports[k], ProtocolOf(PeerAt(clients, k)), memories[k], sent[k]);
    }
  }

  /** A connection takes what it has to send. */
  method SendAt(ghost clients: nat, transports: seq<TransportSingleThreaded>, k: nat, output: seq<Message>,
                ghost memories: seq<Memory>, ghost sent: seq<seq<Message>>)
    requires Separate(transports) && AllKeep(clients, transports, memories, sent) && k < |transports|
    requires ValidMessages(ProtocolOf(PeerAt(clients, k)), output)
    modifies Parts(transports[k])
    ensures AllKeep(clients, transports, memories, sent[k := sent[k] + output])
  {
    assert EachKeeps(clients, transports, memories, sent);
    SendOn(transports[k], output, ProtocolOf(PeerAt(clients, k)), memories[k], sent[k]);
    forall j | 0 <= j < |transports| && j != k
      ensures Keeps(transports[j], ProtocolOf(PeerAt(clients, j)), memories[j], sent[j])
    {
      assert Parts(transports[j]) !! Parts(transports[k]);
    }
  }

  /** A read event on one connection; the others see nothing of it. */
  method ReadAt(ghost clients: nat, transports: seq<TransportSingleThreaded>, k: nat, pending: seq<byte>,
                beyond: seq<byte>, outputs: nat -> seq<Message>, ghost memories: seq<Memory>,
                ghost sent: seq<seq<Message>>)
    returns (n: nat, ghost m': Memory, ghost sent': seq<Message>)
    requires Separate(transports) && AllKeep(clients, transports, memories, sent) && k < |transports|
    requires LONGEST <= |beyond| && ValidOutputs(ProtocolOf(PeerAt(clients, k)), outputs)
    modifies Parts(transports[k])
    ensures AllKeep(clients, transports, memories[k := m'], sent[k := sent'])
    ensures HasRead(ProtocolOf(PeerAt(clients, k)), memories[k], sent[k], pending, beyond, outputs, n, m', sent')
  {
    assert EachKeeps(clients, transports, memories, sent);
    n, m', sent' := ReadOn(transports[k], pending, beyond, outputs, ProtocolOf(PeerAt(clients, k)), memories[k],
                           sent[k]);
    forall j | 0 <= j < |transports| && j != k
      ensures Keeps(transports[j], ProtocolOf(PeerAt(clients, j)), memories[j], sent[j])
    {
      assert Parts(transports[j]) !! Parts(transports[k]);
    }
  }

  /** The first i peers have been sent something more. */
  function SentUpTo(sent: seq<seq<Message>>, added: seq<seq<Message>>, i: nat): (now: seq<seq<Message>>)
    requires |sent| == |added|
    ensures |now| == |sent|
  {
    seq(|sent|, k requires 0 <= k < |sent| => if k < i then sent[k] + added[k] else sent[k])
  }

  lemma SentOneMore(sent: seq<seq<Message>>, added: seq<seq<Message>>, i: nat)
    requires |sent| == |added|
    ensures SentUpTo(sent, added, 0) == sent
    ensures i < |sent| ==>
              SentUpTo(sent, added, i + 1) == SentUpTo(sent, added, i)[i := SentUpTo(sent, added, i)[i] + added[i]]
  {
  }

  /** Every peer is sent what its session has added to its output. */
  method SendToAll(ghost clients: nat, transports: seq<TransportSingleThreaded>, added: seq<seq<Message>>,
                   ghost memories: seq<Memory>, ghost sent: seq<seq<Message>>)
    requires Separate(transports) && AllKeep(clients, transports, memories, sent) && |added| == |transports|
    requires forall k :: 0 <= k < |transports| ==> ValidMessages(ProtocolOf(PeerAt(clients, k)), added[k])
    modifies AllParts(transports)
    ensures AllKeep(clients, transports, memories, SentUpTo(sent, added, |transports|))
  {
    SentOneMore(sent, added, 0);
    for i := 0 to |transports|
      invariant AllKeep(clients, transports, memories, SentUpTo(sent, added, i))
    {
      SendAt(clients, transports, i, added[i], memories, SentUpTo(sent, added, i));
      SentOneMore(sent, added, i);
    }
  }

  // ---------- The application ----------

  ghost function AppObjects(app: Application): set<object> {
    {app.generator, app.sourceRouter} + (set d | 0 <= d < |app.dests| :: app.dests[d] as object)
    + SourceObjects(app.sources)
  }

  ghost predicate ValidIn(app: Application, st: R.State)
    reads AppObjects(app)
  {
    app.Valid() && app.Abs() == st
  }

  /** The sessions are valid and in this state, said in the same way. */
  ghost predicate IsIn(app: Application, st: R.State)
    reads AppObjects(app)
  {
    forall s :: s == st ==> ValidIn(app, s)
  }

  lemma Sizes(app: Application, st: R.State)
    requires IsIn(app, st)
    ensures |st.sources| == |app.sources| && |st.dests| == |app.dests|
  {
    assert ValidIn(app, st);
  }

  /** Everything a session has handed to its transport so far. */
  function OutputNow(app: Application, peer: Peer): seq<Message>
    requires if peer.Client? then peer.source < |app.sources| else peer.dest < |app.dests|
    reads AppObjects(app)
  {
    match peer
    case Client(s) => MapAll(ClientMessageMessage, app.sources[s].handed)
    case Venue(d) => MapAll(WireRequestMessage, app.dests[d].sent)
  }

  lemma OutputIsNow(app: Application, peer: Peer, st: R.State)
    requires IsIn(app, st)
    requires if peer.Client? then peer.source < |app.sources| else peer.dest < |app.dests|
    ensures IsOutput(st, peer, OutputNow(app, peer))
  {
    assert ValidIn(app, st);
  }

  predicate IsOutput(st: R.State, peer: Peer, output: seq<Message>) {
    Known(st, peer) && output == Output(st, peer)
  }

  /** The output of every session, in the order of the connections. */
  ghost predicate AreOutputs(st: R.State, clients: nat, outputs: seq<seq<Message>>) {
    forall k :: 0 <= k < |outputs| ==> IsOutput(st, PeerAt(clients, k), outputs[k])
  }

  function OutputsNow(app: Application): (outputs: seq<seq<Message>>)
    reads AppObjects(app)
    ensures |outputs| == |app.sources| + |app.dests|
    ensures forall k :: 0 <= k < |outputs| ==> outputs[k] == OutputNow(app, PeerAt(|app.sources|, k))
  {
    seq(|app.sources| + |app.dests|, k requires 0 <= k < |app.sources| + |app.dests| reads AppObjects(app) =>
          OutputNow(app, PeerAt(|app.sources|, k)))
  }

  lemma OutputsAreNow(app: Application, st: R.State)
    requires IsIn(app, st)
    ensures AreOutputs(st, |app.sources|, OutputsNow(app))
  {
    forall k | 0 <= k < |app.sources| + |app.dests|
      ensures IsOutput(st, PeerAt(|app.sources|, k), OutputsNow(app)[k])
    {
      OutputIsNow(app, PeerAt(|app.sources|, k), st);
    }
  }

  ghost predicate AllEnabled(st: R.State, events: seq<R.Event>) {
    forall i :: 0 <= i < |events| ==> R.Enabled(st, events[i])
  }

  /** Outputs of a peer's session from some state of the run on. */
  ghost predicate OutputsSince(r: Run, from: nat, peer: Peer, tail: seq<seq<Message>>) {
    && (forall n :: 0 <= n < |r.states| ==> Known(r.states[n], peer))
    && IsTail(Outputs(r.states, peer), from, tail)
  }

  method Handle(app: Application, e: R.Event, ghost run: Run) returns (ghost next: Run)
    requires IsRun(run) && IsIn(app, run.states[|run.events|])
    requires R.Enabled(run.states[0], e)
    modifies AppObjects(app)
    ensures GoesOn(run, next, [e]) && IsIn(app, next.states[|next.events|])
  {
    assert ValidIn(app, run.states[|run.events|]);
    next := app.GoOn(e, run);
    assert ValidIn(app, next.states[|next.events|]);
  }

  /** One event, and what the peer's session has handed over after it. */
  method HandleEvent(app: Application, peer: Peer, e: R.Event, ghost run: Run, ghost from: nat,
                     tail: seq<seq<Message>>)
    returns (longer: seq<seq<Message>>, ghost next: Run)
    requires IsRun(run) && IsIn(app, run.states[|run.events|])
    requires R.Enabled(run.states[0], e) && OutputsSince(run, from, peer, tail)
    modifies AppObjects(app)
    ensures GoesOn(run, next, [e]) && IsIn(app, next.states[|next.events|])
    ensures OutputsSince(next, from, peer, longer)
  {
    next := Handle(app, e, run);
    Sizes(app, next.states[|next.events|]);
    OutputsMore(run, next, peer, from, tail);
    OutputIsNow(app, peer, next.states[|next.events|]);
    var output := OutputNow(app, peer);
    longer := tail + [output];
  }

  lemma GoesOnOneMore(run: Run, next: Run, events: seq<R.Event>, i: nat, further: Run)
    requires i < |events| && GoesOn(run, next, events[..i]) && GoesOn(next, further, [events[i]])
    ensures GoesOn(run, further, events[..i + 1])
  {
    assert events[..i + 1] == events[..i] + [events[i]];
  }

  /** The events of one read, and what the peer's session has handed over after each of them. */
  method HandleEvents(app: Application, peer: Peer, events: seq<R.Event>, ghost run: Run)
    returns (tail: seq<seq<Message>>, ghost next: Run)
    requires IsRun(run) && IsIn(app, run.states[|run.events|])
    requires AllEnabled(run.states[0], events)
    requires Known(run.states[0], peer)
    modifies AppObjects(app)
    ensures GoesOn(run, next, events) && IsIn(app, next.states[|next.events|])
    ensures OutputsSince(next, |run.events|, peer, tail)
  {
    KnownThroughout(run, peer);
    Sizes(app, run.states[|run.events|]);
    OutputIsNow(app, peer, run.states[|run.events|]);
    var output := OutputNow(app, peer);
    tail, next := [output], run;
    for i := 0 to |events|
      invariant GoesOn(run, next, events[..i]) && IsIn(app, next.states[|next.events|])
      invariant OutputsSince(next, |run.events|, peer, tail)
    {
      ghost var before := next;
      tail, next := HandleEvent(app, peer, events[i], next, |run.events|, tail);
      GoesOnOneMore(run, before, events, i, next);
    }
    assert events[..|events|] == events;
  }

  /** A run went on with these events, and these are the outputs of all sessions before and after them. */
  ghost predicate HaveHandled(clients: nat, peers: nat, peer: Peer, events: seq<R.Event>, run: Run, next: Run,
                              tail: seq<seq<Message>>, was: seq<seq<Message>>, now: seq<seq<Message>>)
  {
    && GoesOn(run, next, events) && OutputsSince(next, |run.events|, peer, tail) && |was| == |now| == peers
    && AreOutputs(run.states[|run.events|], clients, was) && AreOutputs(next.states[|next.events|], clients, now)
  }

  /** The same, and what all sessions had handed over before and have handed over after it. */
  method HandleAndCompare(app: Application, peer: Peer, events: seq<R.Event>, ghost run: Run)
    returns (tail: seq<seq<Message>>, was: seq<seq<Message>>, now: seq<seq<Message>>, ghost next: Run)
    requires IsRun(run) && IsIn(app, run.states[|run.events|])
    requires AllEnabled(run.states[0], events)
    requires Known(run.states[0], peer)
    modifies AppObjects(app)
    ensures HaveHandled(|app.sources|, |app.sources| + |app.dests|, peer, events, run, next, tail, was, now)
    ensures IsIn(app, next.states[|next.events|])
  {
    was := OutputsNow(app);
    OutputsAreNow(app, run.states[|run.events|]);
    tail, next := HandleEvents(app, peer, events, run);
    now := OutputsNow(app);
    OutputsAreNow(app, next.states[|next.events|]);
  }

  // ---------- All connections over a past ----------

  /** The past is that of these connections. */
  ghost predicate Covers(clients: nat, peers: nat, past: Past) {
    && IsPast(past) && past.start.Keys == MemoriesAfter(past.start, past.arrivals).Keys
    && forall k :: 0 <= k < peers ==> PeerAt(clients, k) in past.start
  }

  ghost function Memories(clients: nat, peers: nat, past: Past): (memories: seq<Memory>)
    requires Covers(clients, peers, past)
    ensures |memories| == peers
    ensures forall k :: 0 <= k < peers ==> memories[k] == MemoryNow(past, PeerAt(clients, k))
  {
    seq(peers, k requires 0 <= k < peers => MemoryNow(past, PeerAt(clients, k)))
  }

  ghost function AllSent(clients: nat, peers: nat, past: Past): (sent: seq<seq<Message>>)
    requires Covers(clients, peers, past)
    ensures |sent| == peers
    ensures forall k :: 0 <= k < peers ==> sent[k] == SentTo(past, PeerAt(clients, k))
  {
    seq(peers, k requires 0 <= k < peers => SentTo(past, PeerAt(clients, k)))
  }

  /** Nothing was sent to any of the peers. */
  function Nothing(peers: nat): seq<seq<Message>> {
    seq(peers, _ => [])
  }

  /** Before anything arrives. */
  lemma StartWith(st: R.State, memories: seq<Memory>) returns (past: Past)
    requires Initial(st) && |memories| == |st.sources| + |st.dests|
    requires forall k :: 0 <= k < |memories| ==> IsMemory(memories[k])
    ensures Covers(|st.sources|, |memories|, past) && past.arrivals == [] && past.run == Run([st], [], [])
    ensures Memories(|st.sources|, |memories|, past) == memories
    ensures AllSent(|st.sources|, |memories|, past) == Nothing(|memories|)
    ensures forall peer :: peer in past.start ==> past.start[peer] in memories
  {
    var clients := |st.sources|;
    var peers := set k | 0 <= k < |memories| :: PeerAt(clients, k);
    assert forall k :: 0 <= k < |memories| ==> PeerAt(clients, k) in peers && IndexOf(clients, PeerAt(clients, k)) == k;
    var start := map peer | peer in peers :: memories[IndexOf(clients, peer)];
    past := Past(start, [], Run([st], [], []));
    PastStarts(st, start);
  }

  /** Something arrives on connection k, and the run goes on with what it leads to. */
  ghost predicate Continues(clients: nat, peers: nat, past: Past, k: nat, x: Arrival, next: Run)
    requires Covers(clients, peers, past) && k < peers
  {
    var m := Memories(clients, peers, past)[k];
    x.peer == PeerAt(clients, k) && ArrivalFits(m, x) && GoesOn(past.run, next, EventsIn(TicksAt(m, x)))
  }

  lemma CoversOn(clients: nat, peers: nat, past: Past, k: nat, x: Arrival, next: Run) returns (past': Past)
    requires Covers(clients, peers, past) && k < peers && Continues(clients, peers, past, k, x, next)
    ensures past' == Past(past.start, past.arrivals + [x], next) && Covers(clients, peers, past')
    ensures Timeline(past'.start, past'.arrivals) ==
            Timeline(past.start, past.arrivals) + TicksAt(Memories(clients, peers, past)[k], x)
    ensures Memories(clients, peers, past') ==
            Memories(clients, peers, past)[k := AfterArrival(ProtocolOf(x.peer), Memories(clients, peers, past)[k], x)]
  {
    past' := PastGoesOn(past, x, next);
    SamePeers(past'.start, past'.arrivals);
  }

  lemma OwnSentOn(clients: nat, peers: nat, past: Past, k: nat, x: Arrival, past': Past, tail: seq<seq<Message>>)
    requires Covers(clients, peers, past) && k < peers && Continues(clients, peers, past, k, x, past'.run)
    requires Covers(clients, peers, past') && past'.start == past.start
    requires Timeline(past'.start, past'.arrivals) ==
             Timeline(past.start, past.arrivals) + TicksAt(Memories(clients, peers, past)[k], x)
    requires OutputsSince(past'.run, |past.run.events|, x.peer, tail)
    ensures Grows(tail) && AllValid(ProtocolOf(x.peer), tail)
    ensures |EventsIn(TicksAt(Memories(clients, peers, past)[k], x))| < |tail|
    ensures AllSent(clients, peers, past')[k] ==
            AllSent(clients, peers, past)[k] + Outgoing(x.peer, TicksAt(Memories(clients, peers, past)[k], x), tail, 0)
  {
    KnownThroughout(past'.run, x.peer);
    TailGrows(Outputs(past'.run.states, x.peer), |past.run.events|, tail);
    TailValid(ProtocolOf(x.peer), Outputs(past'.run.states, x.peer), |past.run.events|, tail);
    SentToOwn(past.run, past'.run, x.peer, Timeline(past.start, past.arrivals),
              TicksAt(Memories(clients, peers, past)[k], x), tail);
  }

  lemma TailValid(p: Protocol, outs: seq<seq<Message>>, from: nat, tail: seq<seq<Message>>)
    requires IsTail(outs, from, tail) && AllValid(p, outs)
    ensures AllValid(p, tail)
  {
    forall n | 0 <= n < |tail|
      ensures ValidMessages(p, tail[n])
    {
      assert SameAt(outs, from, tail, n) && ValidMessages(p, outs[from + n]);
    }
  }

  /** What a session has added to its output. */
  function Added(was: seq<Message>, now: seq<Message>): seq<Message> {
    if was <= now then now[|was|..] else []
  }

  lemma OtherSentOn(clients: nat, peers: nat, past: Past, k: nat, x: Arrival, past': Past, j: nat)
    requires Covers(clients, peers, past) && k < peers && Continues(clients, peers, past, k, x, past'.run)
    requires Covers(clients, peers, past') && past'.start == past.start
    requires Timeline(past'.start, past'.arrivals) ==
             Timeline(past.start, past.arrivals) + TicksAt(Memories(clients, peers, past)[k], x)
    requires j < peers && j != k
    ensures var peer, was, now := PeerAt(clients, j), past.run.states[|past.run.events|],
                                  past'.run.states[|past'.run.events|];
            && Known(was, peer) && Known(now, peer)
            && ValidMessages(ProtocolOf(peer), Added(Output(was, peer), Output(now, peer)))
            && AllSent(clients, peers, past')[j] ==
               AllSent(clients, peers, past)[j] + Added(Output(was, peer), Output(now, peer))
  {
    var peer, ticks := PeerAt(clients, j), TicksAt(Memories(clients, peers, past)[k], x);
    ArrivalOwned(Memories(clients, peers, past)[k], x, {x.peer});
    SentToOther(past.run, past'.run, peer, Timeline(past.start, past.arrivals), ticks, {x.peer});
    AddedValidly(past'.run.states[|past'.run.events|], peer, Output(past.run.states[|past.run.events|], peer));
  }

  lemma AddedValidly(now: R.State, peer: Peer, was: seq<Message>)
    requires Known(now, peer)
    ensures ValidMessages(ProtocolOf(peer), Added(was, Output(now, peer)))
  {
    OutputValid(now, peer);
  }

  // ---------- The gateway ----------

  /** Every peer has a connection of its own. */
  ghost predicate Wired(app: Application, transports: seq<TransportSingleThreaded>) {
    && |transports| == |app.sources| + |app.dests|
    && Separate(transports) && AppObjects(app) !! AllParts(transports)
  }

  /**
   * The sessions are where the run has brought them, and every connection's buffer, and all that was
   * sent over it, are what the arrivals so far and the run make of them.
   */
  ghost predicate InStep(app: Application, transports: seq<TransportSingleThreaded>, past: Past)
    reads AppObjects(app), AllParts(transports)
  {
    && Wired(app, transports)
    && Covers(|app.sources|, |transports|, past) && IsIn(app, past.run.states[|past.run.events|])
    && AllKeep(|app.sources|, transports, Memories(|app.sources|, |transports|, past),
               AllSent(|app.sources|, |transports|, past))
  }

  /** Sessions at their start, over connections on which nothing has been sent. */
  lemma StartsInStep(app: Application, transports: seq<TransportSingleThreaded>, memories: seq<Memory>,
                     st: R.State) returns (past: Past)
    requires Wired(app, transports) && IsIn(app, st) && Initial(st)
    requires AllKeep(|app.sources|, transports, memories, Nothing(|transports|))
    ensures InStep(app, transports, past) && past.arrivals == [] && past.run == Run([st], [], [])
    ensures forall peer :: peer in past.start ==> past.start[peer] in memories
  {
    AllMemories(|app.sources|, transports, memories, Nothing(|transports|));
    Sizes(app, st);
    past := StartWith(st, memories);
  }

  /** What a read event on connection k is to the model. */
  function ArrivalOf(peer: Peer, m: Memory, pending: seq<byte>, beyond: seq<byte>, valid: nat -> bool): Arrival
    requires IsMemory(m)
  {
    var n := Fitted(m, pending);
    if n == 0 then Drops(peer) else Arrives(peer, Read(pending[..n], beyond), valid)
  }

  /** The answer to the peer's own callbacks. */
  function OutputsFor(m: Memory, x: Arrival, tail: seq<seq<Message>>): nat -> seq<Message>
    requires ArrivalFits(m, x) && Grows(tail) && |EventsIn(TicksAt(m, x))| < |tail|
  {
    if x.Drops? then (n: nat) => []
    else OwnOutputs(x.peer, CallbacksOf(ProtocolOf(x.peer), m, x.input), x.valid, tail, 0)
  }

  lemma OutputsForPeer(m: Memory, x: Arrival, tail: seq<seq<Message>>)
    requires ArrivalFits(m, x) && Grows(tail) && |EventsIn(TicksAt(m, x))| < |tail|
    requires AllValid(ProtocolOf(x.peer), tail)
    ensures ValidOutputs(ProtocolOf(x.peer), OutputsFor(m, x, tail))
    ensures Reactions(CallbacksAt(ProtocolOf(x.peer), m, x), OutputsFor(m, x, tail), 0) ==
            Outgoing(x.peer, TicksAt(m, x), tail, 0)
  {
    if x.Arrives? {
      OwnReactions(x.peer, CallbacksOf(ProtocolOf(x.peer), m, x.input), x.valid, tail, 0);
    }
  }

  /** What the others are to be sent: what their sessions have added. */
  function AddedTo(k: nat, was: seq<seq<Message>>, now: seq<seq<Message>>): (added: seq<seq<Message>>)
    requires |was| == |now|
    ensures |added| == |was|
  {
    seq(|was|, j requires 0 <= j < |was| => if j == k then [] else Added(was[j], now[j]))
  }

  /** Everything that was sent is what was sent before, what the peer's callbacks drew, and what others are sent. */
  ghost predicate HasEffect(clients: nat, peers: nat, past: Past, k: nat, x: Arrival, past': Past,
                            tail: seq<seq<Message>>, added: seq<seq<Message>>)
    requires Covers(clients, peers, past) && Covers(clients, peers, past') && k < peers
    requires ArrivalFits(Memories(clients, peers, past)[k], x)
  {
    var m, sent := Memories(clients, peers, past)[k], AllSent(clients, peers, past);
    && past'.start == past.start && past'.arrivals == past.arrivals + [x] && |added| == peers
    && Memories(clients, peers, past') == Memories(clients, peers, past)[k := AfterArrival(ProtocolOf(x.peer), m, x)]
    && Grows(tail) && AllValid(ProtocolOf(x.peer), tail) && |EventsIn(TicksAt(m, x))| < |tail|
    && AllSent(clients, peers, past') ==
       SentUpTo(sent[k := sent[k] + Outgoing(x.peer, TicksAt(m, x), tail, 0)], added, peers)
    && forall j :: 0 <= j < peers ==> ValidMessages(ProtocolOf(PeerAt(clients, j)), added[j])
  }

  lemma ArrivalEffect(clients: nat, peers: nat, past: Past, k: nat, x: Arrival, next: Run, tail: seq<seq<Message>>,
                      was: seq<seq<Message>>, now: seq<seq<Message>>) returns (past': Past)
    requires Covers(clients, peers, past) && k < peers && Continues(clients, peers, past, k, x, next)
    requires var events := EventsIn(TicksAt(Memories(clients, peers, past)[k], x));
             HaveHandled(clients, peers, x.peer, events, past.run, next, tail, was, now)
    ensures Covers(clients, peers, past') && past'.run == next
    ensures HasEffect(clients, peers, past, k, x, past', tail, AddedTo(k, was, now))
  {
    var added := AddedTo(k, was, now);
    past' := CoversOn(clients, peers, past, k, x, next);
    OwnSentOn(clients, peers, past, k, x, past', tail);
    forall j | 0 <= j < peers
      ensures ValidMessages(ProtocolOf(PeerAt(clients, j)), added[j])
      ensures j != k ==> AllSent(clients, peers, past')[j] == AllSent(clients, peers, past)[j] + added[j]
    {
      if j != k {
        OtherSentOn(clients, peers, past, k, x, past', j);
      }
    }
    SentTogether(AllSent(clients, peers, past), AllSent(clients, peers, past'), k, added);
  }

  lemma SentTogether(sent: seq<seq<Message>>, now: seq<seq<Message>>, k: nat, added: seq<seq<Message>>)
    requires |sent| == |now| == |added| && k < |sent| && added[k] == []
    requires forall j :: 0 <= j < |sent| && j != k ==> now[j] == sent[j] + added[j]
    ensures now == SentUpTo(sent[k := now[k]], added, |sent|)
  {
    forall j | 0 <= j < |sent|
      ensures now[j] == SentUpTo(sent[k := now[k]], added, |sent|)[j]
    {
      assert j == k ==> now[k] + added[k] == now[k];
    }
  }

  lemma ArrivalEnabled(clients: nat, peers: nat, past: Past, k: nat, x: Arrival)
    requires Covers(clients, peers, past) && k < peers && x.peer == PeerAt(clients, k)
    requires ArrivalFits(Memories(clients, peers, past)[k], x)
    ensures IsRun(past.run) && Known(past.run.states[0], x.peer)
    ensures AllEnabled(past.run.states[0], EventsIn(TicksAt(Memories(clients, peers, past)[k], x)))
  {
    ArrivalOwned(Memories(clients, peers, past)[k], x, {x.peer});
    OwnedIsEnabled(past.run.states[0], TicksAt(Memories(clients, peers, past)[k], x), {x.peer});
  }

  lemma ArrivalOfFits(peer: Peer, m: Memory, pending: seq<byte>, beyond: seq<byte>, valid: nat -> bool)
    requires IsMemory(m) && LONGEST <= |beyond|
    ensures ArrivalFits(m, ArrivalOf(peer, m, pending, beyond, valid))
  {
  }

  lemma ReadIsArrival(p: Protocol, m: Memory, sent: seq<Message>, pending: seq<byte>, beyond: seq<byte>,
                      outputs: nat -> seq<Message>, n: nat, m': Memory, sent': seq<Message>, x: Arrival)
    requires LONGEST <= |beyond| && HasRead(p, m, sent, pending, beyond, outputs, n, m', sent')
    requires x == ArrivalOf(x.peer, m, pending, beyond, if x.Arrives? then x.valid else _ => true)
    ensures ArrivalFits(m, x) && m' == AfterArrival(p, m, x)
    ensures sent' == sent + Reactions(CallbacksAt(p, m, x), outputs, 0)
  {
    if x.Drops? {
      assert sent + [] == sent;
    }
  }

  /** The transports' part of a read event. */
  method TransportArrival(ghost clients: nat, transports: seq<TransportSingleThreaded>, k: nat, pending: seq<byte>,
                          beyond: seq<byte>, outputs: nat -> seq<Message>, added: seq<seq<Message>>, ghost x: Arrival,
                          ghost memories: seq<Memory>, ghost sent: seq<seq<Message>>)
    returns (n: nat)
    requires Separate(transports) && AllKeep(clients, transports, memories, sent) && k < |transports| == |added|
    requires LONGEST <= |beyond| && ValidOutputs(ProtocolOf(x.peer), outputs)
    requires IsMemory(memories[k]) && x.peer == PeerAt(clients, k)
    requires x == ArrivalOf(x.peer, memories[k], pending, beyond, if x.Arrives? then x.valid else _ => true)
    requires forall j :: 0 <= j < |transports| ==> ValidMessages(ProtocolOf(PeerAt(clients, j)), added[j])
    modifies AllParts(transports)
    ensures ArrivalFits(memories[k], x) && n == Fitted(memories[k], pending)
    ensures var p, m := ProtocolOf(x.peer), memories[k];
            AllKeep(clients, transports, memories[k := AfterArrival(p, m, x)],
                    SentUpTo(sent[k := sent[k] + Reactions(CallbacksAt(p, m, x), outputs, 0)], added, |transports|))
  {
    ghost var m', sent';
    n, m', sent' := ReadAt(clients, transports, k, pending, beyond, outputs, memories, sent);
    ReadIsArrival(ProtocolOf(x.peer), memories[k], sent[k], pending, beyond, outputs, n, m', sent', x);
    SendToAll(clients, transports, added, memories[k := m'], sent[k := sent']);
  }

  lemma ContentIs(clients: nat, transports: seq<TransportSingleThreaded>, k: nat, memories: seq<Memory>,
                  sent: seq<seq<Message>>)
    requires AllKeep(clients, transports, memories, sent) && k < |transports|
    ensures transports[k].Content() == memories[k] && IsMemory(memories[k])
  {
    assert EachKeeps(clients, transports, memories, sent);
    assert Keeps(transports[k], ProtocolOf(PeerAt(clients, k)), memories[k], sent[k]);
    assert Holds(transports[k], ProtocolOf(PeerAt(clients, k)), memories[k], sent[k]);
    KeptMemory(transports[k], ProtocolOf(PeerAt(clients, k)), memories[k], sent[k]);
  }

  /** What the read event is to the model, and that the run can go on with it. */
  lemma NextArrival(app: Application, transports: seq<TransportSingleThreaded>, k: nat, pending: seq<byte>,
                    beyond: seq<byte>, valid: nat -> bool, past: Past)
    requires InStep(app, transports, past) && k < |transports| && LONGEST <= |beyond|
    ensures var m := transports[k].Content();
            && m == Memories(|app.sources|, |transports|, past)[k] && IsMemory(m)
            && var x := ArrivalOf(PeerAt(|app.sources|, k), m, pending, beyond, valid);
               && ArrivalFits(m, x) && x.peer == PeerAt(|app.sources|, k)
               && IsRun(past.run) && Known(past.run.states[0], x.peer)
               && AllEnabled(past.run.states[0], EventsIn(TicksAt(m, x)))
  {
    var m := transports[k].Content();
    ContentIs(|app.sources|, transports, k, Memories(|app.sources|, |transports|, past),
              AllSent(|app.sources|, |transports|, past));
    var x := ArrivalOf(PeerAt(|app.sources|, k), m, pending, beyond, valid);
    ArrivalOfFits(x.peer, m, pending, beyond, valid);
    ArrivalEnabled(|app.sources|, |transports|, past, k, x);
  }

  /** What the events let the peer's session send is what its endpoint can send. */
  lemma OutputsForRun(run: Run, next: Run, m: Memory, x: Arrival, tail: seq<seq<Message>>)
    requires ArrivalFits(m, x) && GoesOn(run, next, EventsIn(TicksAt(m, x)))
    requires OutputsSince(next, |run.events|, x.peer, tail)
    ensures Grows(tail) && |EventsIn(TicksAt(m, x))| < |tail|
    ensures ValidOutputs(ProtocolOf(x.peer), OutputsFor(m, x, tail))
    ensures Reactions(CallbacksAt(ProtocolOf(x.peer), m, x), OutputsFor(m, x, tail), 0) ==
            Outgoing(x.peer, TicksAt(m, x), tail, 0)
  {
    KnownThroughout(next, x.peer);
    TailGrows(Outputs(next.states, x.peer), |run.events|, tail);
    TailValid(ProtocolOf(x.peer), Outputs(next.states, x.peer), |run.events|, tail);
    OutputsForPeer(m, x, tail);
  }

  lemma AddedToValid(st: R.State, clients: nat, k: nat, was: seq<seq<Message>>, now: seq<seq<Message>>)
    requires |was| == |now| && AreOutputs(st, clients, now)
    ensures forall j :: 0 <= j < |now| ==> ValidMessages(ProtocolOf(PeerAt(clients, j)), AddedTo(k, was, now)[j])
  {
    forall j | 0 <= j < |now|
      ensures ValidMessages(ProtocolOf(PeerAt(clients, j)), AddedTo(k, was, now)[j])
    {
      assert IsOutput(st, PeerAt(clients, j), now[j]);
      OutputValid(st, PeerAt(clients, j));
    }
  }

  /** The sessions handle the events; the transports see nothing of it. */
  method SessionsPart(app: Application, transports: seq<TransportSingleThreaded>, peer: Peer, events: seq<R.Event>,
                      ghost memories: seq<Memory>, ghost sent: seq<seq<Message>>, ghost run: Run)
    returns (tail: seq<seq<Message>>, was: seq<seq<Message>>, now: seq<seq<Message>>, ghost next: Run)
    requires AppObjects(app) !! AllParts(transports) && AllKeep(|app.sources|, transports, memories, sent)
    requires IsRun(run) && IsIn(app, run.states[|run.events|])
    requires AllEnabled(run.states[0], events) && Known(run.states[0], peer)
    modifies AppObjects(app)
    ensures AllKeep(|app.sources|, transports, memories, sent)
    ensures HaveHandled(|app.sources|, |app.sources| + |app.dests|, peer, events, run, next, tail, was, now)
    ensures IsIn(app, next.states[|next.events|])
  {
    tail, was, now, next := HandleAndCompare(app, peer, events, run);
    assert unchanged(AllParts(transports));
  }

  /** The transports take the read and send what is to be sent; the sessions see nothing of it. */
  method TransportsPart(app: Application, transports: seq<TransportSingleThreaded>, k: nat, ghost m: Memory,
                        ghost x: Arrival, pending: seq<byte>, beyond: seq<byte>, outputs: nat -> seq<Message>,
                        added: seq<seq<Message>>, ghost memories: seq<Memory>, ghost sent: seq<seq<Message>>,
                        ghost st: R.State)
    returns (n: nat)
    requires AppObjects(app) !! AllParts(transports) && IsIn(app, st)
    requires Separate(transports) && AllKeep(|app.sources|, transports, memories, sent)
    requires k < |transports| == |added| && LONGEST <= |beyond| && ValidOutputs(ProtocolOf(x.peer), outputs)
    requires m == memories[k] && ArrivalFits(m, x) && x.peer == PeerAt(|app.sources|, k)
    requires x == ArrivalOf(x.peer, m, pending, beyond, if x.Arrives? then x.valid else _ => true)
    requires forall j :: 0 <= j < |transports| ==> ValidMessages(ProtocolOf(PeerAt(|app.sources|, j)), added[j])
    modifies AllParts(transports)
    ensures IsIn(app, st)
    ensures n == Fitted(m, pending)
    ensures AllKeep(|app.sources|, transports, memories[k := AfterArrival(ProtocolOf(x.peer), m, x)],
                    SentUpTo(sent[k := sent[k] + Reactions(CallbacksAt(ProtocolOf(x.peer), m, x), outputs, 0)], added,
                             |transports|))
  {
    n := TransportArrival(|app.sources|, transports, k, pending, beyond, outputs, added, x, memories, sent);
    assert unchanged(AppObjects(app));
  }

  /** A read event with all its consequences: for the sessions, for its own peer, and for the others. */
  method ReadThrough(app: Application, transports: seq<TransportSingleThreaded>, k: nat, m: Memory, x: Arrival,
                     pending: seq<byte>, beyond: seq<byte>, ghost memories: seq<Memory>,
                     ghost sent: seq<seq<Message>>, ghost run: Run)
    returns (n: nat, ghost next: Run, ghost tail: seq<seq<Message>>, ghost was: seq<seq<Message>>,
             ghost now: seq<seq<Message>>)
    requires Wired(app, transports) && k < |transports| && LONGEST <= |beyond|
    requires AllKeep(|app.sources|, transports, memories, sent)
    requires m == memories[k] && ArrivalFits(m, x) && x.peer == PeerAt(|app.sources|, k)
    requires x == ArrivalOf(x.peer, m, pending, beyond, if x.Arrives? then x.valid else _ => true)
    requires IsRun(run) && IsIn(app, run.states[|run.events|])
    requires Known(run.states[0], x.peer) && AllEnabled(run.states[0], EventsIn(TicksAt(m, x)))
    modifies AppObjects(app), AllParts(transports)
    ensures n == Fitted(m, pending)
    ensures HaveHandled(|app.sources|, |transports|, x.peer, EventsIn(TicksAt(m, x)), run, next, tail, was, now)
    ensures IsIn(app, next.states[|next.events|])
    ensures Grows(tail) && |EventsIn(TicksAt(m, x))| < |tail|
    ensures AllKeep(|app.sources|, transports, memories[k := AfterArrival(ProtocolOf(x.peer), m, x)],
                    SentUpTo(sent[k := sent[k] + Outgoing(x.peer, TicksAt(m, x), tail, 0)], AddedTo(k, was, now),
                             |transports|))
  {
    var later, before, after;
    later, before, after, next := SessionsPart(app, transports, x.peer, EventsIn(TicksAt(m, x)), memories, sent, run);
    OutputsForRun(run, next, m, x, later);
    AddedToValid(next.states[|next.events|], |app.sources|, k, before, after);
    n := TransportsPart(app, transports, k, m, x, pending, beyond, OutputsFor(m, x, later), AddedTo(k, before, after),
                        memories, sent, next.states[|next.events|]);
    tail, was, now := later, before, after;
  }

  lemma StillInStep(app: Application, transports: seq<TransportSingleThreaded>, past: Past, k: nat, x: Arrival,
                    next: Run, tail: seq<seq<Message>>, was: seq<seq<Message>>, now: seq<seq<Message>>)
    returns (past': Past)
    requires Wired(app, transports) && k < |transports| && Covers(|app.sources|, |transports|, past)
    requires x.peer == PeerAt(|app.sources|, k)
    requires var m := Memories(|app.sources|, |transports|, past)[k];
             && ArrivalFits(m, x)
             && HaveHandled(|app.sources|, |transports|, x.peer, EventsIn(TicksAt(m, x)), past.run, next, tail, was,
                            now)
             && IsIn(app, next.states[|next.events|])
             && Grows(tail) && |EventsIn(TicksAt(m, x))| < |tail|
             && var memories, sent := Memories(|app.sources|, |transports|, past),
                                      AllSent(|app.sources|, |transports|, past);
                AllKeep(|app.sources|, transports, memories[k := AfterArrival(ProtocolOf(x.peer), m, x)],
                        SentUpTo(sent[k := sent[k] + Outgoing(x.peer, TicksAt(m, x), tail, 0)], AddedTo(k, was, now),
                                 |transports|))
    ensures InStep(app, transports, past') && past'.start == past.start && past'.arrivals == past.arrivals + [x]
    ensures past'.run == next
  {
    past' := ArrivalEffect(|app.sources|, |transports|, past, k, x, next, tail, was, now);
  }

  /** A read event: the bytes that wait on a connection, and what else the model takes as given. */
  datatype Offer = Offer(connection: nat, pending: seq<byte>, beyond: seq<byte>, valid: nat -> bool)

  /**
   * What arrived at position `at` is this read event: of the bytes that wait, as many as the buffer has
   * room for behind what earlier arrivals left in it; and the end of the connection only if none wait
   * or none fit.
   */
  ghost predicate Takes(clients: nat, start: map<Peer, Memory>, arrivals: seq<Arrival>, at: nat, offer: Offer) {
    var peer := if offer.connection < clients then Client(offer.connection) else Venue(offer.connection - clients);
    && at < |arrivals| && AllFit(start, arrivals[..at]) && peer in MemoriesAfter(start, arrivals[..at])
    && var m := MemoriesAfter(start, arrivals[..at])[peer];
       && m.length <= CAPACITY
       && arrivals[at] ==
          if offer.pending == [] || m.length == CAPACITY then Drops(peer)
          else
            var n := if |offer.pending| <= CAPACITY - m.length then |offer.pending| else CAPACITY - m.length;
            Arrives(peer, Read(offer.pending[..n], offer.beyond), offer.valid)
  }

  lemma TakesNow(clients: nat, peers: nat, past: Past, k: nat, offer: Offer, arrivals: seq<Arrival>)
    requires Covers(clients, peers, past) && k < peers && k == offer.connection
    requires var m := Memories(clients, peers, past)[k];
             && IsMemory(m)
             && arrivals == past.arrivals + [ArrivalOf(PeerAt(clients, k), m, offer.pending, offer.beyond, offer.valid)]
    ensures Takes(clients, past.start, arrivals, |past.arrivals|, offer)
  {
    assert arrivals[..|past.arrivals|] == past.arrivals;
    assert PeerAt(clients, k) in past.start;
  }

  lemma TakesStill(clients: nat, start: map<Peer, Memory>, arrivals: seq<Arrival>, x: Arrival, at: nat, offer: Offer)
    requires Takes(clients, start, arrivals, at, offer)
    ensures Takes(clients, start, arrivals + [x], at, offer)
  {
    assert (arrivals + [x])[..at] == arrivals[..at];
  }

  /**
   * One read event on connection k, all the way through: the bytes are cut into messages, the sessions
   * and routers handle them, and every peer concerned is sent what that leads to.
   */
  method OnRead(app: Application, transports: seq<TransportSingleThreaded>, k: nat, pending: seq<byte>,
                beyond: seq<byte>, valid: nat -> bool, ghost past: Past)
    returns (n: nat, ghost past': Past)
    requires InStep(app, transports, past) && k < |transports| && LONGEST <= |beyond|
    modifies AppObjects(app), AllParts(transports)
    ensures InStep(app, transports, past')
    ensures past'.start == past.start
    ensures |past'.arrivals| == |past.arrivals| + 1 && past'.arrivals[..|past.arrivals|] == past.arrivals
    ensures Takes(|app.sources|, past'.start, past'.arrivals, |past.arrivals|, Offer(k, pending, beyond, valid))
    ensures var m := Memories(|app.sources|, |transports|, past)[k];
            && IsMemory(m) && n == Fitted(m, pending)
            && var x := ArrivalOf(PeerAt(|app.sources|, k), m, pending, beyond, valid);
               && past'.arrivals == past.arrivals + [x] && ArrivalFits(m, x)
               && GoesOn(past.run, past'.run, EventsIn(TicksAt(m, x)))
  {
    ghost var memories, sent := Memories(|app.sources|, |transports|, past), AllSent(|app.sources|, |transports|, past);
    NextArrival(app, transports, k, pending, beyond, valid, past);
    var m := transports[k].Content();
    var x := ArrivalOf(PeerAt(|app.sources|, k), m, pending, beyond, valid);
    TakesNow(|app.sources|, |transports|, past, k, Offer(k, pending, beyond, valid), past.arrivals + [x]);
    ghost var next, tail, was, now;
    n, next, tail, was, now := ReadThrough(app, transports, k, m, x, pending, beyond, memories, sent, past.run);
    past' := StillInStep(app, transports, past, k, x, next, tail, was, now);
  }

  /** Exactly these read events came behind an earlier past, in this order. */
  ghost predicate HasServed(clients: nat, past: Past, past': Past, offers: seq<Offer>) {
    && past'.start == past.start && past.run.states <= past'.run.states
    && |past'.arrivals| == |past.arrivals| + |offers| && past'.arrivals[..|past.arrivals|] == past.arrivals
    && forall i :: 0 <= i < |offers| ==>
         Takes(clients, past'.start, past'.arrivals, |past.arrivals| + i, offers[i])
  }

  lemma NothingServed(clients: nat, past: Past)
    ensures HasServed(clients, past, past, [])
  {
    assert past.arrivals[..|past.arrivals|] == past.arrivals;
  }

  lemma OneMoreServed(clients: nat, past: Past, between: Past, offers: seq<Offer>, past': Past, offer: Offer)
    requires HasServed(clients, past, between, offers) && HasServed(clients, between, past', [offer])
    ensures HasServed(clients, past, past', offers + [offer])
  {
    var at := |between.arrivals|;
    var x := past'.arrivals[at];
    assert past'.arrivals == between.arrivals + [x];
    forall i | 0 <= i < |offers + [offer]|
      ensures Takes(clients, past'.start, past'.arrivals, |past.arrivals| + i, (offers + [offer])[i])
    {
      if i < |offers| {
        TakesStill(clients, between.start, between.arrivals, x, |past.arrivals| + i, offers[i]);
      } else {
        assert Takes(clients, past'.start, past'.arrivals, at + 0, [offer][0]);
      }
    }
  }

  method ServeOne(app: Application, transports: seq<TransportSingleThreaded>, offer: Offer, ghost past: Past)
    returns (ghost past': Past)
    requires InStep(app, transports, past)
    requires offer.connection < |transports| && LONGEST <= |offer.beyond|
    modifies AppObjects(app), AllParts(transports)
    ensures InStep(app, transports, past') && HasServed(|app.sources|, past, past', [offer])
  {
    var n;
    n, past' := OnRead(app, transports, offer.connection, offer.pending, offer.beyond, offer.valid, past);
  }

  method ServeNext(app: Application, transports: seq<TransportSingleThreaded>, offers: seq<Offer>, i: nat,
                   ghost past: Past, ghost between: Past)
    returns (ghost past': Past)
    requires InStep(app, transports, between) && i < |offers|
    requires HasServed(|app.sources|, past, between, offers[..i])
    requires offers[i].connection < |transports| && LONGEST <= |offers[i].beyond|
    modifies AppObjects(app), AllParts(transports)
    ensures InStep(app, transports, past') && HasServed(|app.sources|, past, past', offers[..i + 1])
  {
    past' := ServeOne(app, transports, offers[i], between);
    OneMoreServed(|app.sources|, past, between, offers[..i], past', offers[i]);
    assert offers[..i + 1] == offers[..i] + [offers[i]];
  }

  /** The event loop over everything that comes in on any connection. */
  method Serve(app: Application, transports: seq<TransportSingleThreaded>, offers: seq<Offer>, ghost past: Past)
    returns (ghost past': Past)
    requires InStep(app, transports, past)
    requires forall i :: 0 <= i < |offers| ==>
               offers[i].connection < |transports| && LONGEST <= |offers[i].beyond|
    modifies AppObjects(app), AllParts(transports)
    ensures InStep(app, transports, past') && HasServed(|app.sources|, past, past', offers)
  {
    past' := past;
    NothingServed(|app.sources|, past);
    for i := 0 to |offers|
      invariant InStep(app, transports, past') && HasServed(|app.sources|, past, past', offers[..i])
    {
      past' := ServeNext(app, transports, offers, i, past, past');
    }
    assert offers[..|offers|] == offers;
  }

  // ---------- What the peers see ----------

  lemma WireOf(clients: nat, transports: seq<TransportSingleThreaded>, k: nat, memories: seq<Memory>,
               sent: seq<seq<Message>>)
    requires AllKeep(clients, transports, memories, sent) && k < |transports|
    ensures var p, endpoint := ProtocolOf(PeerAt(clients, k)), transports[k].endpoint;
            ValidMessages(p, sent[k]) && endpoint.wire == EncodeAll(p, endpoint.start, sent[k])
  {
    assert EachKeeps(clients, transports, memories, sent);
    assert Keeps(transports[k], ProtocolOf(PeerAt(clients, k)), memories[k], sent[k]);
    assert Holds(transports[k], ProtocolOf(PeerAt(clients, k)), memories[k], sent[k]);
    transports[k].endpoint.WireIsEncoding();
  }

  lemma WireNow(app: Application, transports: seq<TransportSingleThreaded>, past: Past, k: nat, peer: Peer)
    requires InStep(app, transports, past) && k < |transports| && peer == PeerAt(|app.sources|, k)
    ensures peer in past.start && IsPast(past)
    ensures Known(past.run.states[0], peer) && Known(past.run.states[|past.run.events|], peer)
    ensures var endpoint, sent := transports[k].endpoint, SentTo(past, peer);
            ValidMessages(ProtocolOf(peer), sent) && endpoint.wire == EncodeAll(ProtocolOf(peer), endpoint.start, sent)
  {
    WireOf(|app.sources|, transports, k, Memories(|app.sources|, |transports|, past),
           AllSent(|app.sources|, |transports|, past));
    KnownThroughout(past.run, peer);
  }

  lemma SentInState(app: Application, st: R.State, d: nat)
    requires IsIn(app, st) && d < |app.dests|
    ensures d < |st.dests| && st.dests[d].sent == app.dests[d].sent
  {
    assert ValidIn(app, st);
  }

  lemma HandedInState(app: Application, st: R.State, s: nat)
    requires IsIn(app, st) && s < |app.sources|
    ensures s < |st.sources| && st.sources[s].handed == app.sources[s].handed
  {
    assert ValidIn(app, st);
  }

  /** A client reads from its connection, under any split, exactly what its session handed over. */
  lemma ClientReadsWire(app: Application, transports: seq<TransportSingleThreaded>, past: Past, s: nat,
                        chunks: seq<seq<byte>>)
    requires InStep(app, transports, past) && s < |app.sources|
    requires Concat(chunks) == transports[s].endpoint.wire
    ensures Gather(ClientMessageOf, MessagesOf(DecodeAll(ProtocolA, DispatchedBy(ProtocolA, [], chunks)))) ==
            app.sources[s].handed
  {
    WireNow(app, transports, past, s, Client(s));
    HandedInState(app, past.run.states[|past.run.events|], s);
    MessagesReachClient(past.run, past.start, past.arrivals, s, transports[s].endpoint.start, chunks);
  }

  /** A venue reads from its connection, under any split, exactly the requests forwarded to it. */
  lemma VenueReadsWire(app: Application, transports: seq<TransportSingleThreaded>, past: Past, d: nat,
                       chunks: seq<seq<byte>>)
    requires InStep(app, transports, past) && d < |app.dests|
    requires Concat(chunks) == transports[|app.sources| + d].endpoint.wire
    ensures Gather(WireRequestOf, MessagesOf(DecodeAll(ProtocolB, DispatchedBy(ProtocolB, [], chunks)))) ==
            app.dests[d].sent
  {
    var k := |app.sources| + d;
    var endpoint := transports[k].endpoint;
    assert PeerAt(|app.sources|, k) == Venue(d);
    WireNow(app, transports, past, k, Venue(d));
    SentInState(app, past.run.states[|past.run.events|], d);
    VenueReadsSent(past, d, endpoint.start, endpoint.wire, chunks);
  }

  lemma VenueReadsSent(past: Past, d: nat, start: uint64, wire: seq<byte>, chunks: seq<seq<byte>>)
    requires IsPast(past) && Venue(d) in past.start && Known(past.run.states[|past.run.events|], Venue(d))
    requires ValidMessages(ProtocolB, SentTo(past, Venue(d)))
    requires Concat(chunks) == wire == EncodeAll(ProtocolB, start, SentTo(past, Venue(d)))
    ensures Gather(WireRequestOf, MessagesOf(DecodeAll(ProtocolB, DispatchedBy(ProtocolB, [], chunks)))) ==
            past.run.states[|past.run.events|].dests[d].sent
  {
    MessagesReachVenue(past.run, past.start, past.arrivals, d, start, chunks);
  }

  /** The requests that the sessions have handled for a client are those it encoded. */
  lemma ClientIsHeard(app: Application, transports: seq<TransportSingleThreaded>, past: Past, s: nat, talks: seq<Talk>)
    requires InStep(app, transports, past) && s < |app.sources|
    ensures Client(s) in past.start
    ensures past.start[Client(s)].length == 0 && AllCarry(ProtocolA, ConnectionsOf(past.arrivals, Client(s)), talks) ==>
              CarriedInto(past.run.events, Client(s)) == Asked(Gather(RequestOf, Said(talks)))
  {
    assert PeerAt(|app.sources|, s) in past.start;
    if past.start[Client(s)].length == 0 && AllCarry(ProtocolA, ConnectionsOf(past.arrivals, Client(s)), talks) {
      MessagesBecomeEvents(past.start, past.arrivals, Client(s), talks);
      RequestsAsk(s, Said(talks));
      CarriedByEvents(Timeline(past.start, past.arrivals), Client(s));
    }
  }

  /** The replies that the sessions have handled for a venue are those it encoded. */
  lemma VenueIsHeard(app: Application, transports: seq<TransportSingleThreaded>, past: Past, d: nat, talks: seq<Talk>)
    requires InStep(app, transports, past) && d < |app.dests|
    ensures Venue(d) in past.start
    ensures past.start[Venue(d)].length == 0 && AllCarry(ProtocolB, ConnectionsOf(past.arrivals, Venue(d)), talks) ==>
              CarriedInto(past.run.events, Venue(d)) == Told(Gather(WireReplyOf, Said(talks)))
  {
    assert PeerAt(|app.sources|, |app.sources| + d) in past.start;
    if past.start[Venue(d)].length == 0 && AllCarry(ProtocolB, ConnectionsOf(past.arrivals, Venue(d)), talks) {
      MessagesBecomeEvents(past.start, past.arrivals, Venue(d), talks);
      RepliesTell(d, Said(talks));
      CarriedByEvents(Timeline(past.start, past.arrivals), Venue(d));
    }
  }

  // ---------- From nothing ----------

  /** A connection of its own for a peer. */
  method Connect(p: Protocol) returns (t: TransportSingleThreaded)
    ensures fresh(Parts(t)) && Keeps(t, p, Memory(Zeros(CAPACITY), 0), [])
  {
    var store := new SequenceStore();
    var endpoint := new Endpoint(p, store);
    t := new TransportSingleThreaded(endpoint);
    assert Holds(t, p, Memory(Zeros(CAPACITY), 0), []);
  }

  method ConnectThree() returns (transports: seq<TransportSingleThreaded>, ghost memories: seq<Memory>)
    ensures |transports| == 3 && Separate(transports) && fresh(AllParts(transports))
    ensures AllKeep(2, transports, memories, Nothing(3))
    ensures forall k :: 0 <= k < 3 ==> memories[k] == Memory(Zeros(CAPACITY), 0)
  {
    ghost var m := Memory(Zeros(CAPACITY), 0);
    var a := Connect(ProtocolA);
    var b := Connect(ProtocolA);
    var c := Connect(ProtocolB);
    transports, memories := [a, b, c], [m, m, m];
    assert Keeps(a, ProtocolA, m, []) && Keeps(b, ProtocolA, m, []) && Keeps(c, ProtocolB, m, []);
    assert EachKeeps(2, transports, memories, Nothing(3));
  }

  /** Two clients and a venue, assembled and connected from nothing. */
  method Assemble() returns (app: Application, transports: seq<TransportSingleThreaded>, ghost past: Past)
    ensures |app.sources| == 2 && |app.dests| == 1 && InStep(app, transports, past)
    ensures fresh(AppObjects(app)) && fresh(AllParts(transports))
    ensures past.arrivals == [] && forall peer :: peer in past.start ==> past.start[peer].length == 0
    ensures past.run.events == [] && AllConnected(past.run.states[0])
  {
    ghost var memories;
    transports, memories := ConnectThree();
    label connected:
    app := NewSystem();
    assert unchanged@connected(AllParts(transports));
    assert AllKeep(2, transports, memories, Nothing(3));
    ghost var st := app.Abs();
    assert ValidIn(app, st);
    past := StartsInStep(app, transports, memories, st);
  }

  /** They serve whatever comes in. */
  method ServeTwoClientsOneVenue(offers: seq<Offer>)
    returns (app: Application, transports: seq<TransportSingleThreaded>, ghost past: Past)
    requires forall i :: 0 <= i < |offers| ==> offers[i].connection < 3 && LONGEST <= |offers[i].beyond|
    ensures |app.sources| == 2 && |app.dests| == 1 && InStep(app, transports, past)
    ensures |past.arrivals| == |offers|
    ensures forall i :: 0 <= i < |offers| ==> Takes(2, past.start, past.arrivals, i, offers[i])
    ensures forall peer :: peer in past.start ==> past.start[peer].length == 0
    ensures AllConnected(past.run.states[0])
  {
    ghost var first;
    app, transports, first := Assemble();
    past := Serve(app, transports, offers, first);
    forall i | 0 <= i < |offers|
      ensures Takes(2, past.start, past.arrivals, i, offers[i])
    {
      assert Takes(2, past.start, past.arrivals, |first.arrivals| + i, offers[i]);
    }
  }
}
