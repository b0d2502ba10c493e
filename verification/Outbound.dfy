/** From the routing system to bytes: what a run hands over reaches clients and venues. */
module Outbound {
  import opened Types
  import opened Arithmetic
  import opened Framing
  import opened Codec
  import opened Dispatch
  import opened Transport
  import opened History
  import opened Inbound
  import R = Routing

  /** Everything a session has handed to its transport so far, as messages. */
  function Output(st: R.State, peer: Peer): seq<Message>
    requires Known(st, peer)
  {
    match peer
    case Client(s) => MapAll(ClientMessageMessage, st.sources[s].handed)
    case Venue(d) => MapAll(WireRequestMessage, st.dests[d].sent)
  }

  lemma {:induction false} MapAllAdds<T>(write: T -> Message, a: seq<T>, b: seq<T>)
    ensures MapAll(write, a + b) == MapAll(write, a) + MapAll(write, b)
    decreases |a|
  {
    if a == [] {
      assert a + b == b;
    } else {
      assert (a + b)[1..] == a[1..] + b;
      MapAllAdds(write, a[1..], b);
    }
  }

  lemma StepAppendsToVenue(st: R.State, e: R.Event, d: nat)
    requires R.WellFormed(st) && R.Enabled(st, e) && d < |st.dests|
    ensures var after := R.Step(st, e).0; d < |after.dests| && st.dests[d].sent <= after.dests[d].sent
  {
    StepEffect(st, e);
    var (after, rec) := R.Step(st, e);
    assert DestChange(st.dests[d], after.dests[d], d, rec);
  }

  lemma StepAppendsToClient(st: R.State, e: R.Event, s: nat)
    requires R.WellFormed(st) && R.Enabled(st, e) && s < |st.sources|
    ensures var after := R.Step(st, e).0; s < |after.sources| && st.sources[s].handed <= after.sources[s].handed
  {
    R.StepKeepsWellFormed(st, e);
  }

  /** No step takes back what a session has handed to its transport. */
  lemma StepAppends(st: R.State, e: R.Event, peer: Peer)
    requires R.WellFormed(st) && R.Enabled(st, e) && Known(st, peer)
    ensures var after := R.Step(st, e).0; Known(after, peer) && Output(st, peer) <= Output(after, peer)
  {
    var after := R.Step(st, e).0;
    match peer
    case Client(s) =>
      StepAppendsToClient(st, e, s);
      var before, now := st.sources[s].handed, after.sources[s].handed;
      assert now == before + now[|before|..];
      MapAllAdds(ClientMessageMessage, before, now[|before|..]);
    case Venue(d) =>
      StepAppendsToVenue(st, e, d);
      var before, now := st.dests[d].sent, after.dests[d].sent;
      assert now == before + now[|before|..];
      MapAllAdds(WireRequestMessage, before, now[|before|..]);
  }

  /** The output of one peer's session in every state of a run. */
  function Outputs(states: seq<R.State>, peer: Peer): (outs: seq<seq<Message>>)
    requires forall n :: 0 <= n < |states| ==> Known(states[n], peer)
    ensures |outs| == |states|
  {
    seq(|states|, n requires 0 <= n < |states| => Output(states[n], peer))
  }

  predicate GrowsAt(outs: seq<seq<Message>>, n: nat) {
    n + 1 < |outs| ==> outs[n] <= outs[n + 1]
  }

  ghost predicate Grows(outs: seq<seq<Message>>) {
    forall n: nat :: GrowsAt(outs, n)
  }

  lemma OutputsGrow(r: Run, peer: Peer)
    requires IsRun(r) && Known(r.states[0], peer)
    ensures forall n :: 0 <= n < |r.states| ==> Known(r.states[n], peer)
    ensures Grows(Outputs(r.states, peer))
  {
    forall n | 0 <= n < |r.states|
      ensures Known(r.states[n], peer)
    {
      RunStaysWellFormed(r, n);
    }
    forall n: nat
      ensures GrowsAt(Outputs(r.states, peer), n)
    {
      if n < |r.events| {
        assert IsStep(r, n);
        StepAppends(r.states[n], r.events[n], peer);
      }
    }
  }

  /** How many events a tick is. */
  function Count(tick: Tick): nat {
    if tick.Happens? then 1 else 0
  }

  /** What goes out to a peer at one tick, i events after the start. */
  function Sends(peer: Peer, tick: Tick, outs: seq<seq<Message>>, i: nat): seq<Message>
    requires Grows(outs) && i + Count(tick) < |outs|
  {
    if tick.Answer? then (if tick.peer == peer then [tick.msg] else [])
    else
      assert GrowsAt(outs, i);
      outs[i + 1][|outs[i]|..]
  }

  /**
   * Everything an endpoint sends to its peer, in order: the answers of its protocol, and between them
   * what each event lets its session hand to the transport.
   */
  function Outgoing(peer: Peer, ticks: seq<Tick>, outs: seq<seq<Message>>, i: nat): seq<Message>
    requires Grows(outs) && i + |EventsIn(ticks)| < |outs|
    decreases |ticks|
  {
    if ticks == [] then []
    else Sends(peer, ticks[0], outs, i) + Outgoing(peer, ticks[1..], outs, i + Count(ticks[0]))
  }

  lemma {:induction false} GatherAdds<T>(parse: Message -> seq<T>, a: seq<Message>, b: seq<Message>)
    ensures Gather(parse, a + b) == Gather(parse, a) + Gather(parse, b)
    decreases |a|
  {
    if a == [] {
      assert a + b == b;
    } else {
      assert (a + b)[1..] == a[1..] + b;
      GatherAdds(parse, a[1..], b);
      Associate(parse(a[0]), Gather(parse, a[1..]), Gather(parse, b));
    }
  }

  lemma AnswerGathers<T>(first: seq<Message>, later: seq<Message>, parse: Message -> seq<T>)
    requires first == [] || (|first| == 1 && parse(first[0]) == [])
    ensures Gather(parse, first + later) == Gather(parse, later)
  {
    GatherAdds(parse, first, later);
    if first != [] {
      assert first[1..] == [];
    }
  }

  lemma PrefixGathers<T>(before: seq<Message>, after: seq<Message>, later: seq<Message>, total: seq<T>,
                         parse: Message -> seq<T>)
    requires before <= after && Gather(parse, after) + Gather(parse, later) == total
    ensures Gather(parse, before) + Gather(parse, after[|before|..] + later) == total
  {
    var added := after[|before|..];
    assert after == before + added;
    GatherAdds(parse, before, added);
    GatherAdds(parse, added, later);
    Associate(Gather(parse, before), Gather(parse, added), Gather(parse, later));
  }

  /** Reading a control message gives nothing. */
  ghost predicate SilentOnControls<T>(parse: Message -> seq<T>) {
    forall msg: Message :: IsControl(msg.kind) ==> parse(msg) == []
  }

  lemma SendsGather<T>(peer: Peer, tick: Tick, peers: set<Peer>, outs: seq<seq<Message>>, i: nat, later: seq<Message>,
                       total: seq<T>, parse: Message -> seq<T>)
    requires Grows(outs) && i + Count(tick) < |outs| && Owned(tick, peers) && SilentOnControls(parse)
    requires Gather(parse, outs[i + Count(tick)]) + Gather(parse, later) == total
    ensures Gather(parse, outs[i]) + Gather(parse, Sends(peer, tick, outs, i) + later) == total
  {
    if tick.Answer? {
      AnswerSends(peer, tick, peers, outs, i);
      assert parse(tick.msg) == [];
      AnswerGathers(Sends(peer, tick, outs, i), later, parse);
    } else {
      EventSends(peer, tick, outs, i);
      PrefixGathers(outs[i], outs[i + 1], later, total, parse);
    }
  }

  lemma AnswerSends(peer: Peer, tick: Tick, peers: set<Peer>, outs: seq<seq<Message>>, i: nat)
    requires Grows(outs) && i < |outs| && Owned(tick, peers) && tick.Answer?
    ensures Count(tick) == 0 && IsControl(tick.msg.kind)
    ensures Sends(peer, tick, outs, i) == [] || Sends(peer, tick, outs, i) == [tick.msg]
  {
  }

  lemma EventSends(peer: Peer, tick: Tick, outs: seq<seq<Message>>, i: nat)
    requires Grows(outs) && i + 1 < |outs| && tick.Happens?
    ensures Count(tick) == 1 && outs[i] <= outs[i + 1]
    ensures Sends(peer, tick, outs, i) == outs[i + 1][|outs[i]|..]
  {
    assert GrowsAt(outs, i);
  }

  /** Reading an endpoint's messages gives what its session handed over between event i and now. */
  lemma {:induction false} OutgoingGathers<T>(peer: Peer, ticks: seq<Tick>, peers: set<Peer>, outs: seq<seq<Message>>,
                                              i: nat, end: nat, parse: Message -> seq<T>)
    requires Grows(outs) && i + |EventsIn(ticks)| == end < |outs| && OwnedBy(ticks, peers)
    requires SilentOnControls(parse)
    ensures Gather(parse, outs[i]) + Gather(parse, Outgoing(peer, ticks, outs, i)) == Gather(parse, outs[end])
    decreases |ticks|
  {
    var total := Gather(parse, outs[end]);
    if ticks == [] {
      assert total + [] == total;
    } else {
      OwnedTail(ticks, peers);
      OutgoingGathers(peer, ticks[1..], peers, outs, i + Count(ticks[0]), end, parse);
      SendsGather(peer, ticks[0], peers, outs, i, Outgoing(peer, ticks[1..], outs, i + Count(ticks[0])), total, parse);
    }
  }

  lemma {:induction false} EventsInAdds(a: seq<Tick>, b: seq<Tick>)
    ensures EventsIn(a + b) == EventsIn(a) + EventsIn(b)
    decreases |a|
  {
    if a == [] {
      assert a + b == b;
    } else {
      assert (a + b)[1..] == a[1..] + b;
      EventsInAdds(a[1..], b);
      Associate(if a[0].Happens? then [a[0].event] else [], EventsIn(a[1..]), EventsIn(b));
    }
  }

  lemma OutgoingFirst(peer: Peer, tick: Tick, later: seq<Tick>, outs: seq<seq<Message>>, i: nat)
    requires Grows(outs) && i + Count(tick) + |EventsIn(later)| < |outs|
    ensures |EventsIn([tick] + later)| == Count(tick) + |EventsIn(later)|
    ensures Outgoing(peer, [tick] + later, outs, i) ==
            Sends(peer, tick, outs, i) + Outgoing(peer, later, outs, i + Count(tick))
  {
    assert ([tick] + later)[1..] == later;
  }

  lemma OutgoingAddsFirst(peer: Peer, head: Tick, tail: seq<Tick>, b: seq<Tick>, outs: seq<seq<Message>>, i: nat,
                          n: nat)
    requires Grows(outs) && n == |EventsIn(tail)| && |EventsIn(tail + b)| == n + |EventsIn(b)|
    requires i + Count(head) + n + |EventsIn(b)| < |outs|
    requires Outgoing(peer, tail + b, outs, i + Count(head)) ==
             Outgoing(peer, tail, outs, i + Count(head)) + Outgoing(peer, b, outs, i + Count(head) + n)
    ensures |EventsIn([head] + tail)| == Count(head) + n
    ensures |EventsIn([head] + (tail + b))| == Count(head) + n + |EventsIn(b)|
    ensures Outgoing(peer, [head] + (tail + b), outs, i) ==
            Outgoing(peer, [head] + tail, outs, i) + Outgoing(peer, b, outs, i + Count(head) + n)
  {
    OutgoingFirst(peer, head, tail, outs, i);
    OutgoingFirst(peer, head, tail + b, outs, i);
    Associate(Sends(peer, head, outs, i), Outgoing(peer, tail, outs, i + Count(head)),
              Outgoing(peer, b, outs, i + Count(head) + n));
  }

  lemma HeadAndTail(a: seq<Tick>, b: seq<Tick>)
    requires a != []
    ensures a == [a[0]] + a[1..] && a + b == [a[0]] + (a[1..] + b)
  {
  }

  lemma {:induction false} OutgoingAdds(peer: Peer, a: seq<Tick>, b: seq<Tick>, outs: seq<seq<Message>>, i: nat, n: nat)
    requires Grows(outs) && n == |EventsIn(a)| && i + n + |EventsIn(b)| < |outs|
    ensures |EventsIn(a + b)| == n + |EventsIn(b)|
    ensures Outgoing(peer, a + b, outs, i) == Outgoing(peer, a, outs, i) + Outgoing(peer, b, outs, i + n)
    decreases |a|
  {
    if a == [] {
      assert a + b == b;
    } else {
      EventsInAdds(a[1..], b);
      OutgoingAdds(peer, a[1..], b, outs, i + Count(a[0]), n - Count(a[0]));
      OutgoingAddsFirst(peer, a[0], a[1..], b, outs, i, n - Count(a[0]));
      HeadAndTail(a, b);
    }
  }

  /** One callback: what goes out to its own peer is the protocol's answer or the session's output. */
  lemma OwnReaction(peer: Peer, callback: Callback, valid: bool, outs: seq<seq<Message>>, i: nat)
    requires Grows(outs) && i + |EventsIn(TicksOf(peer, callback.delivery, valid))| < |outs|
    ensures var out := Outgoing(peer, TicksOf(peer, callback.delivery, valid), outs, i);
            out == Reaction(callback, out)
  {
    var ticks := TicksOf(peer, callback.delivery, valid);
    TicksOfCallback(peer, callback.delivery, valid);
    if ticks != [] {
      assert ticks[1..] == [];
    }
  }

  // ---------- A run that goes on ----------

  predicate IsFront(outs: seq<seq<Message>>, longer: seq<seq<Message>>) {
    |outs| <= |longer| && forall j :: 0 <= j < |outs| ==> longer[j] == outs[j]
  }

  /** What went out earlier stays as it was when the run goes on. */
  lemma {:induction false} OutgoingStays(peer: Peer, ticks: seq<Tick>, outs: seq<seq<Message>>,
                                         longer: seq<seq<Message>>, i: nat)
    requires IsFront(outs, longer) && Grows(outs) && Grows(longer) && i + |EventsIn(ticks)| < |outs|
    ensures Outgoing(peer, ticks, longer, i) == Outgoing(peer, ticks, outs, i)
    decreases |ticks|
  {
    if ticks != [] {
      OutgoingStays(peer, ticks[1..], outs, longer, i + Count(ticks[0]));
      SendsStay(peer, ticks[0], outs, longer, i);
    }
  }

  lemma SendsStay(peer: Peer, tick: Tick, outs: seq<seq<Message>>, longer: seq<seq<Message>>, i: nat)
    requires IsFront(outs, longer) && Grows(outs) && Grows(longer) && i + Count(tick) < |outs|
    ensures Sends(peer, tick, longer, i) == Sends(peer, tick, outs, i)
  {
    if tick.Happens? {
      assert longer[i] == outs[i] && longer[i + 1] == outs[i + 1];
    }
  }

  lemma OutgoingParts(peer: Peer, ticks: seq<Tick>, outs: seq<seq<Message>>, i: nat)
    requires Grows(outs) && ticks != [] && i + |EventsIn(ticks)| < |outs|
    ensures |EventsIn(ticks)| == Count(ticks[0]) + |EventsIn(ticks[1..])|
    ensures Outgoing(peer, ticks, outs, i) ==
            Sends(peer, ticks[0], outs, i) + Outgoing(peer, ticks[1..], outs, i + Count(ticks[0]))
  {
  }

  predicate SameAt(outs: seq<seq<Message>>, from: nat, tail: seq<seq<Message>>, j: nat) {
    j < |tail| && from + j < |outs| ==> tail[j] == outs[from + j]
  }

  ghost predicate IsTail(outs: seq<seq<Message>>, from: nat, tail: seq<seq<Message>>) {
    |outs| == from + |tail| && forall j: nat :: SameAt(outs, from, tail, j)
  }

  lemma SendsLater(peer: Peer, tick: Tick, outs: seq<seq<Message>>, from: nat, tail: seq<seq<Message>>, i: nat, j: nat)
    requires IsTail(outs, from, tail) && Grows(outs) && Grows(tail) && i + Count(tick) < |tail| && j == from + i
    ensures j + Count(tick) < |outs|
    ensures Sends(peer, tick, outs, j) == Sends(peer, tick, tail, i)
  {
    if tick.Happens? {
      assert SameAt(outs, from, tail, i) && SameAt(outs, from, tail, i + 1);
    }
  }

  /** Only what the session has sent from some state on matters for what goes out from there on. */
  lemma {:induction false} OutgoingLater(peer: Peer, ticks: seq<Tick>, outs: seq<seq<Message>>, from: nat,
                                         tail: seq<seq<Message>>, i: nat, j: nat)
    requires IsTail(outs, from, tail) && Grows(outs) && Grows(tail) && i + |EventsIn(ticks)| < |tail| && j == from + i
    ensures j + |EventsIn(ticks)| < |outs|
    ensures Outgoing(peer, ticks, outs, j) == Outgoing(peer, ticks, tail, i)
    decreases |ticks|
  {
    if ticks != [] {
      OutgoingParts(peer, ticks, tail, i);
      OutgoingLater(peer, ticks[1..], outs, from, tail, i + Count(ticks[0]), j + Count(ticks[0]));
      OutgoingParts(peer, ticks, outs, j);
      SendsLater(peer, ticks[0], outs, from, tail, i, j);
    }
  }

  lemma AddedTwice(a: seq<Message>, b: seq<Message>, c: seq<Message>, x: seq<Message>, y: seq<Message>)
    requires a <= b <= c && x == b[|a|..] && y == c[|b|..]
    ensures a <= c && x + y == c[|a|..]
  {
  }

  /** What reads on other connections let a session send goes out unmixed. */
  lemma {:induction false} OutgoingOfOthers(peer: Peer, ticks: seq<Tick>, peers: set<Peer>, outs: seq<seq<Message>>,
                                            i: nat, end: nat)
    requires Grows(outs) && i + |EventsIn(ticks)| == end < |outs| && OwnedBy(ticks, peers) && peer !in peers
    ensures outs[i] <= outs[end] && Outgoing(peer, ticks, outs, i) == outs[end][|outs[i]|..]
    decreases |ticks|
  {
    if ticks == [] {
      assert outs[end][|outs[end]|..] == [];
    } else {
      OwnedTail(ticks, peers);
      OutgoingParts(peer, ticks, outs, i);
      OutgoingOfOthers(peer, ticks[1..], peers, outs, i + Count(ticks[0]), end);
      SendsToOthers(peer, ticks[0], peers, outs, i);
      AddedTwice(outs[i], outs[i + Count(ticks[0])], outs[end], Sends(peer, ticks[0], outs, i),
                 Outgoing(peer, ticks[1..], outs, i + Count(ticks[0])));
    }
  }

  lemma SendsToOthers(peer: Peer, tick: Tick, peers: set<Peer>, outs: seq<seq<Message>>, i: nat)
    requires Grows(outs) && i + Count(tick) < |outs| && Owned(tick, peers) && peer !in peers
    ensures outs[i] <= outs[i + Count(tick)]
    ensures Sends(peer, tick, outs, i) == outs[i + Count(tick)][|outs[i]|..]
  {
    if tick.Happens? {
      EventSends(peer, tick, outs, i);
    }
  }

  // ---------- One read ----------

  /** What the callbacks of one read lead to, callback by callback. */
  function TickGroups(peer: Peer, callbacks: seq<Callback>, valid: nat -> bool, k: nat): (groups: seq<seq<Tick>>)
    ensures |groups| == |callbacks|
    ensures forall n :: 0 <= n < |groups| ==> groups[n] == TicksOf(peer, callbacks[n].delivery, valid(k + n))
  {
    seq(|callbacks|, n requires 0 <= n < |callbacks| => TicksOf(peer, callbacks[n].delivery, valid(k + n)))
  }

  function Join(groups: seq<seq<Tick>>): seq<Tick> {
    if groups == [] then [] else groups[0] + Join(groups[1..])
  }

  lemma {:induction false} GroupsJoin(peer: Peer, callbacks: seq<Callback>, valid: nat -> bool, k: nat)
    ensures Join(TickGroups(peer, callbacks, valid, k)) == Ticks(peer, Deliveries(callbacks), valid, k)
    decreases |callbacks|
  {
    if callbacks != [] {
      GroupsJoin(peer, callbacks[1..], valid, k + 1);
      assert Deliveries(callbacks)[1..] == Deliveries(callbacks[1..]);
      assert TickGroups(peer, callbacks, valid, k)[1..] == TickGroups(peer, callbacks[1..], valid, k + 1);
    }
  }

  function Events(groups: seq<seq<Tick>>): nat {
    |EventsIn(Join(groups))|
  }

  lemma EventsFirst(groups: seq<seq<Tick>>)
    requires groups != []
    ensures Events(groups) == |EventsIn(groups[0])| + Events(groups[1..])
  {
    EventsInAdds(groups[0], Join(groups[1..]));
  }

  lemma EventsOfPrefix(groups: seq<seq<Tick>>, n: nat)
    requires 0 < n <= |groups|
    ensures Events(groups[..n]) == |EventsIn(groups[0])| + Events(groups[1..][..n - 1])
  {
    assert groups[..n][1..] == groups[1..][..n - 1];
    EventsFirst(groups[..n]);
  }

  /** What the session sends at callback n: what the events of that callback let it send in the run. */
  function OutputAt(peer: Peer, groups: seq<seq<Tick>>, outs: seq<seq<Message>>, i: nat, n: nat): seq<Message>
    requires Grows(outs) && i + Events(groups) < |outs|
    decreases n
  {
    if groups == [] then []
    else
      EventsFirst(groups);
      if n == 0 then Outgoing(peer, groups[0], outs, i)
      else OutputAt(peer, groups[1..], outs, i + |EventsIn(groups[0])|, n - 1)
  }

  /** The same without recursion: the events of callback n come behind those of the callbacks before it. */
  ghost predicate IsOutputAt(peer: Peer, groups: seq<seq<Tick>>, outs: seq<seq<Message>>, i: nat, n: nat,
                             out: seq<Message>)
    requires Grows(outs) && n < |groups|
  {
    var at := i + Events(groups[..n]);
    at + |EventsIn(groups[n])| < |outs| && out == Outgoing(peer, groups[n], outs, at)
  }

  lemma {:induction false} OutputAtExactly(peer: Peer, groups: seq<seq<Tick>>, outs: seq<seq<Message>>, i: nat, n: nat)
    requires Grows(outs) && i + Events(groups) < |outs| && n < |groups|
    ensures IsOutputAt(peer, groups, outs, i, n, OutputAt(peer, groups, outs, i, n))
    decreases n
  {
    EventsFirst(groups);
    if n > 0 {
      OutputAtExactly(peer, groups[1..], outs, i + |EventsIn(groups[0])|, n - 1);
      EventsOfPrefix(groups, n);
    }
  }

  /** Outputs by position are those of the callbacks, counted from k on. */
  ghost predicate OutputsFrom(peer: Peer, groups: seq<seq<Tick>>, outs: seq<seq<Message>>, i: nat,
                              outputs: nat -> seq<Message>, k: nat)
    requires Grows(outs) && i + Events(groups) < |outs|
  {
    forall n: nat {:trigger OutputAt(peer, groups, outs, i, n)} ::
      outputs(k + n) == OutputAt(peer, groups, outs, i, n)
  }

  lemma OutputsFromNext(peer: Peer, groups: seq<seq<Tick>>, outs: seq<seq<Message>>, i: nat,
                        outputs: nat -> seq<Message>, k: nat)
    requires Grows(outs) && i + Events(groups) < |outs| && groups != []
    requires OutputsFrom(peer, groups, outs, i, outputs, k)
    ensures var next := i + |EventsIn(groups[0])|;
            && next + Events(groups[1..]) < |outs|
            && outputs(k) == Outgoing(peer, groups[0], outs, i)
            && OutputsFrom(peer, groups[1..], outs, next, outputs, k + 1)
  {
    EventsFirst(groups);
    var next := i + |EventsIn(groups[0])|;
    assert OutputAt(peer, groups, outs, i, 0) == outputs(k + 0);
    forall n: nat {:trigger OutputAt(peer, groups[1..], outs, next, n)}
      ensures outputs(k + 1 + n) == OutputAt(peer, groups[1..], outs, next, n)
    {
      assert OutputAt(peer, groups, outs, i, n + 1) == outputs(k + (n + 1));
    }
  }

  lemma OutgoingOfGroups(peer: Peer, groups: seq<seq<Tick>>, outs: seq<seq<Message>>, i: nat)
    requires Grows(outs) && i + Events(groups) < |outs| && groups != []
    ensures var next := i + |EventsIn(groups[0])|;
            && next + Events(groups[1..]) < |outs|
            && Outgoing(peer, Join(groups), outs, i) ==
               Outgoing(peer, groups[0], outs, i) + Outgoing(peer, Join(groups[1..]), outs, next)
  {
    EventsFirst(groups);
    OutgoingAdds(peer, groups[0], Join(groups[1..]), outs, i, |EventsIn(groups[0])|);
  }

  lemma GroupsLater(peer: Peer, callbacks: seq<Callback>, valid: nat -> bool, k: nat)
    requires callbacks != []
    ensures TickGroups(peer, callbacks, valid, k)[0] == TicksOf(peer, callbacks[0].delivery, valid(k))
    ensures TickGroups(peer, callbacks, valid, k)[1..] == TickGroups(peer, callbacks[1..], valid, k + 1)
  {
  }

  /** The output at the first callback, and then what goes out for the others. */
  lemma FirstIsOutgoing(peer: Peer, groups: seq<seq<Tick>>, outs: seq<seq<Message>>, i: nat,
                        outputs: nat -> seq<Message>, k: nat) returns (next: nat)
    requires Grows(outs) && groups != [] && i + Events(groups) < |outs|
    requires OutputsFrom(peer, groups, outs, i, outputs, k)
    ensures next + Events(groups[1..]) < |outs| && OutputsFrom(peer, groups[1..], outs, next, outputs, k + 1)
    ensures i + |EventsIn(groups[0])| < |outs| && outputs(k) == Outgoing(peer, groups[0], outs, i)
    ensures Outgoing(peer, Join(groups), outs, i) == outputs(k) + Outgoing(peer, Join(groups[1..]), outs, next)
  {
    OutgoingOfGroups(peer, groups, outs, i);
    OutputsFromNext(peer, groups, outs, i, outputs, k);
    next := i + |EventsIn(groups[0])|;
  }

  lemma {:induction false} ReactionsAreOutgoing(peer: Peer, callbacks: seq<Callback>, valid: nat -> bool, k: nat,
                                                outs: seq<seq<Message>>, i: nat, outputs: nat -> seq<Message>)
    requires var groups := TickGroups(peer, callbacks, valid, k);
             Grows(outs) && i + Events(groups) < |outs| && OutputsFrom(peer, groups, outs, i, outputs, k)
    ensures Reactions(callbacks, outputs, k) == Outgoing(peer, Join(TickGroups(peer, callbacks, valid, k)), outs, i)
    decreases |callbacks|
  {
    if callbacks != [] {
      GroupsLater(peer, callbacks, valid, k);
      var next := FirstIsOutgoing(peer, TickGroups(peer, callbacks, valid, k), outs, i, outputs, k);
      OwnReaction(peer, callbacks[0], valid(k), outs, i);
      ReactionsAreOutgoing(peer, callbacks[1..], valid, k + 1, outs, next, outputs);
    }
  }

  lemma ValidAdds(p: Protocol, a: seq<Message>, b: seq<Message>)
    requires ValidMessages(p, a) && ValidMessages(p, b)
    ensures ValidMessages(p, a + b)
  {
  }

  lemma OutputValid(st: R.State, peer: Peer)
    requires Known(st, peer)
    ensures ValidMessages(ProtocolOf(peer), Output(st, peer))
  {
    match peer
    case Client(s) =>
      ClientMessageLayout();
      LayoutIsValid(ProtocolA, st.sources[s].handed, ClientMessageMessage, ClientMessageOf);
    case Venue(d) =>
      WireRequestLayout();
      LayoutIsValid(ProtocolB, st.dests[d].sent, WireRequestMessage, WireRequestOf);
  }

  lemma AddedValid(p: Protocol, before: seq<Message>, after: seq<Message>)
    requires |before| <= |after| && ValidMessages(p, after)
    ensures ValidMessages(p, after[|before|..])
  {
  }

  lemma ControlValid(p: Protocol, msg: Message)
    requires IsControl(msg.kind) && msg.words == [0, 0]
    ensures ValidMessage(p, msg)
  {
    Powers();
  }

  ghost predicate AllValid(p: Protocol, outs: seq<seq<Message>>) {
    forall n {:trigger ValidMessages(p, outs[n])} :: 0 <= n < |outs| ==> ValidMessages(p, outs[n])
  }

  lemma SendsValid(p: Protocol, peer: Peer, tick: Tick, peers: set<Peer>, outs: seq<seq<Message>>, i: nat)
    requires Grows(outs) && AllValid(p, outs) && i + Count(tick) < |outs| && Owned(tick, peers)
    ensures ValidMessages(p, Sends(peer, tick, outs, i))
  {
    if tick.Answer? {
      ControlValid(p, tick.msg);
    } else {
      assert GrowsAt(outs, i) && ValidMessages(p, outs[i + 1]);
      AddedValid(p, outs[i], outs[i + 1]);
    }
  }

  lemma FirstValid(p: Protocol, peer: Peer, ticks: seq<Tick>, outs: seq<seq<Message>>, i: nat)
    requires Grows(outs) && ticks != [] && i + |EventsIn(ticks)| < |outs|
    requires ValidMessages(p, Sends(peer, ticks[0], outs, i))
    requires ValidMessages(p, Outgoing(peer, ticks[1..], outs, i + Count(ticks[0])))
    ensures ValidMessages(p, Outgoing(peer, ticks, outs, i))
  {
    ValidAdds(p, Sends(peer, ticks[0], outs, i), Outgoing(peer, ticks[1..], outs, i + Count(ticks[0])));
  }

  /** Everything an endpoint sends has its protocol's layout. */
  lemma {:induction false} OutgoingValid(p: Protocol, peer: Peer, ticks: seq<Tick>, peers: set<Peer>,
                                         outs: seq<seq<Message>>, i: nat)
    requires Grows(outs) && AllValid(p, outs) && i + |EventsIn(ticks)| < |outs| && OwnedBy(ticks, peers)
    ensures ValidMessages(p, Outgoing(peer, ticks, outs, i))
    decreases |ticks|
  {
    if ticks != [] {
      OwnedTail(ticks, peers);
      SendsValid(p, peer, ticks[0], peers, outs, i);
      OutgoingValid(p, peer, ticks[1..], peers, outs, i + Count(ticks[0]));
      FirstValid(p, peer, ticks, outs, i);
    }
  }

  lemma CallbackOwned(peer: Peer, delivery: Delivery, valid: bool)
    ensures OwnedBy(TicksOf(peer, delivery, valid), {peer})
  {
    PayloadsFit(peer, delivery);
    EventsOwned(peer, PayloadsIn(peer, delivery), valid);
  }

  lemma {:induction false} OutputAtValid(peer: Peer, groups: seq<seq<Tick>>, outs: seq<seq<Message>>, i: nat, n: nat)
    requires Grows(outs) && AllValid(ProtocolOf(peer), outs) && i + Events(groups) < |outs|
    requires forall j :: 0 <= j < |groups| ==> OwnedBy(groups[j], {peer})
    ensures ValidMessages(ProtocolOf(peer), OutputAt(peer, groups, outs, i, n))
    decreases n
  {
    if groups != [] {
      EventsFirst(groups);
      if n == 0 {
        OutgoingValid(ProtocolOf(peer), peer, groups[0], {peer}, outs, i);
      } else {
        OutputAtValid(peer, groups[1..], outs, i + |EventsIn(groups[0])|, n - 1);
      }
    }
  }

  lemma RoomForEvents(peer: Peer, callbacks: seq<Callback>, valid: nat -> bool)
    ensures Events(TickGroups(peer, callbacks, valid, 0)) == |EventsIn(Ticks(peer, Deliveries(callbacks), valid, 0))|
  {
    GroupsJoin(peer, callbacks, valid, 0);
  }

  /** What a peer's session sends in return for the callbacks of one read, by position. */
  function OwnOutputs(peer: Peer, callbacks: seq<Callback>, valid: nat -> bool, outs: seq<seq<Message>>, i: nat)
    : nat -> seq<Message>
    requires Grows(outs) && i + |EventsIn(Ticks(peer, Deliveries(callbacks), valid, 0))| < |outs|
  {
    RoomForEvents(peer, callbacks, valid);
    (n: nat) => OutputAt(peer, TickGroups(peer, callbacks, valid, 0), outs, i, n)
  }

  /**
   * What one read sends back to its own peer is the interleaving that the endpoint's methods promise:
   * the protocol's answers, and at each callback what the run's steps for that callback's events let
   * the session send, all of it messages that the endpoint can send.
   */
  lemma OwnReactions(peer: Peer, callbacks: seq<Callback>, valid: nat -> bool, outs: seq<seq<Message>>, i: nat)
    requires Grows(outs) && i + |EventsIn(Ticks(peer, Deliveries(callbacks), valid, 0))| < |outs|
    ensures var groups, outputs := TickGroups(peer, callbacks, valid, 0), OwnOutputs(peer, callbacks, valid, outs, i);
            && Reactions(callbacks, outputs, 0) ==
               Outgoing(peer, Ticks(peer, Deliveries(callbacks), valid, 0), outs, i)
            && (forall n :: 0 <= n < |callbacks| ==> IsOutputAt(peer, groups, outs, i, n, outputs(n)))
            && (AllValid(ProtocolOf(peer), outs) ==> ValidOutputs(ProtocolOf(peer), outputs))
  {
    var groups, outputs := TickGroups(peer, callbacks, valid, 0), OwnOutputs(peer, callbacks, valid, outs, i);
    GroupsJoin(peer, callbacks, valid, 0);
    ReactionsAreOutgoing(peer, callbacks, valid, 0, outs, i, outputs);
    forall n | 0 <= n < |callbacks|
      ensures IsOutputAt(peer, groups, outs, i, n, outputs(n))
    {
      OutputAtExactly(peer, groups, outs, i, n);
    }
    if AllValid(ProtocolOf(peer), outs) {
      OwnOutputsValid(peer, callbacks, valid, outs, i);
    }
  }

  lemma OwnOutputsValid(peer: Peer, callbacks: seq<Callback>, valid: nat -> bool, outs: seq<seq<Message>>, i: nat)
    requires Grows(outs) && i + |EventsIn(Ticks(peer, Deliveries(callbacks), valid, 0))| < |outs|
    requires AllValid(ProtocolOf(peer), outs)
    ensures ValidOutputs(ProtocolOf(peer), OwnOutputs(peer, callbacks, valid, outs, i))
  {
    var groups, outputs := TickGroups(peer, callbacks, valid, 0), OwnOutputs(peer, callbacks, valid, outs, i);
    RoomForEvents(peer, callbacks, valid);
    forall j | 0 <= j < |groups|
      ensures OwnedBy(groups[j], {peer})
    {
      CallbackOwned(peer, callbacks[j].delivery, valid(j));
    }
    forall n: nat
      ensures ValidMessages(ProtocolOf(peer), outputs(n))
    {
      OutputAtValid(peer, groups, outs, i, n);
    }
  }

  /** Under any split of its bytes, an endpoint's peer reads what the session handed over, and nothing else. */
  lemma PeerReads<T(!new)>(p: Protocol, peer: Peer, ticks: seq<Tick>, peers: set<Peer>, outs: seq<seq<Message>>,
                           last: uint64, chunks: seq<seq<byte>>, parse: Message -> seq<T>)
    requires Grows(outs) && AllValid(p, outs) && |EventsIn(ticks)| == |outs| - 1 && OwnedBy(ticks, peers)
    requires SilentOnControls(parse) && outs[0] == []
    ensures Shaped(p, Outgoing(peer, ticks, outs, 0))
    ensures Concat(chunks) == EncodeAll(p, last, Outgoing(peer, ticks, outs, 0)) ==>
              Gather(parse, MessagesOf(DecodeAll(p, DispatchedBy(p, [], chunks)))) == Gather(parse, outs[|outs| - 1])
  {
    var msgs := Outgoing(peer, ticks, outs, 0);
    OutgoingValid(p, peer, ticks, peers, outs, 0);
    OutgoingGathers(peer, ticks, peers, outs, 0, |outs| - 1, parse);
    if Concat(chunks) == EncodeAll(p, last, msgs) {
      StreamDelivery(p, last, msgs, chunks);
      MessagesStamped(last, msgs);
    }
  }

  lemma OutputsValid(r: Run, peer: Peer)
    requires IsRun(r) && Known(r.states[0], peer)
    ensures forall n :: 0 <= n < |r.states| ==> Known(r.states[n], peer)
    ensures AllValid(ProtocolOf(peer), Outputs(r.states, peer))
  {
    OutputsGrow(r, peer);
    forall n | 0 <= n < |r.states|
      ensures ValidMessages(ProtocolOf(peer), Outputs(r.states, peer)[n])
    {
      OutputValid(r.states[n], peer);
    }
  }

  lemma ClientReads(r: Run, s: nat)
    requires IsRun(r) && s < |r.states[0].sources|
    ensures SilentOnControls(ClientMessageOf)
    ensures forall n :: 0 <= n < |r.states| ==> Known(r.states[n], Client(s))
    ensures var outs := Outputs(r.states, Client(s));
            && Grows(outs) && AllValid(ProtocolA, outs) && outs[0] == []
            && Gather(ClientMessageOf, outs[|outs| - 1]) == r.states[|r.events|].sources[s].handed
  {
    OutputsGrow(r, Client(s));
    OutputsValid(r, Client(s));
    ClientMessageLayout();
    GatherWritten(ProtocolA, r.states[|r.events|].sources[s].handed, ClientMessageMessage, ClientMessageOf);
    assert InitialSource(r.states[0].sources[s], |r.states[0].dests|);
  }

  lemma VenueReads(r: Run, d: nat)
    requires IsRun(r) && d < |r.states[0].dests|
    ensures SilentOnControls(WireRequestOf)
    ensures forall n :: 0 <= n < |r.states| ==> Known(r.states[n], Venue(d))
    ensures var outs := Outputs(r.states, Venue(d));
            && Grows(outs) && AllValid(ProtocolB, outs) && outs[0] == []
            && Gather(WireRequestOf, outs[|outs| - 1]) == r.states[|r.events|].dests[d].sent
  {
    OutputsGrow(r, Venue(d));
    OutputsValid(r, Venue(d));
    WireRequestLayout();
    GatherWritten(ProtocolB, r.states[|r.events|].dests[d].sent, WireRequestMessage, WireRequestOf);
    assert InitialDest(r.states[0].dests[d]);
  }

  /** What the endpoint of a peer sends over a run whose events are those of the ticks. */
  ghost function SentOver(r: Run, peer: Peer, ticks: seq<Tick>): seq<Message>
    requires IsRun(r) && r.events == EventsIn(ticks) && Known(r.states[0], peer)
  {
    OutputsGrow(r, peer);
    Outgoing(peer, ticks, Outputs(r.states, peer), 0)
  }

  /** From the run to a client: it reads exactly what its session handed over, among the answers to its logons. */
  lemma MessagesReachClient(r: Run, memories: map<Peer, Memory>, arrivals: seq<Arrival>, s: nat, last: uint64,
                            chunks: seq<seq<byte>>)
    requires IsRun(r) && AllFit(memories, arrivals) && r.events == EventsIn(Timeline(memories, arrivals))
    requires s < |r.states[0].sources| && s < |r.states[|r.events|].sources|
    ensures Shaped(ProtocolA, SentOver(r, Client(s), Timeline(memories, arrivals)))
    ensures Concat(chunks) == EncodeAll(ProtocolA, last, SentOver(r, Client(s), Timeline(memories, arrivals))) ==>
              Gather(ClientMessageOf, MessagesOf(DecodeAll(ProtocolA, DispatchedBy(ProtocolA, [], chunks)))) ==
              r.states[|r.events|].sources[s].handed
  {
    ClientReads(r, s);
    TimelineOwned(memories, arrivals);
    PeerReads(ProtocolA, Client(s), Timeline(memories, arrivals), memories.Keys, Outputs(r.states, Client(s)), last,
              chunks, ClientMessageOf);
  }

  /** From the run to a venue: it reads exactly the forwarded requests. */
  lemma MessagesReachVenue(r: Run, memories: map<Peer, Memory>, arrivals: seq<Arrival>, d: nat, last: uint64,
                           chunks: seq<seq<byte>>)
    requires IsRun(r) && AllFit(memories, arrivals) && r.events == EventsIn(Timeline(memories, arrivals))
    requires d < |r.states[0].dests| && d < |r.states[|r.events|].dests|
    ensures Shaped(ProtocolB, SentOver(r, Venue(d), Timeline(memories, arrivals)))
    ensures Concat(chunks) == EncodeAll(ProtocolB, last, SentOver(r, Venue(d), Timeline(memories, arrivals))) ==>
              Gather(WireRequestOf, MessagesOf(DecodeAll(ProtocolB, DispatchedBy(ProtocolB, [], chunks)))) ==
              r.states[|r.events|].dests[d].sent
  {
    VenueReads(r, d);
    TimelineOwned(memories, arrivals);
    PeerReads(ProtocolB, Venue(d), Timeline(memories, arrivals), memories.Keys, Outputs(r.states, Venue(d)), last,
              chunks, WireRequestOf);
  }

  // ---------- Answers ----------

  /** What a peer reads as a message of the protocol itself. */
  function ControlOf(msg: Message): seq<Message> {
    match msg.kind
    case Logon => [msg]
    case Logout => [msg]
    case Heartbeat => [msg]
    case _ => []
  }

  /** And what as one of the session. */
  function SessionOf(msg: Message): seq<Message> {
    if ControlOf(msg) == [] then [msg] else []
  }

  /** The answers that messages call for: a logon without content to each logon, a logout to each logout. */
  function Answers(msgs: seq<Message>): seq<Message> {
    if msgs == [] then []
    else
      (match msgs[0].kind
       case Logon => [Message(Logon, [0, 0])]
       case Logout => [Message(Logout, [0, 0])]
       case _ => []) + Answers(msgs[1..])
  }

  function AnswersIn(payloads: seq<Payload>): seq<Message> {
    if payloads == [] then []
    else (if payloads[0].Answered? then [payloads[0].msg] else []) + AnswersIn(payloads[1..])
  }

  lemma {:induction false} AnswersInAdds(a: seq<Payload>, b: seq<Payload>)
    ensures AnswersIn(a + b) == AnswersIn(a) + AnswersIn(b)
    decreases |a|
  {
    if a == [] {
      assert a + b == b;
    } else {
      assert (a + b)[1..] == a[1..] + b;
      AnswersInAdds(a[1..], b);
      Associate(if a[0].Answered? then [a[0].msg] else [], AnswersIn(a[1..]), AnswersIn(b));
    }
  }

  lemma {:induction false} NoAnswersIn(payloads: seq<Payload>)
    requires forall i :: 0 <= i < |payloads| ==> !payloads[i].Answered?
    ensures AnswersIn(payloads) == []
    decreases |payloads|
  {
    if payloads != [] {
      NoAnswersIn(payloads[1..]);
    }
  }

  lemma AnswerInTrace(peer: Peer, msg: Message)
    ensures AnswersIn(TraceOf(peer, msg)) == Answers([msg])
  {
    NoAnswersIn(Asked(RequestOf(msg)));
    NoAnswersIn(Told(WireReplyOf(msg)));
    assert [Answered(Message(msg.kind, [0, 0]))][1..] == [] && [msg][1..] == [];
  }

  lemma {:induction false} AnswersInTraces(peer: Peer, msgs: seq<Message>)
    ensures AnswersIn(Traces(peer, msgs)) == Answers(msgs)
    decreases |msgs|
  {
    if msgs != [] {
      AnswersInTraces(peer, msgs[1..]);
      AnswerInTrace(peer, msgs[0]);
      AnswersInAdds(TraceOf(peer, msgs[0]), Traces(peer, msgs[1..]));
      assert [msgs[0]][1..] == [];
    }
  }

  predicate NoControls(msgs: seq<Message>) {
    forall i :: 0 <= i < |msgs| ==> ControlOf(msgs[i]) == []
  }

  lemma {:induction false} NothingControlled(msgs: seq<Message>)
    requires NoControls(msgs)
    ensures Gather(ControlOf, msgs) == [] && Gather(SessionOf, msgs) == msgs
    decreases |msgs|
  {
    if msgs != [] {
      NothingControlled(msgs[1..]);
    }
  }

  /** Sessions send no control messages. */
  ghost predicate SessionsOnly(outs: seq<seq<Message>>) {
    forall n {:trigger NoControls(outs[n])} :: 0 <= n < |outs| ==> NoControls(outs[n])
  }

  lemma OutputsOfSessions(r: Run, peer: Peer)
    requires IsRun(r) && forall n :: 0 <= n < |r.states| ==> Known(r.states[n], peer)
    ensures SessionsOnly(Outputs(r.states, peer))
  {
  }

  lemma SendsControls(peer: Peer, tick: Tick, peers: set<Peer>, outs: seq<seq<Message>>, i: nat)
    requires Grows(outs) && SessionsOnly(outs) && i + Count(tick) < |outs| && Owned(tick, peers)
    ensures Gather(ControlOf, Sends(peer, tick, outs, i)) == AnswersIn(CarriedBy(tick, peer))
  {
    if tick.Answer? {
      OneControl(tick.msg);
    } else {
      assert GrowsAt(outs, i) && NoControls(outs[i + 1]);
      NothingControlled(Sends(peer, tick, outs, i));
      NoAnswersIn(CarriedBy(tick, peer));
    }
  }

  lemma OneControl(msg: Message)
    requires IsControl(msg.kind)
    ensures Gather(ControlOf, [msg]) == [msg] && AnswersIn([Answered(msg)]) == [msg]
    ensures Gather(ControlOf, []) == [] && AnswersIn([]) == []
  {
    assert [msg][1..] == [] && [Answered(msg)][1..] == [];
  }

  /** The control messages that go out to a peer are the answers to it. */
  lemma {:induction false} OutgoingControls(peer: Peer, ticks: seq<Tick>, peers: set<Peer>, outs: seq<seq<Message>>,
                                            i: nat)
    requires Grows(outs) && SessionsOnly(outs) && i + |EventsIn(ticks)| < |outs| && OwnedBy(ticks, peers)
    ensures Gather(ControlOf, Outgoing(peer, ticks, outs, i)) == AnswersIn(Carried(ticks, peer))
    decreases |ticks|
  {
    if ticks != [] {
      OwnedTail(ticks, peers);
      OutgoingParts(peer, ticks, outs, i);
      OutgoingControls(peer, ticks[1..], peers, outs, i + Count(ticks[0]));
      SendsControls(peer, ticks[0], peers, outs, i);
      ControlsTogether(Sends(peer, ticks[0], outs, i), Outgoing(peer, ticks[1..], outs, i + Count(ticks[0])),
                       CarriedBy(ticks[0], peer), Carried(ticks[1..], peer));
    }
  }

  lemma ControlsTogether(a: seq<Message>, b: seq<Message>, x: seq<Payload>, y: seq<Payload>)
    requires Gather(ControlOf, a) == AnswersIn(x) && Gather(ControlOf, b) == AnswersIn(y)
    ensures Gather(ControlOf, a + b) == AnswersIn(x + y)
  {
    GatherAdds(ControlOf, a, b);
    AnswersInAdds(x, y);
  }

  /** Everything sent to a peer, its bytes read back under any split. */
  lemma SentIsRead(p: Protocol, last: uint64, msgs: seq<Message>, chunks: seq<seq<byte>>)
    requires ValidMessages(p, msgs) && Concat(chunks) == EncodeAll(p, last, msgs)
    ensures MessagesOf(DecodeAll(p, DispatchedBy(p, [], chunks))) == msgs
  {
    StreamDelivery(p, last, msgs, chunks);
    MessagesStamped(last, msgs);
  }

  /** A peer is answered exactly what its messages call for, in order. */
  lemma AnswersSent(r: Run, memories: map<Peer, Memory>, arrivals: seq<Arrival>, peer: Peer, talks: seq<Talk>)
    requires IsRun(r) && AllFit(memories, arrivals) && r.events == EventsIn(Timeline(memories, arrivals))
    requires Known(r.states[0], peer) && peer in memories && memories[peer].length == 0
    requires AllCarry(ProtocolOf(peer), ConnectionsOf(arrivals, peer), talks)
    ensures Gather(ControlOf, SentOver(r, peer, Timeline(memories, arrivals))) == Answers(Said(talks))
  {
    OutputsGrow(r, peer);
    OutputsOfSessions(r, peer);
    TimelineOwned(memories, arrivals);
    OutgoingControls(peer, Timeline(memories, arrivals), memories.Keys, Outputs(r.states, peer), 0);
    MessagesBecomeEvents(memories, arrivals, peer, talks);
    AnswersInTraces(peer, Said(talks));
  }

  lemma FirstOfThree<T>(head: T, later: seq<T>, before: seq<T>, x: T, after: seq<T>)
    requires [head] + later == before + [x] + after
    ensures before == [] ==> head == x && later == after
    ensures before != [] ==> head == before[0] && later == before[1..] + [x] + after
  {
    assert later == ([head] + later)[1..];
    if before == [] {
      assert before + [x] + after == [x] + after;
    } else {
      assert before + [x] + after == [before[0]] + (before[1..] + [x] + after);
    }
  }

  lemma CarriedFurther(ticks: seq<Tick>, peer: Peer, m: nat, before: seq<Payload>, after: seq<Payload>)
    requires m + 1 < |ticks| && Carried(ticks[1..][..m], peer) == before
    requires Carried(ticks[1..][m + 1..], peer) == after
    ensures Carried(ticks[..m + 1], peer) == CarriedBy(ticks[0], peer) + before
    ensures Carried(ticks[m + 2..], peer) == after
  {
    assert ticks[..m + 1][1..] == ticks[1..][..m];
    assert ticks[1..][m + 1..] == ticks[m + 2..];
  }

  lemma CarriedAtMostOnce(tick: Tick, peer: Peer)
    ensures CarriedBy(tick, peer) == [] || CarriedBy(tick, peer) == [CarriedBy(tick, peer)[0]]
    ensures forall msg :: CarriedBy(tick, peer) == [Answered(msg)] ==> tick == Answer(peer, msg)
  {
  }

  /** Where in the ticks an answer stands. */
  lemma {:induction false} AnswerTick(ticks: seq<Tick>, peer: Peer, before: seq<Payload>, msg: Message,
                                      after: seq<Payload>) returns (n: nat)
    requires Carried(ticks, peer) == before + [Answered(msg)] + after
    ensures n < |ticks| && ticks[n] == Answer(peer, msg)
    ensures Carried(ticks[..n], peer) == before && Carried(ticks[n + 1..], peer) == after
    decreases |ticks|, 1
  {
    var first, later := CarriedBy(ticks[0], peer), Carried(ticks[1..], peer);
    CarriedAtMostOnce(ticks[0], peer);
    if first == [] {
      assert later == before + [Answered(msg)] + after;
      var m := AnswerTick(ticks[1..], peer, before, msg, after);
      CarriedFurther(ticks, peer, m, before, after);
      n := m + 1;
    } else {
      FirstOfThree(first[0], later, before, Answered(msg), after);
      if before == [] {
        n := 0;
      } else {
        n := LaterAnswerTick(ticks, peer, before, msg, after);
      }
    }
  }

  lemma {:induction false} LaterAnswerTick(ticks: seq<Tick>, peer: Peer, before: seq<Payload>, msg: Message,
                                           after: seq<Payload>) returns (n: nat)
    requires ticks != [] && before != [] && CarriedBy(ticks[0], peer) == [before[0]]
    requires Carried(ticks[1..], peer) == before[1..] + [Answered(msg)] + after
    ensures n < |ticks| && ticks[n] == Answer(peer, msg)
    ensures Carried(ticks[..n], peer) == before && Carried(ticks[n + 1..], peer) == after
    decreases |ticks|, 0
  {
    var m := AnswerTick(ticks[1..], peer, before[1..], msg, after);
    CarriedFurther(ticks, peer, m, before[1..], after);
    n := m + 1;
    assert before == [before[0]] + before[1..];
  }

  lemma {:induction false} TracesAdd(peer: Peer, a: seq<Message>, b: seq<Message>)
    ensures Traces(peer, a + b) == Traces(peer, a) + Traces(peer, b)
    decreases |a|
  {
    if a == [] {
      assert a + b == b;
    } else {
      assert (a + b)[1..] == a[1..] + b;
      TracesAdd(peer, a[1..], b);
      Associate(TraceOf(peer, a[0]), Traces(peer, a[1..]), Traces(peer, b));
    }
  }

  lemma TracesAround(peer: Peer, before: seq<Message>, msg: Message, after: seq<Message>)
    requires msg.kind.Logon? || msg.kind.Logout?
    ensures Traces(peer, before + [msg] + after) ==
            Traces(peer, before) + [Answered(Message(msg.kind, [0, 0]))] + Traces(peer, after)
  {
    TracesAdd(peer, before + [msg], after);
    TracesAdd(peer, before, [msg]);
    TraceOfOne(peer, msg);
  }

  lemma TraceOfOne(peer: Peer, msg: Message)
    ensures Traces(peer, [msg]) == TraceOf(peer, msg)
  {
    assert [msg][1..] == [] && TraceOf(peer, msg) + [] == TraceOf(peer, msg);
  }

  /** The events around a tick that is none. */
  lemma EventsAround(ticks: seq<Tick>, k: nat)
    requires k < |ticks| && ticks[k].Answer?
    ensures var n, events := |EventsIn(ticks[..k])|, EventsIn(ticks);
            && |events| == n + |EventsIn(ticks[k + 1..])|
            && events[..n] == EventsIn(ticks[..k]) && events[n..] == EventsIn(ticks[k + 1..])
            && EventsIn([ticks[k]] + ticks[k + 1..]) == EventsIn(ticks[k + 1..])
  {
    assert ticks == ticks[..k] + ([ticks[k]] + ticks[k + 1..]);
    EventsInAdds(ticks[..k], [ticks[k]] + ticks[k + 1..]);
    assert ([ticks[k]] + ticks[k + 1..])[1..] == ticks[k + 1..];
  }

  /** What goes out around an answer. */
  lemma OutgoingAround(peer: Peer, ticks: seq<Tick>, k: nat, msg: Message, outs: seq<seq<Message>>, n: nat)
    requires Grows(outs) && k < |ticks| && ticks[k] == Answer(peer, msg)
    requires n == |EventsIn(ticks[..k])| && |EventsIn(ticks)| < |outs|
    ensures n + |EventsIn(ticks[k + 1..])| == |EventsIn(ticks)|
    ensures Outgoing(peer, ticks, outs, 0) ==
            Outgoing(peer, ticks[..k], outs, 0) + [msg] + Outgoing(peer, ticks[k + 1..], outs, n)
  {
    var rest := [ticks[k]] + ticks[k + 1..];
    EventsAround(ticks, k);
    assert ticks == ticks[..k] + rest;
    OutgoingAdds(peer, ticks[..k], rest, outs, 0, n);
    OutgoingFirst(peer, ticks[k], ticks[k + 1..], outs, n);
    Associate(Outgoing(peer, ticks[..k], outs, 0), [msg], Outgoing(peer, ticks[k + 1..], outs, n));
  }

  lemma OwnedPrefix(ticks: seq<Tick>, peers: set<Peer>, k: nat)
    requires OwnedBy(ticks, peers) && k <= |ticks|
    ensures OwnedBy(ticks[..k], peers)
  {
    forall i | 0 <= i < k
      ensures Owned(ticks[..k][i], peers)
    {
      assert Owned(ticks[i], peers);
    }
  }

  lemma SentBefore(peer: Peer, ticks: seq<Tick>, k: nat, peers: set<Peer>, outs: seq<seq<Message>>, n: nat)
    requires Grows(outs) && SessionsOnly(outs) && OwnedBy(ticks, peers) && k <= |ticks|
    requires n == |EventsIn(ticks[..k])| < |outs| && outs[0] == []
    ensures Gather(SessionOf, Outgoing(peer, ticks[..k], outs, 0)) == outs[n]
  {
    OwnedPrefix(ticks, peers, k);
    OutgoingGathers(peer, ticks[..k], peers, outs, 0, n, SessionOf);
    assert NoControls(outs[n]);
    NothingControlled(outs[n]);
  }

  lemma NoOutputFirst(r: Run, peer: Peer)
    requires IsRun(r) && Known(r.states[0], peer)
    ensures Output(r.states[0], peer) == []
  {
    match peer
    case Client(s) => assert InitialSource(r.states[0].sources[s], |r.states[0].dests|);
    case Venue(d) => assert InitialDest(r.states[0].dests[d]);
  }

  lemma SentAround(r: Run, ticks: seq<Tick>, k: nat, peer: Peer, peers: set<Peer>, n: nat)
    returns (earlier: seq<Message>, later: seq<Message>)
    requires IsRun(r) && r.events == EventsIn(ticks) && Known(r.states[0], peer) && OwnedBy(ticks, peers)
    requires k < |ticks| && ticks[k].Answer? && ticks[k].peer == peer && n == |EventsIn(ticks[..k])|
    ensures n <= |r.events| && Known(r.states[n], peer)
    ensures SentOver(r, peer, ticks) == earlier + [ticks[k].msg] + later
    ensures Gather(SessionOf, earlier) == Output(r.states[n], peer)
  {
    OutputsGrow(r, peer);
    OutputsOfSessions(r, peer);
    NoOutputFirst(r, peer);
    var outs := Outputs(r.states, peer);
    OutgoingAround(peer, ticks, k, ticks[k].msg, outs, n);
    SentBefore(peer, ticks, k, peers, outs, n);
    earlier, later := Outgoing(peer, ticks[..k], outs, 0), Outgoing(peer, ticks[k + 1..], outs, n);
  }

  /**
   * An answer goes out behind everything that the events before it let the session send, and in front
   * of everything that later ones do.
   */
  lemma AnswerInPlace(r: Run, memories: map<Peer, Memory>, arrivals: seq<Arrival>, peer: Peer, talks: seq<Talk>,
                      before: seq<Message>, msg: Message, after: seq<Message>)
    returns (earlier: seq<Message>, later: seq<Message>, n: nat)
    requires IsRun(r) && AllFit(memories, arrivals) && r.events == EventsIn(Timeline(memories, arrivals))
    requires Known(r.states[0], peer) && peer in memories && memories[peer].length == 0
    requires AllCarry(ProtocolOf(peer), ConnectionsOf(arrivals, peer), talks)
    requires Said(talks) == before + [msg] + after && (msg.kind.Logon? || msg.kind.Logout?)
    ensures SentOver(r, peer, Timeline(memories, arrivals)) == earlier + [Message(msg.kind, [0, 0])] + later
    ensures n <= |r.events| && Known(r.states[n], peer)
    ensures CarriedInto(r.events[..n], peer) == Requested(Traces(peer, before))
    ensures CarriedInto(r.events[n..], peer) == Requested(Traces(peer, after))
    ensures Gather(SessionOf, earlier) == Output(r.states[n], peer)
  {
    var ticks, answer := Timeline(memories, arrivals), Message(msg.kind, [0, 0]);
    MessagesBecomeEvents(memories, arrivals, peer, talks);
    TracesAround(peer, before, msg, after);
    var k := AnswerTick(ticks, peer, Traces(peer, before), answer, Traces(peer, after));
    n := |EventsIn(ticks[..k])|;
    EventsAround(ticks, k);
    CarriedByEvents(ticks[..k], peer);
    CarriedByEvents(ticks[k + 1..], peer);
    TimelineOwned(memories, arrivals);
    earlier, later := SentAround(r, ticks, k, peer, memories.Keys, n);
  }
}
