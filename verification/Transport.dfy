/** The receive buffer, the protocol endpoint behind it and the stored sequence numbers. */
module Transport {
  import opened Types
  import opened Arithmetic
  import opened Framing
  import opened Codec
  import opened Dispatch

  /** Sequence counters in a memory-mapped file: they outlive the endpoint that uses them. */
  class SequenceStore {
    var inSequenceNumber: uint64
    var outSequenceNumber: uint64

    /** A file that did not exist before. */
    constructor ()
      ensures inSequenceNumber == 0 && outSequenceNumber == 0
    {
      inSequenceNumber, outSequenceNumber := 0, 0;
    }

    method NextInSequenceNumber() returns (seqNo: uint64)
      modifies this`inSequenceNumber
      ensures seqNo == inSequenceNumber == NextSequence(old(inSequenceNumber))
    {
      inSequenceNumber := NextSequence(inSequenceNumber);
      seqNo := inSequenceNumber;
    }

    method NextOutSequenceNumber() returns (seqNo: uint64)
      modifies this`outSequenceNumber
      ensures seqNo == outSequenceNumber == NextSequence(old(outSequenceNumber))
    {
      outSequenceNumber := NextSequence(outSequenceNumber);
      seqNo := outSequenceNumber;
    }
  }

  /**
   * What goes out through the same transport during a callback: the protocol answers logon with
   * logon and logout with logout, a session message draws whatever the session sends, such as rejects.
   */
  function Reaction(callback: Callback, output: seq<Message>): seq<Message> {
    match callback.delivery
    case Control(kind) => if kind.Logon? || kind.Logout? then [Message(kind, [0, 0])] else []
    case Application(_) => output
    case Invalid => []
  }

  ghost predicate ValidOutputs(p: Protocol, outputs: nat -> seq<Message>) {
    forall k {:trigger ValidMessages(p, outputs(k))} :: ValidMessages(p, outputs(k))
  }

  /** Answers and session output, interleaved; `outputs` gives the session's by position. */
  function Reactions(callbacks: seq<Callback>, outputs: nat -> seq<Message>, k: nat): seq<Message>
    decreases |callbacks|
  {
    if callbacks == [] then [] else Reaction(callbacks[0], outputs(k)) + Reactions(callbacks[1..], outputs, k + 1)
  }

  /** What goes out at one callback, in words. */
  predicate GoesOut(callback: Callback, output: seq<Message>, out: seq<Message>) {
    match callback.delivery
    case Control(Logon) => out == [Message(Logon, [0, 0])]
    case Control(Logout) => out == [Message(Logout, [0, 0])]
    case Control(_) => out == []
    case Application(_) => out == output
    case Invalid => out == []
  }

  lemma PrefixReactions(callbacks: seq<Callback>, outputs: nat -> seq<Message>, k: nat, n: nat)
    requires 0 < n <= |callbacks|
    ensures Reactions(callbacks[..n], outputs, k) ==
            Reaction(callbacks[0], outputs(k)) + Reactions(callbacks[1..][..n - 1], outputs, k + 1)
  {
    assert callbacks[..n][1..] == callbacks[1..][..n - 1];
  }

  lemma FourParts<T>(a: seq<T>, b: seq<T>, c: seq<T>, d: seq<T>)
    ensures a + (b + c + d) == a + b + c + d
  {
  }

  /** What goes out at callback n stands between what goes out at earlier and at later ones. */
  lemma {:induction false} ReactionsInOrder(callbacks: seq<Callback>, outputs: nat -> seq<Message>, k: nat, n: nat)
    returns (out: seq<Message>)
    requires n < |callbacks|
    ensures GoesOut(callbacks[n], outputs(k + n), out)
    ensures Reactions(callbacks, outputs, k) ==
            Reactions(callbacks[..n], outputs, k) + out + Reactions(callbacks[n + 1..], outputs, k + n + 1)
    decreases n
  {
    if n == 0 {
      out := Reaction(callbacks[0], outputs(k));
      assert callbacks[..0] == [];
    } else {
      out := ReactionsInOrder(callbacks[1..], outputs, k + 1, n - 1);
      LaterReactions(callbacks, outputs, k, n, out);
    }
  }

  lemma LaterReactions(callbacks: seq<Callback>, outputs: nat -> seq<Message>, k: nat, n: nat, out: seq<Message>)
    requires 0 < n < |callbacks|
    requires Reactions(callbacks[1..], outputs, k + 1) ==
             Reactions(callbacks[1..][..n - 1], outputs, k + 1) + out
             + Reactions(callbacks[1..][n..], outputs, k + n + 1)
    ensures Reactions(callbacks, outputs, k) ==
            Reactions(callbacks[..n], outputs, k) + out + Reactions(callbacks[n + 1..], outputs, k + n + 1)
  {
    PrefixReactions(callbacks, outputs, k, n);
    assert callbacks[1..][n..] == callbacks[n + 1..];
    FourParts(Reaction(callbacks[0], outputs(k)), Reactions(callbacks[1..][..n - 1], outputs, k + 1), out,
              Reactions(callbacks[n + 1..], outputs, k + n + 1));
  }

  /** What an endpoint has dispatched and sent so far. */
  datatype Outcome = Outcome(dispatched: seq<Callback>, sent: seq<Message>)

  /** One call of `on_data_impl`: what it returns, and what has been dispatched and sent after it. */
  function AfterCall(p: Protocol, data: seq<byte>, behind: seq<byte>, output: seq<Message>, before: Outcome)
    : (result: (nat, Outcome))
    requires LONGEST <= |behind|
    ensures result.0 <= |data|
  {
    if !Complete(p, data) then (0, before)
    else
      var callback := CallbackOn(p, data, behind);
      (SizeField(data), Outcome(before.dispatched + [callback], before.sent + Reaction(callback, output)))
  }

  function Add(before: Outcome, callbacks: seq<Callback>, outputs: nat -> seq<Message>, k: nat): Outcome {
    Outcome(before.dispatched + callbacks, before.sent + Reactions(callbacks, outputs, k))
  }

  /** What calls on received bytes add up to, and the bytes they leave. */
  function AfterCalls(p: Protocol, data: seq<byte>, behind: seq<byte>, outputs: nat -> seq<Message>, k: nat,
                      before: Outcome): (Outcome, seq<byte>)
    requires LONGEST <= |behind|
  {
    (Add(before, Callbacks(p, data, behind), outputs, k), Residue(p, data))
  }

  /** One call, and then those on what it leaves, are all calls. */
  lemma OneCall(p: Protocol, data: seq<byte>, behind: seq<byte>, outputs: nat -> seq<Message>, k: nat, before: Outcome)
    requires LONGEST <= |behind|
    ensures var (n, after) := AfterCall(p, data, behind, outputs(k), before);
            AfterCalls(p, data, behind, outputs, k, before) ==
            if n > 0 then AfterCalls(p, data[n..], behind, outputs, k + 1, after) else (after, data)
  {
    var all := Callbacks(p, data, behind);
    if Complete(p, data) {
      var callback := CallbackOn(p, data, behind);
      var reaction := Reaction(callback, outputs(k));
      if Consumes(p, data) {
        var later := Callbacks(p, data[SizeField(data)..], behind);
        assert all[1..] == later;
        Associate(before.dispatched, [callback], later);
        Associate(before.sent, reaction, Reactions(later, outputs, k + 1));
      } else {
        assert all == [callback] && all[1..] == [];
        assert Reactions(all, outputs, k) == reaction + [] == reaction;
      }
    } else {
      assert before.dispatched + [] == before.dispatched && before.sent + [] == before.sent;
    }
  }

  lemma OneMore(sent: seq<Message>, output: seq<Message>, i: nat)
    requires i <= |output|
    ensures sent + output[..0] == sent && sent + output[..|output|] == sent + output
    ensures i < |output| ==> sent + output[..i + 1] == sent + output[..i] + [output[i]]
  {
  }

  ghost predicate IsEncoding(p: Protocol, last: uint64, msgs: seq<Message>, bytes: seq<byte>) {
    ValidMessages(p, msgs) && bytes == EncodeAll(p, last, msgs)
  }

  /** A protocol; its session shows by what was dispatched to it and by what it sends in return. */
  class Endpoint {
    const protocol: Protocol
    const store: SequenceStore
    var dispatched: seq<Callback>
    /** Bytes handed to the transport so far. */
    var wire: seq<byte>
    ghost const start: uint64
    ghost var sent: seq<Message>

    /**
     * The bytes on the wire are the messages sent, numbered on from what the store held at the start.
     * Said of any bytes equal to the wire, so that only proofs that name such bytes look inside.
     */
    ghost predicate Valid()
      reads this, store
    {
      && store.outSequenceNumber == SequenceAfter(start, |sent|)
      && forall bytes :: bytes == wire ==> IsEncoding(protocol, start, sent, bytes)
    }

    lemma WireIsEncoding()
      requires Valid()
      ensures ValidMessages(protocol, sent) && wire == EncodeAll(protocol, start, sent)
    {
      assert IsEncoding(protocol, start, sent, wire);
    }

    ghost function Abs(): Outcome
      reads this
    {
      Outcome(dispatched, sent)
    }

    /** Also the restart of an endpoint: the store keeps its numbers. */
    constructor (protocol: Protocol, store: SequenceStore)
      ensures Valid() && this.protocol == protocol && this.store == store
      ensures start == store.outSequenceNumber && sent == [] && dispatched == []
    {
      this.protocol, this.store := protocol, store;
      start := store.outSequenceNumber;
      dispatched, wire, sent := [], [], [];
      new;
      SequenceAdds(start, 0);
    }

    method SendToTransport(msg: Message)
      requires Valid() && ValidMessage(protocol, msg)
      modifies this`wire, this`sent, store`outSequenceNumber
      ensures Valid() && sent == old(sent) + [msg]
    {
      WireIsEncoding();
      AppendEncoding(protocol, start, sent, msg);
      var seqNo := store.NextOutSequenceNumber();
      wire := wire + Encode(protocol, msg, seqNo);
      sent := sent + [msg];
      assert IsEncoding(protocol, start, sent, wire);
    }

    /** Everything the session sends before the callback returns. */
    method SendOutput(output: seq<Message>)
      requires Valid() && ValidMessages(protocol, output)
      modifies this`wire, this`sent, store`outSequenceNumber
      ensures Valid() && sent == old(sent) + output
    {
      for i := 0 to |output|
        invariant Valid() && sent == old(sent) + output[..i]
      {
        OneMore(old(sent), output, i);
        SendToTransport(output[i]);
      }
      OneMore(old(sent), output, |output|);
    }

    /** `on_data_impl`: at most one message is dispatched, and its announced size is consumed. */
    method OnData(data: seq<byte>, behind: seq<byte>, output: seq<Message>) returns (consumed: nat)
      requires Valid() && ValidMessages(protocol, output)
      requires LONGEST <= |behind|
      modifies this`dispatched, this`wire, this`sent, store`outSequenceNumber
      ensures Valid()
      ensures (consumed, Abs()) == AfterCall(protocol, data, behind, output, old(Abs()))
      ensures !Complete(protocol, data) ==> consumed == 0 && dispatched == old(dispatched) && sent == old(sent)
      ensures Complete(protocol, data) ==>
                var callback := CallbackOn(protocol, data, behind);
                && consumed == SizeField(data) && dispatched == old(dispatched) + [callback]
                && old(sent) <= sent && GoesOut(callback, output, sent[|old(sent)|..])
    {
      if |data| < HeaderLength(protocol) {
        return 0;
      }
      if |data| < SizeField(data) {
        return 0;
      }
      LongEnough(protocol, TypeField(protocol, data), data + behind);
      Dispatch(Head(protocol, data), data + behind, output);
      return SizeField(data);
    }

    /** The switch on the message type. */
    method Dispatch(frame: Frame, memory: seq<byte>, output: seq<Message>)
      requires Valid() && ValidMessages(protocol, output)
      requires !Short(protocol, frame.msgType, memory)
      modifies this`dispatched, this`wire, this`sent, store`outSequenceNumber
      ensures Valid()
      ensures var callback := Callback(frame, Deliver(protocol, frame.msgType, memory));
              && dispatched == old(dispatched) + [callback]
              && sent == old(sent) + Reaction(callback, output)
              && old(sent) <= sent && GoesOut(callback, output, sent[|old(sent)|..])
    {
      match KindOf(protocol, frame.msgType)
      case Some(kind) =>
        if IsControl(kind) {
          dispatched := dispatched + [Callback(frame, Control(kind))];
          if kind.Logon? || kind.Logout? {
            SendControl(kind);
          }
        } else if ForSession(protocol, kind) {
          dispatched := dispatched + [Callback(frame, Application(ReadStruct(protocol, kind, memory)))];
          SendOutput(output);
        } else {
          dispatched := dispatched + [Callback(frame, Invalid)];
        }
      case None =>
        dispatched := dispatched + [Callback(frame, Invalid)];
    }

    /** `send_logon` and `send_logout`. */
    method SendControl(kind: Kind)
      requires Valid() && (kind.Logon? || kind.Logout?)
      modifies this`wire, this`sent, store`outSequenceNumber
      ensures Valid() && sent == old(sent) + [Message(kind, [0, 0])]
    {
      Powers();
      SendToTransport(Message(kind, [0, 0]));
    }
  }

  /** A connection so far: the array when it was made, the reads since, and what was dispatched before. */
  datatype Connection = Connection(buffer: seq<byte>, inputs: seq<Read>, earlier: seq<Callback>)

  ghost predicate Started(p: Protocol, c: Connection) {
    |c.buffer| == CAPACITY && Fitting(p, [], c.inputs)
  }

  /** Array, write offset and dispatched messages are those of the connection's reads, one after the other. */
  ghost predicate Replays(p: Protocol, c: Connection, m: Memory, dispatched: seq<Callback>) {
    && Started(p, c)
    && m == After(p, Memory(c.buffer, 0), c.inputs)
    && dispatched == c.earlier + CallbacksBy(p, Memory(c.buffer, 0), c.inputs)
  }

  function Received(c: Connection): seq<byte> {
    Concat(Chunks(c.inputs))
  }

  function GoOn(c: Connection, input: Read): Connection {
    c.(inputs := c.inputs + [input])
  }

  /** One more read that fits takes a connection one step further. */
  lemma ReplayGoesOn(p: Protocol, c: Connection, m: Memory, dispatched: seq<Callback>, input: Read)
    requires Replays(p, c, m, dispatched)
    requires input.chunk != [] && m.length + |input.chunk| <= CAPACITY && LONGEST <= |input.beyond|
    ensures IsMemory(m)
    ensures Replays(p, GoOn(c, input), AfterRead(p, m, input), dispatched + CallbacksOf(p, m, input))
  {
    var start := Memory(c.buffer, 0);
    assert Front(start) == [];
    FittingOneMore(p, start, c.inputs, input);
    OneMoreRead(p, start, c.inputs, input);
    Associate(c.earlier, CallbacksBy(p, start, c.inputs), CallbacksOf(p, m, input));
  }

  lemma FilledMemory(p: Protocol, m: Memory, input: Read)
    requires IsMemory(m) && m.length + |input.chunk| <= CAPACITY && LONGEST <= |input.beyond|
    ensures var buffer, end := Fill(m, input.chunk), m.length + |input.chunk|;
            && AfterRead(p, m, input) == Settle(p, buffer, end)
            && CallbacksOf(p, m, input) == Callbacks(p, buffer[..end], buffer[end..] + input.beyond)
  {
    var buffer, end := Fill(m, input.chunk), m.length + |input.chunk|;
    assert buffer[end..] == m.buffer[end..];
  }

  /** What `process_data` makes of the array and of the endpoint is that step. */
  lemma ReplayAfterRead(p: Protocol, c: Connection, m: Memory, input: Read, outputs: nat -> seq<Message>,
                        before: Outcome, m': Memory, after: Outcome)
    requires Replays(p, c, m, before.dispatched)
    requires input.chunk != [] && m.length + |input.chunk| <= CAPACITY && LONGEST <= |input.beyond|
    requires IsMemory(m)
    requires var buffer, end := Fill(m, input.chunk), m.length + |input.chunk|;
             && m' == Settle(p, buffer, end)
             && after == Add(before, Callbacks(p, buffer[..end], buffer[end..] + input.beyond), outputs, 0)
    ensures Replays(p, GoOn(c, input), m', after.dispatched) && m' == AfterRead(p, m, input)
    ensures after.sent == before.sent + Reactions(CallbacksOf(p, m, input), outputs, 0)
  {
    FilledMemory(p, m, input);
    ReplayGoesOn(p, c, m, before.dispatched, input);
  }

  lemma {:induction false} FitsOneMore(p: Protocol, rest: seq<byte>, chunks: seq<seq<byte>>, chunk: seq<byte>)
    requires Fits(p, rest, chunks) && chunk != [] && |ResidueAfter(p, rest, chunks)| + |chunk| <= CAPACITY
    ensures Fits(p, rest, chunks + [chunk])
    decreases |chunks|
  {
    var all := chunks + [chunk];
    if chunks == [] {
      assert all[1..] == [];
    } else {
      assert all[1..] == chunks[1..] + [chunk];
      FitsOneMore(p, Residue(p, rest + chunks[0]), chunks[1..], chunk);
    }
  }

  lemma FittingOneMore(p: Protocol, m: Memory, inputs: seq<Read>, input: Read)
    requires IsMemory(m) && Fitting(p, Front(m), inputs)
    requires input.chunk != [] && LONGEST <= |input.beyond|
    requires After(p, m, inputs).length + |input.chunk| <= CAPACITY
    ensures Fitting(p, Front(m), inputs + [input])
  {
    StaleBytesBehindFrames(p, m, inputs);
    FitsOneMore(p, Front(m), Chunks(inputs), input.chunk);
    assert Chunks(inputs + [input]) == Chunks(inputs) + [input.chunk];
  }

  lemma {:induction false} OneMoreRead(p: Protocol, m: Memory, inputs: seq<Read>, input: Read)
    requires IsMemory(m) && Fitting(p, Front(m), inputs) && Fitting(p, Front(m), inputs + [input])
    ensures var last := After(p, m, inputs);
            && last.length + |input.chunk| <= CAPACITY && LONGEST <= |input.beyond|
            && After(p, m, inputs + [input]) == AfterRead(p, last, input)
            && CallbacksBy(p, m, inputs + [input]) == CallbacksBy(p, m, inputs) + CallbacksOf(p, last, input)
    decreases |inputs|
  {
    var all := inputs + [input];
    FittingFirst(p, Front(m), all);
    if inputs == [] {
      assert all == [input] && all[1..] == [];
    } else {
      FittingFirst(p, Front(m), inputs);
      var m', first := AfterRead(p, m, inputs[0]), CallbacksOf(p, m, inputs[0]);
      assert all[0] == inputs[0] && all[1..] == inputs[1..] + [input];
      OneMoreRead(p, m', inputs[1..], input);
      Associate(first, CallbacksBy(p, m', inputs[1..]), CallbacksOf(p, After(p, m, inputs), input));
    }
  }

  /**
   * Whatever reads came, the buffer holds the residue of the parse of all bytes received on this
   * connection, and the messages of that parse are what was dispatched, a size-zero head once per read.
   */
  lemma ReplayRefinesParse(p: Protocol, c: Connection, m: Memory, dispatched: seq<Callback>)
    requires Replays(p, c, m, dispatched)
    ensures IsMemory(m) && Front(m) == Residue(p, Received(c))
    ensures var zeroReads := ZeroReads(p, [], Chunks(c.inputs));
            && FramesOf(dispatched) == FramesOf(c.earlier) + StreamFrames(p, Received(c), zeroReads)
            && (zeroReads > 0 ==> ZeroHead(p, Front(m)))
  {
    var start := Memory(c.buffer, 0);
    assert Front(start) == [] && [] + Received(c) == Received(c);
    StaleBytesBehindFrames(p, start, c.inputs);
    ReadsRefineParse(p, [], Chunks(c.inputs));
    FramesOfAppend(c.earlier, CallbacksBy(p, start, c.inputs));
  }

  /** A clean stream is dispatched as its messages call for, whatever was in the array before. */
  lemma ReplayOfCleanStream(p: Protocol, c: Connection, m: Memory, dispatched: seq<Callback>)
    requires Replays(p, c, m, dispatched) && Clean(p, Received(c))
    ensures dispatched == c.earlier + Plain(p, Dispatched(p, Received(c)))
  {
    CleanStream(p, Execution(c.buffer, c.inputs), Received(c));
  }

  lemma Slices(buffer: seq<byte>, from: nat, n: nat, end: nat)
    requires from + n <= end <= |buffer|
    ensures buffer[0..end] == buffer[..end] && buffer[from..end][n..] == buffer[from + n..end]
  {
  }

  /** The result as a relation, so that proofs about the array see the calls only where they ask for them. */
  predicate IsResult(p: Protocol, data: seq<byte>, behind: seq<byte>, outputs: nat -> seq<Message>, k: nat,
                     before: Outcome, result: (Outcome, seq<byte>))
    requires LONGEST <= |behind|
  {
    result == AfterCalls(p, data, behind, outputs, k, before)
  }

  /** The calls still to come lead to this result. */
  ghost predicate LeadsTo(p: Protocol, data: seq<byte>, behind: seq<byte>, outputs: nat -> seq<Message>, k: nat,
                          before: Outcome, result: (Outcome, seq<byte>))
    requires LONGEST <= |behind|
  {
    forall x :: IsResult(p, data, behind, outputs, k, before, x) ==> x == result
  }

  lemma ResultOf(p: Protocol, data: seq<byte>, behind: seq<byte>, outputs: nat -> seq<Message>, k: nat,
                 before: Outcome, result: (Outcome, seq<byte>))
    requires LONGEST <= |behind|
    ensures LeadsTo(p, data, behind, outputs, k, before, result) <==>
            result == AfterCalls(p, data, behind, outputs, k, before)
  {
    assert IsResult(p, data, behind, outputs, k, before, AfterCalls(p, data, behind, outputs, k, before));
  }

  /** One round of the consume loop takes it closer to its result, or is the last. */
  lemma OneRound(p: Protocol, buffer: seq<byte>, readOffset: nat, end: nat, behind: seq<byte>,
                 outputs: nat -> seq<Message>, k: nat, before: Outcome, n: nat, after: Outcome,
                 result: (Outcome, seq<byte>))
    requires readOffset <= end <= |buffer| && LONGEST <= |behind|
    requires (n, after) == AfterCall(p, buffer[readOffset..end], behind, outputs(k), before)
    requires LeadsTo(p, buffer[readOffset..end], behind, outputs, k, before, result)
    ensures readOffset + n <= end
    ensures n > 0 ==> LeadsTo(p, buffer[readOffset + n..end], behind, outputs, k + 1, after, result)
    ensures n == 0 ==> result == (after, buffer[readOffset..end])
  {
    Slices(buffer, readOffset, n, end);
    OneCall(p, buffer[readOffset..end], behind, outputs, k, before);
    ResultOf(p, buffer[readOffset..end], behind, outputs, k, before, result);
    if n > 0 {
      ResultOf(p, buffer[readOffset + n..end], behind, outputs, k + 1, after, result);
    }
  }

  /** When everything is consumed, no further call would change anything. */
  lemma NothingLeft(p: Protocol, buffer: seq<byte>, end: nat, behind: seq<byte>, outputs: nat -> seq<Message>, k: nat,
                    before: Outcome, result: (Outcome, seq<byte>))
    requires end <= |buffer| && LONGEST <= |behind|
    requires LeadsTo(p, buffer[end..end], behind, outputs, k, before, result)
    ensures result == (before, buffer[end..end])
  {
    OneCall(p, buffer[end..end], behind, outputs, k, before);
    ResultOf(p, buffer[end..end], behind, outputs, k, before, result);
  }

  /** The buffer after i bytes were moved, and its next byte to move. */
  lemma Shifted(buffer: seq<byte>, from: nat, i: nat)
    requires from + i <= |buffer|
    ensures var now := buffer[from..from + i] + buffer[i..];
            && |now| == |buffer|
            && (i == 0 ==> now == buffer)
            && (from + i < |buffer| ==>
                  && now[from + i] == buffer[from + i]
                  && now[i := buffer[from + i]] == buffer[from..from + i + 1] + buffer[i + 1..])
  {
  }

  class TransportSingleThreaded {
    const endpoint: Endpoint
    const receiveBuffer: array<byte>
    var writeOffset: nat
    ghost var connection: Connection

    ghost predicate Shape()
      reads this
    {
      receiveBuffer.Length == CAPACITY && writeOffset <= CAPACITY
    }

    function Content(): Memory
      reads this, receiveBuffer
    {
      Memory(receiveBuffer[..], writeOffset)
    }

    /** The array holds, byte by byte, what the connection's reads have made of it. */
    ghost predicate Valid()
      reads this, receiveBuffer, endpoint, endpoint.store
    {
      Shape() && endpoint.Valid() && Replays(endpoint.protocol, connection, Content(), endpoint.dispatched)
    }

    constructor (endpoint: Endpoint)
      requires endpoint.Valid()
      ensures Valid() && fresh(receiveBuffer) && this.endpoint == endpoint
      ensures connection == Connection(Zeros(CAPACITY), [], endpoint.dispatched)
    {
      this.endpoint := endpoint;
      receiveBuffer := new byte[CAPACITY](_ => 0);
      writeOffset := 0;
      connection := Connection(Zeros(CAPACITY), [], endpoint.dispatched);
      new;
      assert receiveBuffer[..] == Zeros(CAPACITY);
    }

    function LengthForRead(): nat
      requires Shape()
      reads this
    {
      CAPACITY - writeOffset
    }

    /** `read`: the kernel offers `pending`; as much as fits is put behind the residue. */
    method ReadData(pending: seq<byte>) returns (bytesRead: nat)
      requires Shape()
      modifies receiveBuffer
      ensures bytesRead == if |pending| < LengthForRead() then |pending| else LengthForRead()
      ensures receiveBuffer[..] == Fill(old(Content()), pending[..bytesRead])
    {
      bytesRead := if |pending| < LengthForRead() then |pending| else LengthForRead();
      forall i | 0 <= i < bytesRead {
        receiveBuffer[writeOffset + i] := pending[i];
      }
    }

    /**
     * The data callback on the received bytes behind the read offset. What it can read beyond them
     * is the rest of the array, and then whatever lies behind that.
     */
    method CallBack(readOffset: nat, beyond: seq<byte>, output: seq<Message>, ghost buffer: seq<byte>)
      returns (consumed: nat)
      requires Shape() && endpoint.Valid() && readOffset <= writeOffset && receiveBuffer[..] == buffer
      requires LONGEST <= |beyond| && ValidMessages(endpoint.protocol, output)
      modifies endpoint`dispatched, endpoint`wire, endpoint`sent, endpoint.store`outSequenceNumber
      ensures endpoint.Valid()
      ensures (consumed, endpoint.Abs()) ==
              AfterCall(endpoint.protocol, buffer[readOffset..writeOffset], buffer[writeOffset..] + beyond, output,
                        old(endpoint.Abs()))
    {
      var data := receiveBuffer[readOffset..writeOffset];
      assert data == buffer[readOffset..writeOffset];
      var behind := receiveBuffer[writeOffset..] + beyond;
      assert behind == buffer[writeOffset..] + beyond;
      consumed := endpoint.OnData(data, behind, output);
    }

    /** One round of the consume loop. */
    method Round(readOffset: nat, beyond: seq<byte>, outputs: nat -> seq<Message>, k: nat,
                 ghost buffer: seq<byte>, ghost result: (Outcome, seq<byte>)) returns (consumed: nat)
      requires Shape() && endpoint.Valid() && readOffset <= writeOffset && receiveBuffer[..] == buffer
      requires LONGEST <= |beyond| && ValidMessages(endpoint.protocol, outputs(k))
      requires LeadsTo(endpoint.protocol, buffer[readOffset..writeOffset], buffer[writeOffset..] + beyond, outputs, k,
                       endpoint.Abs(), result)
      modifies endpoint`dispatched, endpoint`wire, endpoint`sent, endpoint.store`outSequenceNumber
      ensures endpoint.Valid() && readOffset + consumed <= writeOffset
      ensures consumed > 0 ==>
                LeadsTo(endpoint.protocol, buffer[readOffset + consumed..writeOffset], buffer[writeOffset..] + beyond,
                        outputs, k + 1, endpoint.Abs(), result)
      ensures consumed == 0 ==> result == (endpoint.Abs(), buffer[readOffset..writeOffset])
    {
      ghost var p, end, behind := endpoint.protocol, writeOffset, buffer[writeOffset..] + beyond;
      ghost var before := endpoint.Abs();
      consumed := CallBack(readOffset, beyond, outputs(k), buffer);
      OneRound(p, buffer, readOffset, end, behind, outputs, k, before, consumed, endpoint.Abs(), result);
    }

    /** The consume loop reaches the result that the calls lead to. */
    method ConsumeLoop(beyond: seq<byte>, outputs: nat -> seq<Message>, ghost buffer: seq<byte>,
                       ghost result: (Outcome, seq<byte>)) returns (readOffset: nat)
      requires Shape() && endpoint.Valid() && receiveBuffer[..] == buffer
      requires LONGEST <= |beyond| && ValidOutputs(endpoint.protocol, outputs)
      requires LeadsTo(endpoint.protocol, buffer[0..writeOffset], buffer[writeOffset..] + beyond, outputs, 0,
                       endpoint.Abs(), result)
      modifies endpoint`dispatched, endpoint`wire, endpoint`sent, endpoint.store`outSequenceNumber
      ensures endpoint.Valid()
      ensures readOffset <= writeOffset
      ensures result == (endpoint.Abs(), buffer[readOffset..writeOffset])
    {
      ghost var p, end := endpoint.protocol, writeOffset;
      ghost var behind := buffer[end..] + beyond;
      var k := 0;
      readOffset := 0;
      while readOffset < writeOffset
        invariant readOffset <= writeOffset
        invariant endpoint.Valid()
        invariant receiveBuffer[..] == buffer
        invariant LeadsTo(p, buffer[readOffset..end], behind, outputs, k, endpoint.Abs(), result)
        decreases writeOffset - readOffset
      {
        assert ValidMessages(p, outputs(k));
        var bytesConsumed := Round(readOffset, beyond, outputs, k, buffer, result);
        if bytesConsumed == 0 {
          return;
        } else if bytesConsumed > writeOffset - readOffset {
          return;
        }
        readOffset, k := readOffset + bytesConsumed, k + 1;
      }
      NothingLeft(p, buffer, end, behind, outputs, k, endpoint.Abs(), result);
    }

    /**
     * The consume loop: dispatches the messages of the buffered bytes and says where they end. A
     * callback may read on into the rest of the array, and then into what lies behind it.
     */
    method Consume(beyond: seq<byte>, outputs: nat -> seq<Message>) returns (readOffset: nat)
      requires Shape() && endpoint.Valid()
      requires LONGEST <= |beyond| && ValidOutputs(endpoint.protocol, outputs)
      modifies endpoint`dispatched, endpoint`wire, endpoint`sent, endpoint.store`outSequenceNumber
      ensures endpoint.Valid()
      ensures readOffset <= writeOffset
      ensures var buffer, end := old(receiveBuffer[..]), writeOffset;
              (endpoint.Abs(), buffer[readOffset..end]) ==
              AfterCalls(endpoint.protocol, buffer[0..end], buffer[end..] + beyond, outputs, 0, old(endpoint.Abs()))
    {
      ghost var p, buffer, end := endpoint.protocol, receiveBuffer[..], writeOffset;
      ghost var behind := buffer[end..] + beyond;
      ghost var result := AfterCalls(p, buffer[0..end], behind, outputs, 0, endpoint.Abs());
      ResultOf(p, buffer[0..end], behind, outputs, 0, endpoint.Abs(), result);
      readOffset := ConsumeLoop(beyond, outputs, buffer, result);
    }

    /** The `memmove` of the unconsumed bytes to the front. */
    method Compact(readOffset: nat, ghost buffer: seq<byte>)
      requires Shape() && readOffset <= writeOffset && buffer == receiveBuffer[..]
      modifies this`writeOffset, receiveBuffer
      ensures Shape() && writeOffset == old(writeOffset) - readOffset
      ensures receiveBuffer[..] == buffer[readOffset..old(writeOffset)] + buffer[writeOffset..]
    {
      var dataLength := writeOffset - readOffset;
      Shifted(buffer, readOffset, 0);
      for i := 0 to dataLength
        invariant receiveBuffer[..] == buffer[readOffset..readOffset + i] + buffer[i..]
      {
        Shifted(buffer, readOffset, i);
        receiveBuffer[i] := receiveBuffer[readOffset + i];
      }
      writeOffset := dataLength;
    }

    /**
     * `process_data`: the messages of the buffered bytes are dispatched, their residue is moved to
     * the front and everything behind it is left as it was.
     */
    method ProcessData(bytesRead: nat, beyond: seq<byte>, outputs: nat -> seq<Message>)
      requires Shape() && writeOffset + bytesRead <= CAPACITY
      requires endpoint.Valid()
      requires LONGEST <= |beyond| && ValidOutputs(endpoint.protocol, outputs)
      modifies this`writeOffset, receiveBuffer, endpoint`dispatched, endpoint`wire, endpoint`sent,
               endpoint.store`outSequenceNumber
      ensures Shape() && endpoint.Valid()
      ensures Content() == Settle(endpoint.protocol, old(receiveBuffer[..]), old(writeOffset) + bytesRead)
      ensures var buffer, end := old(receiveBuffer[..]), old(writeOffset) + bytesRead;
              var callbacks := Callbacks(endpoint.protocol, buffer[..end], buffer[end..] + beyond);
              endpoint.Abs() == Add(old(endpoint.Abs()), callbacks, outputs, 0)
    {
      writeOffset := writeOffset + bytesRead;
      ghost var buffer, end, before := receiveBuffer[..], writeOffset, endpoint.Abs();
      var readOffset := Consume(beyond, outputs);
      Slices(buffer, 0, 0, end);
      Compact(readOffset, buffer);
    }

    /** `on_disconnect`: the residue is forgotten, but its bytes stay in the array. */
    method OnDisconnect()
      requires Shape() && endpoint.Valid()
      modifies this
      ensures Valid() && writeOffset == 0
      ensures connection == Connection(receiveBuffer[..], [], endpoint.dispatched)
    {
      writeOffset := 0;
      connection := Connection(receiveBuffer[..], [], endpoint.dispatched);
    }

    /** `process_data` on a read that brought something takes the connection one step further. */
    method Advance(ghost before: Memory, input: Read, outputs: nat -> seq<Message>)
      requires Shape() && endpoint.Valid()
      requires Replays(endpoint.protocol, connection, before, endpoint.dispatched)
      requires input.chunk != [] && before.length == writeOffset && writeOffset + |input.chunk| <= CAPACITY
      requires IsMemory(before) && receiveBuffer[..] == Fill(before, input.chunk)
      requires LONGEST <= |input.beyond| && ValidOutputs(endpoint.protocol, outputs)
      modifies this, receiveBuffer, endpoint`dispatched, endpoint`wire, endpoint`sent, endpoint.store`outSequenceNumber
      ensures Valid() && connection == GoOn(old(connection), input)
      ensures Content() == AfterRead(endpoint.protocol, before, input)
      ensures endpoint.sent == old(endpoint.sent) +
              Reactions(CallbacksOf(endpoint.protocol, before, input), outputs, 0)
    {
      ghost var p, outcome := endpoint.protocol, endpoint.Abs();
      ProcessData(|input.chunk|, input.beyond, outputs);
      ReplayAfterRead(p, connection, before, input, outputs, outcome, Content(), endpoint.Abs());
      connection := GoOn(connection, input);
    }

    /**
     * `process_received_data`: one read event. An empty read counts as a closed peer, also when
     * it is empty because the buffer is full, which needs a head that can never be consumed.
     */
    method ProcessReceivedData(pending: seq<byte>, beyond: seq<byte>, outputs: nat -> seq<Message>)
      returns (bytesRead: nat)
      requires Valid()
      requires LONGEST <= |beyond| && ValidOutputs(endpoint.protocol, outputs)
      modifies this, receiveBuffer, endpoint`dispatched, endpoint`wire, endpoint`sent, endpoint.store`outSequenceNumber
      ensures Valid()
      ensures bytesRead == if |pending| < old(LengthForRead()) then |pending| else old(LengthForRead())
      ensures bytesRead > 0 ==>
                && connection == GoOn(old(connection), Read(pending[..bytesRead], beyond))
                && Content() == AfterRead(endpoint.protocol, old(Content()), Read(pending[..bytesRead], beyond))
                && var callbacks := CallbacksOf(endpoint.protocol, old(Content()), Read(pending[..bytesRead], beyond));
                   endpoint.sent == old(endpoint.sent) + Reactions(callbacks, outputs, 0)
      ensures bytesRead == 0 ==>
                && connection == Connection(old(receiveBuffer[..]), [], old(endpoint.dispatched))
                && Content() == Memory(old(receiveBuffer[..]), 0)
                && endpoint.dispatched == old(endpoint.dispatched) && endpoint.sent == old(endpoint.sent)
                && (pending != [] ==> BadHead(Residue(endpoint.protocol, old(Received(connection)))))
    {
      ghost var before := Content();
      bytesRead := ReadData(pending);
      if bytesRead > 0 {
        Advance(before, Read(pending[..bytesRead], beyond), outputs);
      } else {
        ReplayRefinesParse(endpoint.protocol, connection, before, endpoint.dispatched);
        FullOnlyBehindBadHead(endpoint.protocol, Front(before));
        assert receiveBuffer[..] == before.buffer;
        OnDisconnect();
      }
    }
  }
}
