# HyperRoute: routing and stream reassembly, verified

HyperRoute is a single-threaded message router. Client sessions (protocol A) send new orders,
replaces and cancels; a router picks a destination session (protocol B) for each; the venue's
replies find their way back. Underneath, each connection cuts a byte stream into messages with a
fixed 1024-byte buffer. This project models both parts and proves what they guarantee over every
run and every way of splitting the bytes.

## How it is built

- `Types.dfy`, `Arithmetic.dfy`: machine integers, first-wins map insertion, remainders.
- `WireIds.dfy`: the shared 64-bit counter and the narrowing of its ids to 32-bit wire fields.
- `Messages.dfy`: requests, replies and their venue-side forms.
- `RoundRobin.dfy`: the slot search as a function, its meaning and its fairness.
- `Routing.dfy`: the state of all sessions, routers and maps as a value, and one step per event.
- `History.dfy`: runs, their history, and the agreement of every map with that history.
- `Correlation.dfy`, `Coherence.dfy`, `Conservation.dfy`, `Spread.dfy`: the theorems over runs.
- `Limits.dfy`: concrete runs that show where a promise stops holding.
- `Sessions.dfy`: the mutable sessions and routers; every method is proved to perform the step that
  `Routing.dfy` gives for it, up to an event loop whose objects go through a run.
- `Framing.dfy`: the parse of a byte stream, where messages end under any split, read progress.
- `Codec.dfy`: message layouts, the round trip of encoded streams, consecutive numbering.
- `Dispatch.dfy`: what a callback reads, stale bytes of the buffer included.
- `Staleness.dfy`: how far a message shorter than its fields can read, exactly when stale bytes are
  seen, and exactly when the stream alone decides what is handed over.
- `Layout.dfy`: both wire formats in numbers: sizes, type codes and the offset of every field, sent and
  received.
- `Transport.dfy`: the receive buffer with its consume loop and compaction, the protocol endpoint
  and the stored sequence numbers.
- `StreamLimits.dfy`: concrete byte streams on which a receiver does not do what its peer may expect.
- `Inbound.dfy`, `Outbound.dfy`: both halves together, from the bytes of all connections, dropped and
  made again at will, to a run, and from the run back to bytes.
- `Gateway.dfy`: the objects of both halves together: one read event runs through transport, endpoint,
  sessions and routers to the transports of all peers, and each peer's bytes are tied to the run.
- `EndToEnd.dfy`: where every event of a run comes from, what a peer is answered, and a new order from
  the client's bytes to the venue's.

`dafny verify dfyconfig.toml` checks everything.

## What is an input

Validation results and the answers of the transport are inputs of each step (`valid`, `sendOk`).
`connected_` has no setter in the code, so a link change is an event of its own. In the code
`send_data` builds a failure value and drops it, so that only an exception yields `sendOk == false`.
A read is any non-empty byte string that fits the free part of the buffer; the kernel's offer is cut
to that length. Bytes in memory behind the 1024 of the buffer are an input of every read, and the
buffer's own content when a connection is made is arbitrary, as an earlier connection may have left
it. What a session sends while its endpoint dispatches a message is an input of the transport's
methods; `Outbound.dfy` takes it from the run, and `Gateway.dfy` from the sessions.

## What turned out not to hold

- A cancel can name another client's order. Destinations index client ids across all clients and
  the first entry wins, so two clients that use the same id for orders on one destination get the
  first one's wire id (`Limits.CancelNamesOtherClient`). `Coherence.CancelCoherenceExact` says
  exactly when field o names the client's own order.
- A replaced order cannot be cancelled by the replace's id under round robin: only new orders enter
  the source's index (`Limits.ChainedCancelRejected`, `Coherence.CancelForwardedExactly`).
- An order sent again after it found no destination cannot be cancelled, because its client id
  still leads to the first attempt's uid (`Limits.RetriedOrderNotCancellable`).
- After 2^32 draws a wire id comes round again and a reply can go to the wrong client
  (`Limits.ReplyToWrongClient`); `Correlation.ReplyCorrelationExact` gives the exact condition.
- With one-to-one routing a request can be both rejected and forwarded, and the replies to it reach
  nobody (`Limits.OneToOneForwardsUnknown`); `Coherence.RejectedAndForwarded` says exactly when.
- The rejects a client gets carry no ids, so that it cannot tell which request was rejected
  (`Conservation.RejectsAreBlank`).
- A message is laid over the buffer whatever size its header announces. If that size is below the
  end of its fields, the session reads on into the next message or into stale bytes, so that what it
  is handed depends on the split (`StreamLimits.ShortOrderReadsOn`).
- A message of size zero is dispatched once per read while it is at the front, so that the number of
  dispatches depends on the split when bytes follow its header (`StreamLimits.ZeroSizedLogon`).
- These two are the only ways. `Staleness.SettledExactly` proves it for every stream whose first short
  message ends within the first 1024 bytes, or has only messages of at most 512 bytes before it; the
  longest message of either protocol has 53. Behind larger ones it need not hold: after a message that
  fills the whole buffer every byte a short message reads was brought by the stream itself
  (`StreamLimits.LargeLogonHidesOrder`). `Staleness.SealedExactly` says for every stream exactly when
  stale bytes are seen, and `Staleness.StreamAloneDecides` is exact for every stream if each of its
  messages may also be the first of a connection.
- A header that announces more than 1024 bytes is never consumed; a buffer full behind such a
  header makes the next read empty and counts as a closed peer
  (`StreamLimits.OversizedMessageClosesPeer`, `Framing.ProgressExactly`).

## Model

| member | source | states |
|---|---|---|
| WireIds.UIDGenerator.GetNextUid | framework/message/UIDGenerator.h:20-26 | every draw advances the one shared counter by one, wrapping at 2^64 |
| WireIds.NarrowWiden | examples/trading_system/session/DestinationSessionProtocolB.cpp:188-199 | a stored key narrows back to the wire field it came from, so field o repeats field c |
| WireIds.WireIdClash | examples/trading_system/message/protocol_b/schema/Messages.h:83-130 | two draws share a wire id if and only if they are a multiple of 2^32 draws apart, also across a wrap of the counter |
| WireIds.WireIdsDistinct | examples/trading_system/session/DestinationSessionProtocolB.cpp:181-186 | the wire ids and map keys of any 2^32 consecutive draws are pairwise distinct |
| RoundRobin.NextConnectedMeaning | framework/router/DestinationRouterRoundRobin.h:83-97 | the search fails exactly when all slots are down, and otherwise yields the unique connected slot met first when going round from the pointer |
| RoundRobin.Fairness | framework/router/DestinationRouterRoundRobin.h:67-97 | under arbitrary link changes no slot is picked more than once more than a slot that stays connected |
| RoundRobin.PlainRoundRobin | framework/router/DestinationRouterRoundRobin.h:67-97 | with constant links the j-th pick is the connected slot of rank start plus j, modulo their number |
| RoundRobin.EvenSpread | framework/router/DestinationRouterRoundRobin.h:67-97 | with k connected slots, m first events give each of them floor(m/k) or ceil(m/k) picks and the others none |
| Routing.StepKeepsWellFormed | framework/session/SourceSession.h:102-121 | no message leaves a cached slot, a router pointer or a routed source out of range |
| History.RunExtends | framework/socket/tcp/EpollSocketManager.cpp:198-220 | a run can go on with every event addressed to an existing session |
| History.IndexAgreement | examples/trading_system/session/DestinationSessionProtocolB.cpp:154-179 | in every reachable state each of the five map families is the stated function of the history: first accepted request per client id and per wire id, first new order per client id, source and slot per uid |
| History.MapsInverse | examples/trading_system/session/DestinationSessionProtocolB.cpp:154-215 | in every reachable state the forward index leads to an entry of the reverse index; it is the same client id's if and only if the first request accepted under the wire id is the first under the client id, as it is when that lies in the first 2^32 draws |
| History.CounterIsDrawn | framework/message/UIDGenerator.h:20-26 | the counter equals the number of ids drawn for uids and wire ids together, modulo 2^64 |
| History.WireIdRepeats | examples/trading_system/session/DestinationSessionProtocolB.cpp:88-121 | in any run two accepted requests have the same field c, and the same map key, if and only if a multiple of 2^32 draws lies between them |
| History.WireIdUnique | examples/trading_system/session/DestinationSessionProtocolB.cpp:154-161 | in any window of 2^32 draws of any run no two accepted requests share a wire id |
| History.WireIdInserted | examples/trading_system/session/DestinationSessionProtocolB.cpp:154-161 | the emplace on the wire id adds an entry if and only if no request accepted there before is a multiple of 2^32 draws older; within the first 2^32 draws it always does |
| History.FirstWithUid | framework/router/SourceRouter.cpp:26-37 | a uid names exactly one new order while the counter has not wrapped |
| Correlation.KnownOriginal | examples/trading_system/session/SourceSessionProtocolA.cpp:81-93 | a cancel or replace gets the uid of its source's first new order with the original id, and keeps uid 0 when there is none |
| Correlation.UidLeadsToSource | framework/router/SourceRouter.cpp:10-24 | the uid of a known request leads to the source that sent it, uid 0 to nobody |
| Correlation.ReplyRouting | examples/trading_system/session/DestinationSessionProtocolB.cpp:201-215 | a reply is delivered to the source of the first request its destination accepted under that wire id, with that client id, and to nobody if there is none or its original was unknown |
| Correlation.DeliveryEffect | framework/session/DestinationSession.h:89-114 | a delivery adds one message for that client and nothing for any other |
| Correlation.ReplyCorrelation | framework/router/SourceRouter.cpp:10-37 | every later reply to an accepted request is handed to the client that sent it and nobody else, with that client's own id, for requests accepted within the first 2^32 draws |
| Correlation.ReplyCorrelationExact | examples/trading_system/message/protocol_b/schema/Messages.h:132-147 | without that bound, a reply is right if and only if the first request accepted under its wire id has the same source and client id; an earlier one is at least 2^32 draws older |
| Correlation.EchoRoundTrip | examples/trading_system/session/DestinationSessionProtocolB.cpp:56-64 | a client whose venue echoes a, b and c gets its own price, size and id back |
| Correlation.ForwardedPayload | examples/trading_system/session/DestinationSessionProtocolB.cpp:123-152 | the venue sees the same kind of request with a price and a size that read back as the client's |
| Correlation.ReplyLoggedExactly | framework/session/DestinationSession.h:89-114 | what the destination logs for a reply, code by code and in order: an unknown wire id, a failed validation, and then either nobody to deliver to or a transport that did not take it; nothing if and only if all went well; no other destination changes |
| Coherence.SlotIsDestination | framework/router/DestinationRouterRoundRobin.h:83-112 | a request reaches the destination of the slot it was given, and none without a slot |
| Coherence.StickyRouting | framework/router/DestinationRouterRoundRobin.h:99-117 | later requests of an order go to the slot that order was placed on whatever happened in between, and nowhere if it was not placed |
| Coherence.NewOrderUidIsFresh | framework/router/DestinationRouterRoundRobin.h:136-141 | a new order's uid is in neither uid map, so the duplicate branches are dead while the counter has not wrapped |
| Coherence.NewOrderPlacement | framework/router/DestinationRouterRoundRobin.h:83-97 | a new order finds no destination if and only if every slot's link is down, and otherwise goes to the first connected slot after the pointer |
| Coherence.UnknownOriginalNeverForwarded | framework/session/SourceSession.h:102-121 | a request whose original its source never sent is rejected twice and touches no destination and no counter |
| Coherence.CancelFollowsOrder | examples/trading_system/session/DestinationSessionProtocolB.cpp:188-199 | every forwarded cancel or replace goes where its source's first order with that id went, and names the first request accepted there under that client id |
| Coherence.CancelCoherence | examples/trading_system/session/DestinationSessionProtocolB.cpp:97-121 | with client ids distinct at a destination, a forwarded cancel or replace reaches the destination that took the order and carries the order's wire id in field o |
| Coherence.CancelCoherenceExact | examples/trading_system/session/DestinationSessionProtocolB.h:83-95 | without distinct ids and for any number of draws short of 2^64, field o is the wire id of the client's own order if and only if that order was accepted there a multiple of 2^32 draws after the first request under the id; within the first 2^32 draws that means it is that first request |
| Coherence.OneToOnePlacement | framework/router/DestinationRouterOneToOne.h:40-49 | with one-to-one routing a request finds no destination, and is refused with the code for that, if and only if the one link is down; otherwise it reaches that destination |
| Coherence.RejectedAndForwarded | framework/router/DestinationRouterOneToOne.h:40-49 | with one-to-one routing a request is both rejected and forwarded if and only if it is no new order, the link is up, validator and transport agree, its source sent no order with the original id, and the destination accepted a request under that id |
| Coherence.NeverRejectedAndForwarded | framework/session/SourceSession.h:102-121 | under round robin a request gets no reject if and only if it was forwarded, and two rejects exactly when it was not and its original was unknown |
| Coherence.ReachedForwardedExactly | framework/session/DestinationSession.h:118-146 | a request that reached a destination is forwarded if and only if its original is known there, the validator accepts and the transport takes it |
| Coherence.RefusalExplained | framework/session/DestinationSession.h:118-146 | a refusal's code names the first of unknown original, validator and transport that failed; it uses up one wire id and changes no destination |
| Coherence.CancelForwardedExactly | examples/trading_system/session/SourceSessionProtocolA.h:61-72 | a cancel or replace is forwarded if and only if its order was placed, that destination accepted a request under the id, and validator and transport agree |
| Conservation.MessageConservation | framework/session/DestinationSession.h:118-146 | what venues received equals what was forwarded, what clients received equals rejects plus delivered replies |
| Conservation.RejectsAreBlank | examples/trading_system/session/SourceSessionProtocolA.cpp:34-62 | rejects go to the requesting client only, one per failed stage: a cancel reject if and only if the request is a cancel, an execution report otherwise, with price, size and id zero |
| Conservation.RequestConservation | framework/session/SourceSession.h:102-121 | over every round-robin run requests are those taken by venues plus those rejected, with one reject each and one more per unknown original |
| Spread.TakenArePicks | framework/router/DestinationRouterRoundRobin.h:67-97 | the slots a source takes in any window of a run are the picks of the search over the links it saw |
| Spread.RunFairness | framework/router/DestinationRouterRoundRobin.h:67-97 | in every window of every run no slot is taken more than once more than a slot connected at each new order of the window |
| Spread.RunEvenSpread | framework/router/DestinationRouterRoundRobin.h:67-97 | in a window with constant links each of k connected slots takes floor(m/k) or ceil(m/k) of m orders |
| Spread.RunPlainRoundRobin | framework/router/DestinationRouterRoundRobin.h:67-97 | in such a window the orders take the connected slots in order, over and over |
| Limits.CancelNamesOtherClient | examples/trading_system/session/DestinationSessionProtocolB.cpp:154-199 | a run in which client 1's cancel reaches the venue under the wire id of client 0's order |
| Limits.ChainedCancelRejected | examples/trading_system/session/SourceSessionProtocolA.h:65-71 | a run in which the cancel of a replaced order by the replace's id is rejected twice |
| Limits.RetriedOrderNotCancellable | framework/session/SourceSession.h:112-118 | a run in which an accepted order cannot be cancelled because an earlier attempt holds its client id |
| Limits.OneToOneForwardsUnknown | framework/router/DestinationRouterOneToOne.h:40-49 | a run in which a request is rejected and forwarded, and the venue's reply reaches nobody |
| Limits.ReplyToWrongClient | examples/trading_system/message/protocol_b/schema/Messages.h:83-98 | a run beyond 2^32 draws in which the reply to client 1's order is delivered to client 0 |
| Sessions.DestinationSession.HandleOrigClOrdId | examples/trading_system/session/DestinationSessionProtocolB.cpp:188-199 | field o is the narrowed forward-index entry of the original, and lookup fails when there is none |
| Sessions.DestinationSession.UpdateDestinationRoutingInfo | examples/trading_system/session/DestinationSessionProtocolB.cpp:154-179 | both indexes gain the request's entries unless the keys are taken |
| Sessions.DestinationSession.OnMessageFromPeer | examples/trading_system/session/DestinationSessionProtocolB.cpp:88-121 | a request draws a wire id and is then refused or forwarded as the step says, with the indexes changed only when forwarded |
| Sessions.DestinationSession.OnMessageFromTransport | framework/session/DestinationSession.h:89-114 | a reply goes to the source its ids lead to, and every failed stage is logged without stopping the next |
| Sessions.DestinationRouterRoundRobin.GetNextSession | framework/router/DestinationRouterRoundRobin.h:67-71 | the pointer advances by one slot round the list |
| Sessions.DestinationRouterRoundRobin.CacheDestinationByUid | framework/router/DestinationRouterRoundRobin.h:136-141 | the cache gains the uid's slot unless it has one |
| Sessions.DestinationRouterRoundRobin.FindAvailableDestination | framework/router/DestinationRouterRoundRobin.h:85-96 | the loop leaves the pointer on the next connected slot, or unchanged when there is none or no slot at all |
| Sessions.DestinationRouterRoundRobin.SendFirstEvent | framework/router/DestinationRouterRoundRobin.h:82-97 | the first event goes to that slot's destination, which is cached even when it refuses; all other destinations keep their state |
| Sessions.DestinationRouterRoundRobin.SendSubsequentEvent | framework/router/DestinationRouterRoundRobin.h:99-117 | a subsequent event goes to the cached slot's destination or is rejected with no effect |
| Sessions.DestinationRouterOneToOne.OnMessageFromSource | framework/router/DestinationRouterOneToOne.h:40-49 | the one destination gets the request if connected, and otherwise nothing changes |
| Sessions.SourceRouter.UpdateSourceRoutingInfo | framework/router/SourceRouter.cpp:26-37 | a uid is bound to a session once and for all |
| Sessions.SourceRouter.SendMessageToSource | framework/router/SourceRouter.cpp:9-24 | exactly the session bound to the uid is handed the message, and nobody when there is none |
| Sessions.SourceSession.HandleMessageFromTransport | examples/trading_system/session/SourceSessionProtocolA.cpp:74-93 | a new order draws a fresh uid, other requests look up that of their original |
| Sessions.SourceSession.RejectMessageFromTransport | examples/trading_system/session/SourceSessionProtocolA.cpp:34-62 | a reject is one message more, a cancel reject if and only if the request is a cancel, with price, size and id zero |
| Sessions.SourceSession.UpdateSourceRoutingInfo | framework/session/SourceSession.h:160-171 | only new orders enter the two source-side indexes, whether or not they were sent |
| Sessions.SourceSession.OnMessageFromTransport | framework/session/SourceSession.h:100-121 | the pipeline with its fall-through has the effect of the step on everything it can reach |
| Sessions.Application.OnRequest | framework/session/SourceSession.h:100-121 | on the whole system of objects a client request performs exactly the step on values |
| Sessions.Application.OnReply | framework/session/DestinationSession.h:87-114 | on the whole system of objects a venue reply performs exactly the step on values |
| Sessions.Application.ProcessEvents | framework/socket/tcp/EpollSocketManager.cpp:198-220 | the objects that handle a sequence of events go through a run, so that every theorem about runs holds of them |
| Sessions.TwoClientsOneVenue | framework/socket/tcp/EpollSocketManager.cpp:198-220 | two clients and a venue built from nothing meet every precondition and go through a run |
| Framing.FramesAndResidue | framework/transport/TransportSingleThreaded.cpp:88-111 | frames and residue are the data, in order, none lost or repeated |
| Framing.ParseInTwoSteps | framework/transport/TransportSingleThreaded.cpp:88-111 | parsing what has arrived and then the residue with the rest is parsing everything at once |
| Framing.ReadsRefineParse | framework/transport/TransportSingleThreaded.cpp:82-112 | for every split into reads the dispatched frames and the residue are those of the whole stream's parse, size-zero heads repeated per read |
| Framing.BoundariesIndependent | framework/transport/TransportSingleThreaded.cpp:82-112 | where messages end: two splits of one stream cut off the same frames and leave the same residue unless a size-zero head comes to the front |
| Framing.BoundariesIndependentExact | framework/transport/TransportSingleThreaded.cpp:82-112 | the sequence of types and consumed bytes is independent of the split if and only if the stream does not end in a size-zero header with bytes behind it |
| Framing.ProgressExactly | framework/transport/TransportSingleThreaded.h:33-34 | the residue can still become a frame if and only if its size bytes do not rule out every size from 1 to 1024 |
| Framing.BadHeadBlocks | examples/trading_system/protocol/ProtocolB.cpp:39-49 | a head of size zero or over 1024 is never consumed, whatever follows it |
| Framing.FullOnlyBehindBadHead | framework/socket/tcp/EpollSocketManager.cpp:263-275 | the buffer is full after a read only behind a head that can never be consumed |
| Framing.GoodStreamLeavesRoom | framework/transport/TransportSingleThreaded.h:33-34 | while a stream of frames of size 1 to 1024 comes in, there is always room for the next read |
| Dispatch.StructReadsItsFields | framework/message/BinaryMessage.h:20-23 | a structure laid over memory is determined by the bytes up to the end of its last field, and by every one of them, whatever its size field says |
| Dispatch.CallbackFrames | framework/transport/TransportSingleThreaded.cpp:88-105 | where messages end does not depend on what lies in memory behind the received bytes |
| Dispatch.StaleBytesBehindFrames | framework/transport/TransportSingleThreaded.cpp:82-112 | over a whole connection a message that is not shorter than its fields, also one that is longer, is read from its own bytes, whatever the array held before and what lies behind it |
| Dispatch.CleanStream | framework/transport/TransportSingleThreaded.cpp:82-112 | a stream without short messages and without bytes behind a size-zero header is handed over as its messages call for, under every split and all stale bytes |
| Dispatch.ReadableExactly | framework/transport/TransportSingleThreaded.h:33-34 | the streams that reads can bring at all are those whose messages and remainder fit the buffer |
| Dispatch.EncodedStreamHandled | examples/trading_system/protocol/ProtocolB.cpp:39-88 | encoded messages are handed to the session exactly as sent and in order, under every split and all stale bytes, also when the connection breaks off inside a further message |
| Staleness.SettledExactly | examples/trading_system/protocol/ProtocolA.cpp:43-99 | what is handed over is a function of the stream alone, for all splits and all stale bytes, if and only if no session message is shorter than its fields and no size-zero header has bytes behind it; for every readable stream, provided that its first short message, if it has one, ends within the first 1024 bytes or has no message above 512 bytes before it |
| Staleness.SealedExactly | framework/transport/TransportSingleThreaded.cpp:82-112 | for every readable stream: under no split does what is handed over depend on stale bytes if and only if no reads can leave a short message's last field byte behind everything the connection has written |
| Staleness.StaleBytesSeen | framework/transport/TransportSingleThreaded.cpp:107-111 | if reads can do that, there are two connections with the same reads that are handed different messages |
| Staleness.StreamAloneDecides | examples/trading_system/protocol/ProtocolA.cpp:43-99 | for every readable stream, messages of any size included: what is handed over is a function of the stream alone, for it and for each of its tails as a connection of its own, if and only if it has no short message and nothing behind a size-zero header |
| Staleness.FullMessageHides | framework/transport/TransportSingleThreaded.h:33-34 | behind a message that fills the whole buffer a short one is handed over in the same way under every split, so that the exact condition needs its bound on earlier messages |
| Codec.EncodeDecode | examples/trading_system/message/protocol_a/schema/Messages.h:23-192 | an encoded message is cut off as one frame and decodes to itself and its number, whatever follows; which numbers stand where is what the rows of Layout state |
| Codec.StreamRoundTrip | examples/trading_system/message/protocol_b/schema/Messages.h:24-163 | an encoded stream parses into exactly its messages in order |
| Codec.ConsecutiveNumbers | framework/sequence_store/SequenceStore.h:20-22 | the i-th message of a stream carries the starting number plus i plus 1, modulo 2^64 |
| Codec.EncodeAcrossRestart | framework/sequence_store/SequenceStore.h:20-22 | the bytes sent before and after a restart are those of one uninterrupted numbering |
| Codec.StampAcrossRestart | framework/sequence_store/SequenceStore.h:20-22 | the numbering goes on over a restart without gap or repetition |
| Codec.StreamDelivery | framework/protocol/Protocol.h:133-141 | whatever the split, the peer dispatches exactly the messages sent, once and in order, and never fills its buffer |
| Codec.RequestsArrive | examples/trading_system/protocol/ProtocolA.cpp:75-92 | the source session receives exactly the requests its client encoded, however the bytes are split; that they are those of the schema is Layout.RequestBytes and Layout.ReceivedFromClient |
| Codec.ForwardsArrive | examples/trading_system/message/protocol_b/schema/Messages.h:83-130 | the venue reads exactly the forwarded requests, each field in its place although a cancel and a replace order c and o differently |
| Codec.RepliesArrive | examples/trading_system/protocol/ProtocolB.cpp:70-81 | the destination session receives exactly the replies its venue encoded |
| Codec.HandedArrive | examples/trading_system/message/protocol_a/schema/Messages.h:147-192 | the client reads exactly the messages handed to its transport |
| Layout.RequestBytes | examples/trading_system/message/protocol_a/schema/Messages.h:12-145 | new order, replace and cancel of protocol A: 29, 37 and 37 bytes, size at 0, type 3, 4 or 5 at 4, sequence number at 5, price at 13, size at 17, id at 21, original id at 29 |
| Layout.ClientMessageBytes | examples/trading_system/message/protocol_a/schema/Messages.h:147-192 | execution report and cancel reject of protocol A: 53 and 37 bytes, type 6 and 7, fields at 13, 17 and 21, zeros behind |
| Layout.WireRequestBytes | examples/trading_system/message/protocol_b/schema/Messages.h:24-130 | forwarded requests in protocol B: 40 bytes each, type 13, 14 or 15 at 4, version 1 at 8, sequence number at 16, price at 24, size at 28; in a replace c is at 32 and o at 36, in a cancel o at 32 and c at 36 |
| Layout.WireReplyBytes | examples/trading_system/message/protocol_b/schema/Messages.h:132-163 | replies in protocol B: 48 bytes with type 16 or 40 with type 17, a at 24, b at 28, c at 32 |
| Layout.ControlBytes | examples/trading_system/message/protocol_b/schema/Messages.h:11-81 | logon, logout and heartbeat: 21 bytes with types 0 to 2 in protocol A, 32 bytes with types 10 to 12 in protocol B |
| Layout.HeadInNumbers | examples/trading_system/protocol/ProtocolA.cpp:43-53 | a message is complete when 13 (protocol B: 24) bytes and as many as its first four announce have arrived; its type is the fifth byte, in protocol B the second four |
| Layout.ReceivedFromClient | examples/trading_system/protocol/ProtocolA.cpp:54-96 | by the type byte: 0 to 2 go to the protocol, 3 is a new order, 4 a replace, 5 a cancel with every field read at its offset, and everything else is invalid |
| Layout.ReceivedFromVenue | examples/trading_system/protocol/ProtocolB.cpp:51-85 | by the type field: 10 to 12 go to the protocol, 16 and 17 are replies with signed fields read at 24, 28 and 32, and everything else is invalid |
| Transport.SequenceStore.NextOutSequenceNumber | framework/sequence_store/SequenceStore.h:20-22 | the stored number is advanced by one and returned |
| Transport.SequenceStore.NextInSequenceNumber | framework/sequence_store/SequenceStore.h:16-18 | the stored inbound number is advanced by one and returned |
| Transport.Endpoint.SendToTransport | framework/protocol/Protocol.h:133-141 | the bytes on the wire stay the encoding of all messages sent, numbered on from the store |
| Transport.Endpoint.OnData | examples/trading_system/protocol/ProtocolA.cpp:43-99 | at most one message is dispatched, read from the received bytes and what lies behind them, never more is consumed than there is; one logon without content goes out for a logon, one logout for a logout, nothing for a heartbeat or an unknown type, and for a session message whatever the session sends meanwhile |
| Transport.Endpoint.Dispatch | examples/trading_system/protocol/ProtocolB.cpp:51-85 | the message is handed to the protocol, the session or nobody by its type, and what goes out is given case by case: a logon for a logon, a logout for a logout, nothing, or the session's own output such as two rejects |
| Transport.ReactionsInOrder | examples/trading_system/protocol/ProtocolA.cpp:51-98 | what goes out at one callback, answer or session output, stands behind what went out at earlier callbacks and in front of what goes out at later ones |
| Transport.OneCall | framework/transport/TransportSingleThreaded.cpp:88-105 | one callback and those on what it leaves add up to all callbacks, in what is dispatched, what is sent in between and what is left |
| Transport.TransportSingleThreaded.ReadData | framework/transport/TransportSingleThreaded.cpp:76-80 | a read puts as many bytes as fit behind the residue and changes nothing else in the array |
| Transport.TransportSingleThreaded.Consume | framework/transport/TransportSingleThreaded.cpp:88-105 | the loop ends, dispatches the messages of the buffered bytes and stops at their residue, with answers and session output sent in between; consuming more than the data is impossible |
| Transport.TransportSingleThreaded.Compact | framework/transport/TransportSingleThreaded.cpp:107-111 | the unconsumed bytes are at the front, also when source and target overlap, and all bytes behind them are stale ones left as they were |
| Transport.TransportSingleThreaded.ProcessData | framework/transport/TransportSingleThreaded.cpp:82-112 | the whole array is known afterwards, residue and stale bytes; the messages were dispatched, and answers and session output went out interleaved as the messages came |
| Transport.TransportSingleThreaded.Advance | framework/transport/TransportSingleThreaded.cpp:82-112 | after every read the array, the write offset and everything dispatched are, byte by byte, what the reads of the connection make of its first content |
| Transport.TransportSingleThreaded.OnDisconnect | framework/transport/TransportSingleThreaded.cpp:66-74 | the residue is forgotten and parsing starts afresh, over an array that still holds the old bytes |
| Transport.TransportSingleThreaded.ProcessReceivedData | framework/socket/tcp/EpollSocketManager.cpp:263-275 | a read event takes the connection one step further and sends the answers and session output it leads to; a live peer is taken for closed only behind a head that can never be consumed |
| Transport.ReplayGoesOn | framework/transport/TransportSingleThreaded.cpp:82-112 | one more read that fits takes a connection one step further |
| Transport.ReplayRefinesParse | framework/transport/TransportSingleThreaded.cpp:82-112 | on a connection in any state the buffer holds the residue of the parse of all received bytes, and the messages of that parse were dispatched, a size-zero head once per read |
| Transport.ReplayOfCleanStream | framework/transport/TransportSingleThreaded.cpp:82-112 | if these bytes are clean, everything dispatched is what they alone call for |
| Transport.Endpoint.WireIsEncoding | framework/protocol/Protocol.h:133-141 | in every valid state the bytes handed to the transport are the encoding of all messages sent, answers and session output alike, numbered on from the store |
| StreamLimits.ShortOrderReadsOn | framework/message/BinaryMessage.h:20-23 | an order header of size 13 and a logon: in one read the order's price is 21, in two reads it is 0, although the messages end at the same places |
| StreamLimits.ShortOrderAfterLogon | framework/message/BinaryMessage.h:20-23 | a logon of the usual size and then an order header of size 13: what the session is handed is no function of the stream |
| StreamLimits.LargeLogonHidesOrder | framework/message/BinaryMessage.h:20-23 | behind a logon of 1024 bytes the same order is handed over in one way only |
| StreamLimits.ZeroSizedLogon | examples/trading_system/protocol/ProtocolA.cpp:51-98 | a logon header of size zero and one byte: one logon in one read, two in two reads |
| StreamLimits.OversizedFillsBuffer | framework/transport/TransportSingleThreaded.h:33-34 | a header that announces 1025 bytes is never consumed and leaves no room for a read |
| StreamLimits.OversizedMessageClosesPeer | framework/socket/tcp/EpollSocketManager.cpp:263-275 | on the real buffer the read after such a header returns zero, so that a sending peer counts as closed |
| Inbound.TimelineCarries | framework/socket/tcp/EpollSocketManager.cpp:198-220 | among reads on any connections, and connections that end and are made again, the events of each session carry what its own connections delivered |
| Inbound.TicksOfCallback | framework/session/DestinationSession.h:118-146 | what one callback leads to, in full: an answer to a logon or logout, at most one event for a session message, with the validator's answer to this callback and a transport that takes what is sent, and nothing otherwise |
| Inbound.MessagesBecomeEvents | examples/trading_system/protocol/ProtocolA.cpp:51-98 | among any reads of others and over any number of connections, what a peer's encoded messages lead to is, message by message and in order, one empty logon per logon, one empty logout per logout, and one event per session message |
| Inbound.RequestsDriveRun | examples/trading_system/protocol/ProtocolA.cpp:75-92 | client bytes under any split, over any number of connections that may break off inside a message, drive a run whose requests of that client are exactly those among the messages it encoded, logons and others included, in order |
| Inbound.RepliesDriveRun | examples/trading_system/protocol/ProtocolB.cpp:70-81 | and likewise the replies of a venue |
| Inbound.SessionMessageIsRequest | examples/trading_system/protocol/ProtocolA.cpp:75-92 | every valid message of a kind that is handed to the client's session is one request, which says all the message says |
| Inbound.SessionMessageIsReply | examples/trading_system/protocol/ProtocolB.cpp:70-81 | every valid message of a kind that is handed to the venue's session is one reply |
| Outbound.OwnReactions | framework/protocol/Protocol.h:133-141 | what a read sends back on its own connection is protocol answers and session output interleaved, where the output at each callback is what the run's steps for that callback's events let the session send, counted behind the events of the callbacks before it; all of it can be sent |
| Gateway.OnRead | framework/socket/tcp/EpollSocketManager.cpp:263-275 | one read event on the whole system of objects: it takes as many of the waiting bytes as the buffer has room for, and counts as the end of the connection only if none wait or none fit; the sessions go on in their run with exactly the events these bytes stand for, every buffer holds what the arrivals make of it, and what every endpoint has sent is what answers and run call for |
| Gateway.Serve | framework/socket/tcp/EpollSocketManager.cpp:198-220 | for any list of read events on any connections: exactly these arrive, each on its connection, with as many of its bytes as fit behind what earlier ones left, its memory behind the buffer and its validator |
| Gateway.SentToOther | framework/session/DestinationSession.h:118-146 | while messages of one peer are handled, another peer is sent what the new events add to its session's output and nothing else |
| Gateway.ClientReadsWire | examples/trading_system/message/protocol_a/schema/Messages.h:147-192 | a client reads from the bytes that its endpoint has written, under any split, exactly the messages its session handed over |
| Gateway.VenueReadsWire | examples/trading_system/message/protocol_b/schema/Messages.h:83-130 | a venue reads from the bytes that its endpoint has written exactly the requests its session forwarded |
| Gateway.ClientIsHeard | examples/trading_system/protocol/ProtocolA.cpp:75-92 | the sessions have handled, for each client, exactly the requests it encoded, in order, over all its connections |
| Gateway.VenueIsHeard | examples/trading_system/protocol/ProtocolB.cpp:70-81 | and for each venue exactly the replies it encoded |
| Gateway.ServeTwoClientsOneVenue | framework/socket/tcp/EpollSocketManager.cpp:198-220 | two clients that can both reach a connected venue, built and connected from nothing, are served exactly the given read events |
| EndToEnd.EventOrigin | framework/session/SourceSession.h:102-121 | every event of the run comes from one callback of one arrival, behind the events of all earlier callbacks; it carries the request or reply read there, the validator's answer to just this callback, and a transport that takes everything |
| EndToEnd.EventsAreTaken | framework/transport/TransportSingleThreaded.cpp:121-128 | no event of the gateway's run has a send refused, and no link changes |
| EndToEnd.EndpointAnswers | examples/trading_system/protocol/ProtocolA.cpp:101-140 | read back from its connection under any split, the protocol's own messages to a peer are one empty logon for each logon it sent and one empty logout for each logout, in order, and nothing for heartbeats |
| EndToEnd.EndpointAnswersInPlace | examples/trading_system/protocol/ProtocolA.cpp:51-98 | each answer stands on the wire behind all the session had sent when the earlier messages were handled, and in front of all it sent later |
| EndToEnd.OrderTaken | framework/session/DestinationSession.h:118-146 | the bytes of a valid new order are one step of the run, after which the venue behind the next connected slot has been sent exactly this order under the second id drawn, no other venue has changed and no client was handed anything |
| EndToEnd.OrderGoesOut | framework/session/DestinationSession.h:118-146 | on the objects, from bytes to bytes: the 29 bytes of a valid new order arrive, and 40 bytes with the same price and size and the id drawn go out on that venue's connection, and no byte on any other |
| EndToEnd.FirstOrder | framework/socket/tcp/EpollSocketManager.cpp:198-220 | on a system built from nothing either client's first order reaches the venue as 40 bytes of type 13 with id 2 |

## Left out

- Sockets, epoll registration, accept, connect and the asynchronous send queue: a read is any bytes that fit, a send is its answer.
- A disconnect from inside the data callback: it would reset the buffer in the middle of the consume loop; the callback is taken to leave the buffer alone.
- What lies in memory behind the receive buffer: taken as arbitrary bytes, although in the code the write offset and other members of the transport follow it.
- Padding bytes of protocol B structures: written as zeros, although the language leaves their value open.
- The memory-mapped file: only that its two counters outlive an endpoint.
- Which concrete checks a validator makes, transforms (empty in the code), timestamps, logging, configuration, factories and the simulators.
- The state machine table in framework/state_machine/StateMachine.h: nothing uses it.
- Heartbeat sending: no code path calls it.
- Message objects that the pipelines fill in place: uid, c, o and the client id are local values that are passed on, because nobody else holds the object.
- Gateway.OnRead: the sessions handle all messages of one read before the transports send what that leads to; each connection's own order is kept, the order between different connections is not modelled.
- Gateway.ClientReadsWire: an endpoint's bytes are one stream over all its connections; what a drop loses in flight is not modelled.
- Inbound.RequestsDriveRun: every send is accepted (`send_data` fails by an exception only) and links stay as they are, because nothing in the code sets `connected_`; the same goes for everything in `Inbound.dfy`, `Outbound.dfy`, `Gateway.dfy` and `EndToEnd.dfy`.
- Threads: each inbound message is one step, as in the single event loop of the code.
- Coherence.NewOrderUidIsFresh: speaks of counters that have not wrapped at 2^64, as do the theorems that use uids; a wrapped counter hands out uid 0 and old uids again.
