/** Application messages of the client protocol (A) and of the venue protocol (B). */
module Messages {
  import opened Types
  import opened WireIds

  /** Client requests. Only NewOrderSingle starts a message chain. */
  datatype Request =
    | NewOrderSingle(a: uint32, b: uint32, clOrdId: uint64)
    | CancelReplaceRequest(a: uint32, b: uint32, clOrdId: uint64, origClOrdId: uint64)
    | CancelRequest(a: uint32, b: uint32, clOrdId: uint64, origClOrdId: uint64)

  /** Requests as the venue sees them. */
  datatype WireRequest =
    | WireNewOrderSingle(a: int32, b: int32, c: int32)
    | WireCancelReplaceRequest(a: int32, b: int32, c: int32, o: int32)
    | WireCancelRequest(a: int32, b: int32, c: int32, o: int32)

  datatype ReplyKind = ExecutionReport | CancelReject

  /** Venue replies; fields o and e are never read by the router. */
  datatype WireReply = WireReply(kind: ReplyKind, a: int32, b: int32, c: int32)

  /** Messages handed to a client. All other fields of the schema stay zero. */
  datatype ClientMessage = ClientMessage(kind: ReplyKind, a: uint32, b: uint32, clOrdId: uint64)

  /** The reject a client gets carries no ids: only its type depends on the request. */
  function BlankReject(req: Request): ClientMessage {
    ClientMessage(if req.CancelRequest? then CancelReject else ExecutionReport, 0, 0, 0)
  }

  /** `encode_message_to_destination_impl`, with c and o filled in. */
  function ToWire(req: Request, c: int32, o: int32): WireRequest {
    match req
    case NewOrderSingle(a, b, _) => WireNewOrderSingle(Narrow(a), Narrow(b), c)
    case CancelReplaceRequest(a, b, _, _) => WireCancelReplaceRequest(Narrow(a), Narrow(b), c, o)
    case CancelRequest(a, b, _, _) => WireCancelRequest(Narrow(a), Narrow(b), c, o)
  }
}
