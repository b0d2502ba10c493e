/** Machine integers and the few map operations the routing code relies on. */
module Types {
  const TWO31 := 0x8000_0000
  const TWO32 := 0x1_0000_0000
  const TWO64 := 0x1_0000_0000_0000_0000

  type uint32 = x: int | 0 <= x < TWO32
  type uint64 = x: int | 0 <= x < TWO64
  type int32 = x: int | -TWO31 <= x < TWO31
  type byte = x: int | 0 <= x < 256

  datatype Option<+T> = None | Some(value: T)

  /** The outcome codes that the modelled paths can produce. */
  datatype RejectCode =
    | SourceSessionInvalidOriginalMsgId
    | DestinationRouterNoDestinationsAvailable
    | DestinationRouterSessionNotFoundForUid
    | SourceRouterRoutingFailed
    | DestinationSessionInvalidOriginalMsgId
    | DestinationSessionSourceMsgIdNotFound
    | ValidatorValidationFailed
    | TransportFailedToSendData

  datatype RejectInfo = Success | Rejected(code: RejectCode)

  function Find<K, V>(m: map<K, V>, k: K): Option<V> {
    if k in m then Some(m[k]) else None
  }

  /** `emplace` and `try_emplace`: an existing entry is never overwritten. */
  function Emplace<K, V>(m: map<K, V>, k: K, v: V): map<K, V> {
    if k in m then m else m[k := v]
  }
}
