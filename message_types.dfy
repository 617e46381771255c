/**
 * The bloXroute message types that the modelled code dispatches on. The enumeration itself and its wire tags are
 * not part of this model; a type the modelled code does not name is `Other(tag)`, and the falsy type (`None` or an
 * empty tag) is what `not msg_type` rejects.
 */
module MessageTypes {
  import opened Wrappers

  datatype MessageType =
    | Hello
    | Ack
    | Ping
    | Pong
    | Broadcast
    | Transaction
    | GetTransactions
    | Transactions
    | Key
    | BlockHolding
    | DisconnectRelayPeer
    | TxServiceSyncReq
    | TxServiceSyncBlocksShortIds
    | TxServiceSyncTxs
    | TxServiceSyncComplete
    | BlockConfirmation
    | TransactionCleanup
    | Notification
    | BdnPerformanceStats
    | Other(tag: seq<char>)

  /** Python's `not msg_type`: no type at all, or an empty tag. */
  predicate Falsy(t: Option<MessageType>)
  {
    t.None? || (t.value.Other? && t.value.tag == [])
  }
}
