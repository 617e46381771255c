# bxcommon core in Dafny

A model of the core of bloXroute's `bxcommon` library, with proofs about it. The core has four parts.

- **The transaction service.** A short-id transaction cache with an expiration queue. It keeps three correlated maps:
  hash → short ids, short id → hash, and hash → contents. It also keeps a running contents size and an
  insertion-ordered window of the blocks it has seen. Entries leave the cache in three ways: by time to live, by the
  memory limit, and by block confirmation.
- **The expiration queue** the service uses.
- **The message-processing engine of a peer connection.**
- **Codecs and registries.** The `TxsMessage` and `TxMessage` byte codecs, the broadcast-header preview of the
  version-8 message factory, the version-9 converter of the BDN performance statistics message, and the version-1
  and version-18 converter factories.

Each source file becomes one Dafny module, in the form the source takes:

- `expiration_queue.dfy` (`ExpirationQueues`). A generic `ExpirationQueue<T>` class. Its `queue` field is a
  sequence of (item, timestamp) pairs with distinct keys. That is Python's `OrderedDict`: re-adding an item keeps
  its place and updates its timestamp. The pure sequence operations live in `ordered_maps.dfy` (`OrderedMaps`).
  Time is the integer parameter `now`.
- `transaction_service.dfy` (`TransactionServices`). The `TransactionService` class. It holds the maps, the counters,
  the block window and its `ExpirationQueue<int>`. `Snapshot()` collects those into a `Pool` value. Every
  state-changing method is proved to leave `Snapshot() == F(old(Snapshot()))` for a pure function `F` in
  `transaction_pool.dfy` (`TransactionPools`), and to keep `Valid()`. The properties of `F`, and the invariant
  `Inv`, are lemmas there. `Inv` says:
  - every mapped short id is in the id set of its hash;
  - the null short id is never stored;
  - the queue holds exactly the mapped short ids, each once;
  - the size counter equals the summed length of the stored contents;
  - the block window has distinct keys.

  The loops of the source stay loops: the memory clean-up, the expiry sweep, and the iterations over sibling short
  ids and over a confirmed block's ids.
- `connection.dfy` (`Connections`). The `Connection` class and a minimal `Node`.
  - Everything the processing loop reads or writes is one value `Conn`: the input buffer, the state flags, the
    alive flag, the bad-message counter and the output buffer.
  - One round of the `while True` loop is the function `Step`. `Process` iterates `Step` until a round stops.
  - The method `ProcessMessage` runs the loop on the object and is proved equal to `Process`. The lemmas about
    `Step` and `Process` state the strike counter, the handshake gate, the error tiers, termination and the
    monotonic state flags.
  - The header preview, validation, decoding, the handler table and the hello types come from a message factory and
    from subclasses that are not in this model. They are the function-valued fields of `Protocol`.
  - The socket is reduced to the `alive` flag, which `mark_for_close` clears.
- `txs_message.dfy` (`TxsMessages`) and `tx_message.dfy` (`TxMessages`). These are imperative: they write into an
  `array<byte>` or a `seq<byte>` at an advancing offset. They are proved against the pure layout functions
  `Serialized`, `ParseTxs` and `Layout`. Round trips are proved about those functions. Both message classes cache
  what they parse, as the source does.
- `broadcast_preview.dfy` (`BroadcastPreviews`), `bdn_stats_converter.dfy` (`BdnStatsConverters`) and
  `converter_factories.dfy` (`ConverterFactories`). These are pure functions. Where the source fills a bytearray by
  `pack_into` and slice assignment, the v9 converter has a method that does so step by step, proved equal to the
  pure function.
- Shared modules:
  - `wrappers.dfy`: `Option` and `Result`.
  - `bytes.dfy`: `byte`, little-endian packing, and Python's slice and `pack_into` semantics. A `pack_into` past
    the end is a `struct.error`.
  - `bloxroute_layout.dfy`: the message-layout constants.
  - `message_types.dfy`: the message types.
  - `transaction_info.dfy`: `TransactionInfo` and `NULL_TX_SID`.

Constants the source defines are Dafny constants with the same values:
- `NULL_TX_SID` = 0;
- `MAX_BAD_MESSAGES` = 3;
- `PING_INTERVAL_S` = 60;
- `CANCEL_ALARMS` = 0;
- `HDR_COMMON_OFF` = 16;
- `NODE_ID_SIZE_IN_BYTES` = 16;
- the u16 and u32 widths.

Constants belonging to classes outside this model stay symbolic: `HEADER_LENGTH`, the broadcast payload length,
`CONTROL_FLAGS_LEN`, `BROADCAST_TYPE_LEN`, `DOUBLE_SIZE_IN_BYTES`, the quota type values and the two performance
message sizes. `SID_LEN` and `QUOTA_FLAG_LEN` are taken as the widths of the formats packed into them (`<L`, `<B`).

The base `msg_hello` and `msg_ack` do not leave a connection `ESTABLISHED` that was not already so. They call
`on_connection_established` only when `is_active()` already holds, and it then does nothing. So `AckHello` and
`MsgAck` only enqueue the ack and add their own flag. `BaseHandlersKeepFlags` proves that the ack handler leaves
`ESTABLISHED` as it found it.

## Model

Paths are relative to the repository root. AC is `src/bxcommon/connections/abstract_connection.py`; TS is
`src/bxcommon/services/transaction_service.py`.

| member | source | states |
|---|---|---|
| ExpirationQueues.ExpirationQueue.constructor | src/bxcommon/utils/expiration_queue.py:18-24 | a queue with a non-negative time to live starts empty and valid |
| ExpirationQueues.ExpirationQueue.Create | src/bxcommon/utils/expiration_queue.py:18-24 | fails exactly when the time to live is negative (the `ValueError`); otherwise a fresh empty queue with that time to live |
| ExpirationQueues.ExpirationQueue.NonEmpty | src/bxcommon/utils/expiration_queue.py:26-30 | `bool(q)` holds iff `len(q) > 0` |
| ExpirationQueues.ExpirationQueue.Add | src/bxcommon/utils/expiration_queue.py:32-37 | the queue becomes the ordered-dict update: a present item keeps its place with the new timestamp, an absent one is appended; the item's timestamp is `now`; the length grows by one iff the item was absent; keys stay distinct |
| ExpirationQueues.ExpirationQueue.Remove | src/bxcommon/utils/expiration_queue.py:39-45 | only that item is dropped and the order of the others is kept; the item is then absent; an absent item leaves the queue unchanged |
| ExpirationQueues.ExpirationQueue.GetOldest | src/bxcommon/utils/expiration_queue.py:68-76 | None iff the queue is empty, otherwise the first key |
| ExpirationQueues.ExpirationQueue.GetOldestItemTimestamp | src/bxcommon/utils/expiration_queue.py:78-88 | None iff the queue is empty, otherwise the timestamp stored for the first key |
| ExpirationQueues.ExpirationQueue.RemoveExpired | src/bxcommon/utils/expiration_queue.py:47-66 | the new queue is a suffix of the old one; the removed items are the keys of the dropped prefix, in order; each was strictly older than the time to live (`now - ts > ttl`); the sweep stops at an empty queue or at the first unexpired item |
| ExpirationQueues.ExpirationQueue.RemoveOldest | src/bxcommon/utils/expiration_queue.py:90-99 | returns the former oldest item and drops exactly the first pair; an empty queue is left empty and None is returned |
| OrderedMaps.Put | src/bxcommon/utils/expiration_queue.py:37 | `d[k] = v` on an ordered dict: a present key is replaced in place and the length is kept; an absent key is appended |
| OrderedMaps.PutGet | src/bxcommon/utils/expiration_queue.py:37 | after `d[k] = v`, looking up k gives v and every other key gives what it gave before |
| OrderedMaps.WithoutFacts | src/bxcommon/utils/expiration_queue.py:44-45 | deleting keys keeps exactly the pairs whose key was not deleted |
| OrderedMaps.KeySetWithout | src/bxcommon/utils/expiration_queue.py:44-45 | the keys after deletion are the keys before minus the deleted ones |
| TransactionServices.TransactionService.constructor | src/bxcommon/services/transaction_service.py:64-94 | a node's service starts valid with empty maps, an empty queue with the node's expiry time, an empty block window, zero counters, no alarm, and the given confirmation count and memory limit |
| TransactionServices.TransactionService.Create | src/bxcommon/services/transaction_service.py:85 | fails exactly when the expiry time is negative (the queue's `ValueError`); otherwise the fresh empty service |
| TransactionServices.TransactionService.SetFinalTxConfirmationsCount | src/bxcommon/services/transaction_service.py:104-105 | only the confirmation count changes |
| TransactionServices.TransactionService.GetShortIds | src/bxcommon/services/transaction_service.py:212-223 | never empty; `{NULL_TX_SID}` iff the hash has no short ids; otherwise it excludes the null id and includes every short id that maps to the hash |
| TransactionServices.TransactionService.GetShortId | src/bxcommon/services/transaction_service.py:203-210 | one member of `get_short_ids`; the null id iff the hash has no short id |
| TransactionServices.TransactionService.GetTransaction | src/bxcommon/services/transaction_service.py:225-243 | keeps the short id; has a hash iff the short id is mapped, and it is the mapped hash; has contents iff that hash has stored contents, and they are those contents |
| TransactionServices.TransactionService.GetTransactionByHash | src/bxcommon/services/transaction_service.py:263-274 | Some iff contents are stored for the hash, and then those contents |
| TransactionServices.TransactionService.GetTrackedSeenBlockCount | src/bxcommon/services/transaction_service.py:319-320 | on a valid service, the number of distinct tracked blocks |
| TransactionServices.TransactionService.GetTransactions | src/bxcommon/services/transaction_service.py:276-299 | the loop yields the found list and the missing list, in request order; together they have one entry per requested short id |
| TransactionPools.Lookup | src/bxcommon/services/transaction_service.py:286-296 | the lookup of one short id: its hash iff it is mapped; its contents iff the mapped hash has contents |
| TransactionPools.FoundTransactions | src/bxcommon/services/transaction_service.py:286-291 | every found entry is a requested short id with contents, and equals that id's lookup |
| TransactionPools.MissingTransactions | src/bxcommon/services/transaction_service.py:292-297 | every missing entry is a requested short id with no hash and no contents in the result, and its lookup has no contents |
| TransactionPools.FoundMissingPartition | src/bxcommon/services/transaction_service.py:276-299 | the found and missing lists together have exactly as many entries as were requested |
| TransactionServices.TransactionService.GetMissingTransactions | src/bxcommon/services/transaction_service.py:245-261 | the loop yields the unknown short ids and the hashes without contents; `has_missing` holds iff one of the lists is non-empty, iff some requested id has no contents |
| TransactionPools.UnknownShortIds | src/bxcommon/services/transaction_service.py:252-256 | a short id is reported iff it was requested and is not mapped |
| TransactionPools.UnknownHashes | src/bxcommon/services/transaction_service.py:257-260 | every reported hash lacks contents and is the hash of a requested mapped id; every requested mapped id whose hash lacks contents has its hash reported |
| TransactionServices.TransactionService.GetShortIdsSeenInBlockCountInfo | src/bxcommon/services/transaction_service.py:309-317 | on a valid service, the loop yields the number of tracked blocks, which are distinct, and the total number of short ids over all tracked blocks |
| TransactionServices.TransactionService.IterBlockSeenByTime | src/bxcommon/services/transaction_service.py:676-680 | the enumeration loop yields the window's block hashes at positions `skip_start <= idx <= len - skip_end`, oldest first |
| TransactionPools.SeenByTimeAsWritten | src/bxcommon/services/transaction_service.py:676-680 | only tracked blocks are yielded |
| TransactionPools.OldestTrackedAsWrittenKeepsOneNewest | src/bxcommon/services/transaction_service.py:676-680 | skipping k >= 1 newest blocks as written yields the first `len - k + 1` blocks, so the k-th newest is still included; skipping 1 yields every block |
| TransactionServices.TransactionService.IterBlockSeenByTimeCorrected | src/bxcommon/services/transaction_service.py:488-508 | the same loop with the bound made exclusive (`idx < len - skip_end`) |
| TransactionPools.SeenByTime | src/bxcommon/services/transaction_service.py:501-508 | only tracked blocks are yielded |
| TransactionPools.OldestTrackedSkipsNewest | src/bxcommon/services/transaction_service.py:501-508 | with the exclusive bound, skipping k newest blocks yields exactly the first `len - k` blocks and none of the k newest |
| TransactionServices.TransactionService.GetOldestTrackedBlock | src/bxcommon/services/transaction_service.py:501-508 | the window from 0 with `skip_block_count` skipped at the end; for 1 <= k <= len this is the first `len - k + 1` blocks |
| TransactionServices.TransactionService.GetOldestTrackedBlockCorrected | src/bxcommon/services/transaction_service.py:501-508 | the corrected window; for 0 <= k <= len this is the first `len - k` blocks |
| TransactionServices.TransactionService.GetTrackedBlocks | src/bxcommon/services/transaction_service.py:488-499 | the keys are exactly the yielded blocks, and each block maps to an index at which the run yields it |
| TransactionServices.TransactionService.OnBlockCleanedUp | src/bxcommon/services/transaction_service.py:510-516 | the state becomes `BlockCleanedUp` of the old state and stays valid |
| TransactionPools.BlockCleanedUpFacts | src/bxcommon/services/transaction_service.py:510-516 | the block is no longer tracked and the invariant is kept |
| TransactionServices.TransactionService.RemoveTransactionByTxHash | src/bxcommon/services/transaction_service.py:107-137 | returns `RemovedByHash` and leaves `RemoveByHash` of the old state; the service stays valid |
| TransactionServices.TransactionService.DetachHash | src/bxcommon/services/transaction_service.py:112-130 | the body of `remove_transaction_by_tx_hash`: the state becomes `RemoveByHash` of the old state |
| TransactionServices.TransactionService.ForgetShortIds | src/bxcommon/services/transaction_service.py:118-123 | the loop over the hash's short ids unmaps and unqueues exactly that set |
| TransactionServices.TransactionService.ForgetShortId | src/bxcommon/services/transaction_service.py:120-122 | one short id leaves the id map and the queue; nothing else changes |
| TransactionServices.TransactionService.ForgetContents | src/bxcommon/services/transaction_service.py:127-129 | the contents of the hash are dropped and the size counter falls by their length |
| TransactionPools.InvRemoveByHash | src/bxcommon/services/transaction_service.py:107-137 | removing by hash keeps the invariant |
| TransactionPools.RemoveByHashEffects | src/bxcommon/services/transaction_service.py:107-137 | the result is `{NULL_TX_SID}` iff the hash had no short ids; the hash leaves both hash maps; exactly the returned ids leave the id map and the queue, so none of them resolve; the block window, the counters and the alarm flag are kept |
| TransactionPools.RemoveKnownHashEffects | src/bxcommon/services/transaction_service.py:116-123 | for a hash with short ids: the returned set is its ids and they are all removed |
| TransactionPools.RemoveUnknownHashEffects | src/bxcommon/services/transaction_service.py:124-125 | for a hash without short ids: `{NULL_TX_SID}` is returned, and only its contents, if any, are removed |
| TransactionPools.DropShortIdsFacts | src/bxcommon/services/transaction_service.py:118-123 | dropping a set of ids removes exactly those keys from the queue and keeps its keys distinct |
| TransactionPools.DropContentsFacts | src/bxcommon/services/transaction_service.py:127-129 | dropping contents keeps the size counter equal to the summed length of the contents |
| TransactionPools.TotalLengthRemove | src/bxcommon/services/transaction_service.py:128 | removing one hash's contents lowers the summed length by exactly their length |
| TransactionPools.TotalLengthPut | src/bxcommon/services/transaction_service.py:153 | replacing one hash's contents changes the summed length by `len(new) - previous_size` |
| TransactionServices.TransactionService.RemoveTransactionByShortId | src/bxcommon/services/transaction_service.py:533-567 | from any state valid except for that short id, the state becomes `RemoveByShortId` of the old state and is valid |
| TransactionServices.TransactionService.DetachShortId | src/bxcommon/services/transaction_service.py:538-567 | the body: the state becomes `RemoveByShortId` of the old state |
| TransactionServices.TransactionService.UnlinkShortId | src/bxcommon/services/transaction_service.py:538-565 | the body before the final unqueueing: the state becomes `Unlinked` of the old state |
| TransactionPools.InvRemoveByShortId | src/bxcommon/services/transaction_service.py:533-567 | removing a short id keeps the invariant, even when the id had already been popped from the queue |
| TransactionPools.InvRemoveQueued | src/bxcommon/services/transaction_service.py:567 | unqueueing an id that is no longer mapped restores the full invariant |
| TransactionPools.InvRemoveWithRelated | src/bxcommon/services/transaction_service.py:547-563 | the branch that drops the whole transaction keeps the invariant |
| TransactionPools.InvRemoveOnlyShortId | src/bxcommon/services/transaction_service.py:564-565 | the branch that drops only this id keeps the invariant |
| TransactionPools.DropRelatedIndexed | src/bxcommon/services/transaction_service.py:547-561 | dropping all siblings keeps the reverse index; the id map loses exactly the hash's short ids |
| TransactionPools.DropRelatedTotal | src/bxcommon/services/transaction_service.py:555-557 | the size counter still equals the summed length of the stored contents |
| TransactionPools.DropRelatedQueue | src/bxcommon/services/transaction_service.py:548-553 | the queue keeps distinct keys and, apart from the id itself, equals the mapped ids |
| TransactionPools.RelatedContents | src/bxcommon/services/transaction_service.py:555-557 | the whole-transaction branch deletes exactly that hash's contents |
| TransactionPools.RelatedQueue | src/bxcommon/services/transaction_service.py:548-567 | after the final unqueue, the queue is the old one without any of the hash's short ids |
| TransactionPools.RelatedEffects | src/bxcommon/services/transaction_service.py:547-567 | the whole-transaction branch removes every sibling from the id map and the queue, and deletes the hash's id set and contents |
| TransactionPools.QueueMinusIds | src/bxcommon/services/transaction_service.py:548-553 | deleting a set of ids from the queue and from the id map keeps their key sets equal |
| TransactionPools.RemoveByShortIdEffects | src/bxcommon/services/transaction_service.py:538-567 | the id no longer resolves and is unqueued. If it had siblings and `remove_related_short_ids` is false, only that id leaves the id map and the hash's set, and contents are kept. Otherwise all the hash's ids leave the map and the queue, and its id set and contents are deleted. An unmapped id is only unqueued |
| TransactionPools.RemoveByShortIdCases | src/bxcommon/services/transaction_service.py:538-567 | the removal is the unlinking followed by the final `remove(short_id)`; unlinking keeps the window, counters and alarm, and unqueues nothing or exactly the id's siblings |
| TransactionPools.RemoveByShortIdKeepsRest | src/bxcommon/services/transaction_service.py:533-567 | the block window, removed count, alarm state and confirmation count are untouched |
| TransactionPools.RemoveByShortIdShrinksMaps | src/bxcommon/services/transaction_service.py:533-567 | the id maps lose at least the id and the contents map gains no key |
| TransactionPools.RemoveByShortIdShrinksQueue | src/bxcommon/services/transaction_service.py:533-567 | the queue loses at least the id and never grows |
| TransactionServices.TransactionService.AssignShortId | src/bxcommon/services/transaction_service.py:183-201 | the state becomes `Assign` of the old state and stays valid |
| TransactionServices.TransactionService.LinkShortId | src/bxcommon/services/transaction_service.py:194-201 | the body: the state becomes `Assign` of the old state |
| TransactionServices.TransactionService.ScheduleExpiryAlarm | src/bxcommon/services/transaction_service.py:199-201 | the alarm is registered once, only if none is scheduled, and the flag is set |
| TransactionPools.AssignEffects | src/bxcommon/services/transaction_service.py:189-201 | the null short id changes nothing. Any other id becomes mapped and is in the hash's id set, which never holds the null id. `get_transaction` then gives the hash, and the id is queued at `now`. The queue grows iff the id was new. The alarm is scheduled, and registered only if it was not already. Contents, size and block window are kept |
| TransactionPools.InvAssign | src/bxcommon/services/transaction_service.py:183-201 | assigning keeps the invariant |
| TransactionPools.QueuedIffResolvable | src/bxcommon/services/transaction_service.py:195-197 | under the invariant, a short id is queued iff it is mapped |
| TransactionPools.IndexedAssign | src/bxcommon/services/transaction_service.py:195-196 | adding `s -> h` to both maps keeps the reverse index |
| TransactionPools.IndexedDropHash | src/bxcommon/services/transaction_service.py:116-123 | dropping a hash and its ids keeps the reverse index |
| TransactionPools.IndexedDropShortId | src/bxcommon/services/transaction_service.py:542-565 | a mapped id is in its hash's set; dropping it alone is sound unless it is the last one; a set of size one is exactly that id |
| TransactionPools.EmptyPool | src/bxcommon/services/transaction_service.py:80-94 | the initial state satisfies the invariant and is empty with a zero size and no alarm |
| TransactionServices.TransactionService.SetTransactionContents | src/bxcommon/services/transaction_service.py:139-155 | the state becomes `SetContents` of the old state and stays valid |
| TransactionServices.TransactionService.StoreTransactionContents | src/bxcommon/services/transaction_service.py:146-153 | the contents are stored and the counter grows by `len(new) - previous_size` |
| TransactionPools.InvStoreContents | src/bxcommon/services/transaction_service.py:146-153 | storing keeps the invariant; the counter is the summed length after the update |
| TransactionPools.SetContentsFacts | src/bxcommon/services/transaction_service.py:139-155 | the invariant is kept. Afterwards the total is within the limit, or the pool has been cleared to zero, so a non-negative limit is always met. If the update alone fits, exactly the update happens. Otherwise the removed count grows by the number of evicted short ids; when eviction empties the queue while still over the limit, the pool is cleared and the count also grows by the contents entries left then |
| TransactionServices.TransactionService.MemoryLimitCleanUp | src/bxcommon/services/transaction_service.py:569-593 | the state becomes `MemoryCleanUp` of the old state and stays valid |
| TransactionServices.TransactionService.EnforceMemoryLimit | src/bxcommon/services/transaction_service.py:573-591 | the body: the state becomes `MemoryCleanUp` of the old state |
| TransactionServices.TransactionService.EvictOldest | src/bxcommon/services/transaction_service.py:580-582 | the while loop is `Evict`: it returns how many oldest ids it removed |
| TransactionServices.TransactionService.RemoveOldestAssignment | src/bxcommon/services/transaction_service.py:581 | `remove_oldest` with the removal callback: the first queued id is popped and removed by short id, and the queue shrinks |
| TransactionServices.TransactionService.ClearMemPool | src/bxcommon/services/transaction_service.py:688-693 | the state becomes `Clear` of the old state |
| TransactionPools.PopOldest | src/bxcommon/services/transaction_service.py:581 | popping the first queued id leaves the state valid except for that id |
| TransactionPools.PopAndRemove | src/bxcommon/services/transaction_service.py:581 | popping and removing the oldest id restores the invariant; the queue is the old tail, and the id is unmapped |
| TransactionPools.EvictFacts | src/bxcommon/services/transaction_service.py:580-582 | eviction keeps the invariant and drops a prefix of the queue. It stops within the limit or at an empty queue. Under the limit it does nothing. It never adds mappings and keeps the window, counters and alarm |
| TransactionPools.EvictKeepsInv | src/bxcommon/services/transaction_service.py:580-582 | the loop keeps the invariant and leaves a suffix of the queue |
| TransactionPools.EvictStops | src/bxcommon/services/transaction_service.py:580 | the loop ends within the limit or with an empty queue, and does nothing under the limit |
| TransactionPools.EvictKeepsRest | src/bxcommon/services/transaction_service.py:580-582 | no new mappings; window, counters and alarm unchanged |
| TransactionPools.MemoryCleanUpFacts | src/bxcommon/services/transaction_service.py:569-593 | the clean-up keeps the invariant. The total ends within the limit, or the contents are cleared to zero. Under the limit nothing changes. Over it, when eviction gets within the limit, the removed count grows by exactly the number of short ids left the queue; otherwise the queue, maps and window are emptied and the count grows by the queue's old length plus the contents entries left after eviction. Mappings only shrink, and the alarm and confirmation count are kept |
| TransactionPools.MemoryCleanUpKeepsInv | src/bxcommon/services/transaction_service.py:569-593 | the clean-up keeps the invariant |
| TransactionPools.MemoryCleanUpBound | src/bxcommon/services/transaction_service.py:573-592 | the total ends within the limit or everything is cleared; no-op under the limit. Over the limit, the result is the eviction's state with the removed count grown by its pops; or, if still over the limit, eviction emptied the queue and the pool is cleared, the count growing by the pops plus the contents entries dropped |
| TransactionPools.MemoryCleanUpKeepsRest | src/bxcommon/services/transaction_service.py:569-593 | mappings only shrink; alarm and confirmation count untouched |
| TransactionServices.TransactionService.ExpireOldAssignments | src/bxcommon/services/transaction_service.py:322-338 | the state and the outcome are `Expire` of the old state, with the queue's time to live; the service stays valid |
| TransactionServices.TransactionService.ExpireAndReschedule | src/bxcommon/services/transaction_service.py:328-338 | the body: sweep, then the delay and the alarm flag as in `Expire` |
| TransactionServices.TransactionService.RemoveExpiredAssignments | src/bxcommon/services/transaction_service.py:328 | the while loop of `remove_expired` with the removal callback is `ExpireLoop`: it returns the expired ids in order |
| TransactionPools.Max | src/bxcommon/services/transaction_service.py:335 | `max` is an upper bound of both arguments and equals one of them |
| TransactionPools.ExpireLoopFacts | src/bxcommon/services/transaction_service.py:328 | the sweep keeps the invariant. It pops the keys of a prefix of the queue, in order, each strictly expired. It stops at an empty queue or an unexpired oldest id. No popped id still resolves, and the window, counters and alarm are kept |
| TransactionPools.ExpireLoopKeepsInv | src/bxcommon/utils/expiration_queue.py:61-66 | the sweep keeps the invariant and leaves a suffix of the queue |
| TransactionPools.ExpireLoopPopped | src/bxcommon/utils/expiration_queue.py:61-66 | the expired ids are the keys of the dropped prefix, in order |
| TransactionPools.ExpireLoopExpired | src/bxcommon/utils/expiration_queue.py:61-62 | every popped id was strictly older than the time to live |
| TransactionPools.ExpireLoopStops | src/bxcommon/utils/expiration_queue.py:61-62 | the sweep ends with an empty queue or an unexpired oldest id |
| TransactionPools.ExpireLoopForgets | src/bxcommon/services/transaction_service.py:328 | no popped id resolves afterwards |
| TransactionPools.ExpireLoopKeepsRest | src/bxcommon/services/transaction_service.py:328 | no new mappings; window, counters and alarm unchanged |
| TransactionPools.ExpireFacts | src/bxcommon/services/transaction_service.py:322-338 | everything `ExpireLoopFacts` says, plus the reschedule. With ids left, the delay is `max(oldest + ttl - now, MIN_CLEAN_UP_EXPIRED_TXS_TASK_INTERVAL_S)` and the alarm flag is kept. With none left, the delay is 0 and the flag is cleared |
| TransactionServices.InvExpire | src/bxcommon/services/transaction_service.py:322-338 | expiring keeps the invariant |
| TransactionServices.ExpireFromLoop | src/bxcommon/services/transaction_service.py:331-338 | `Expire` is the sweep followed by the reschedule |
| TransactionServices.TransactionService.TrackSeenShortIds | src/bxcommon/services/transaction_service.py:340-357 | the state becomes `Track` of the old state and stays valid |
| TransactionServices.TransactionService.RecordSeenShortIds | src/bxcommon/services/transaction_service.py:349-357 | the body: the state becomes `Track` of the old state |
| TransactionServices.TransactionService.RemoveFinalShortIds | src/bxcommon/services/transaction_service.py:356-357 | the loop removes every id of the confirmed block, with siblings: the state becomes `RemoveAll` |
| TransactionPools.RemoveAllForgetsTransactions | src/bxcommon/services/transaction_service.py:356-357 | when every listed id resolves to the hash listing it: for each resolvable id of the list, its hash loses its id set and its contents, every id resolving to that hash stops resolving, and what is left is part of the old maps with the old values |
| TransactionPools.TrackForgetsTransactions | src/bxcommon/services/transaction_service.py:340-357 | when every listed id resolves to the hash listing it and the window reaches the confirmation count: every resolvable id of the popped block has its whole transaction removed, that is the hash's id set, its contents and every sibling id |
| TransactionPools.TrackFacts | src/bxcommon/services/transaction_service.py:340-357 | the block is put in the window. While the window is below the confirmation count nothing else changes. Otherwise the oldest block is popped and none of its ids resolve any more. The window never reaches the count from below, and the invariant is kept |
| TransactionPools.RemoveAllFacts | src/bxcommon/services/transaction_service.py:356-357 | removing a list of ids with siblings keeps the invariant and leaves none of them resolvable; window, counters and alarm unchanged |
| Connections.RemoveBytes | src/bxcommon/connections/abstract_connection.py:502 | what is left after `remove_bytes(n)` is a suffix, shorter by exactly n when n bytes are there |
| Connections.TakeBytes | src/bxcommon/connections/abstract_connection.py:414 | the bytes handed back and the bytes left make up the old buffer |
| Connections.ReportBadEffects | src/bxcommon/connections/abstract_connection.py:593-604 | a strike below the limit increments the counter and keeps the connection; at the limit the counter is kept and the connection closes, without raising |
| Connections.StrikesClose | src/bxcommon/connections/abstract_connection.py:593-604 | k consecutive strikes keep the connection iff the counter stays within `MAX_BAD_MESSAGES`; the closing strike leaves the counter at the limit |
| Connections.FourthBadMessageCloses | src/bxcommon/connections/abstract_connection.py:598 | from zero, three strikes keep the connection with the counter at 3 and the fourth closes it |
| Connections.OnErrorEffects | src/bxcommon/connections/abstract_connection.py:318-393 | every `except` clause keeps the state flags and output, and only consumes input. If the loop goes on, it counted one strike below the limit; if it stops, it closed the connection or re-raised |
| Connections.ErrorTiers | src/bxcommon/connections/abstract_connection.py:318-393 | `PayloadLenError` and `NonVersionMessageError` close without a strike; `MemoryError` re-raises with no change; an unauthorized message, or a validation or other error on a full message, discards `header_size + payload_len` bytes when the buffer is unchanged and then strikes; a validation or other error on an incomplete message closes. A buffer that changed is not trimmed |
| Connections.PreviewedEffects | src/bxcommon/connections/abstract_connection.py:266-273 | after the preview, the round only consumes input; it stops quietly only on an incomplete valid message, with nothing changed |
| Connections.DecodedEffects | src/bxcommon/connections/abstract_connection.py:275-281 | after popping, the round only consumes input; going on means a strike or a reset counter; stopping means closed or raised |
| Connections.DispatchedEffects | src/bxcommon/connections/abstract_connection.py:283-315 | after the gate and the handler, the round only consumes input; going on means a strike or a reset counter; stopping means closed or raised |
| Connections.StepEffects | src/bxcommon/connections/abstract_connection.py:254-396 | one round only consumes input. It stops by closing, by raising, or quietly with nothing changed while waiting for more bytes. It goes on either with one more strike below the limit, or with a reset counter after a full message of `header + payload` bytes was consumed |
| Connections.StepProgress | src/bxcommon/connections/abstract_connection.py:254-396 | a round that goes on shrinks the input or adds a strike within the limit, so the loop terminates |
| Connections.ProcessRoundStep | src/bxcommon/connections/abstract_connection.py:254-396 | one round of the object loop keeps the loop's result equal to `Process` of the starting state and makes progress |
| Connections.StepQuietExit | src/bxcommon/connections/abstract_connection.py:262-273 | a dead socket, or a valid incomplete message, ends the loop with no change and no exception |
| Connections.PopConsumes | src/bxcommon/connections/abstract_connection.py:404-415 | `pop_next_message` decodes and removes exactly `HEADER_LENGTH + payload_len` bytes |
| Connections.StepStrikesOnUndecodable | src/bxcommon/connections/abstract_connection.py:275-281 | a message that decodes to None is consumed and counts as a strike |
| Connections.StepPreHandshakeGate | src/bxcommon/connections/abstract_connection.py:284-289 | before `ESTABLISHED`, a full non-hello message is consumed, closes the connection and stops the loop, without a strike |
| Connections.DispatchedResets | src/bxcommon/connections/abstract_connection.py:395-396 | a dispatched message resets the counter iff it passed the gate and its handler did not raise; otherwise going on means a strike |
| Connections.StepResetsOnlyWhenHandled | src/bxcommon/connections/abstract_connection.py:395-396 | a round resets the counter iff it finished the `try` body; every other round that goes on adds a strike |
| Connections.ProcessConsumes | src/bxcommon/connections/abstract_connection.py:245-396 | the whole loop only removes bytes from the front of the input |
| Connections.ProcessEnds | src/bxcommon/connections/abstract_connection.py:254-273 | the loop ends raised, closed, or waiting for more input, with the counter within the limit |
| Connections.StepKeepsFlags | src/bxcommon/connections/abstract_connection.py:434 | when handlers only add state flags, a round never loses one |
| Connections.ProcessKeepsFlags | src/bxcommon/connections/abstract_connection.py:460 | when handlers only add state flags, the whole loop never loses one |
| Connections.BaseHandlersKeepFlags | src/bxcommon/connections/abstract_connection.py:456-468 | the ack, ping and pong handlers only add flags and never raise; the ack handler leaves `ESTABLISHED` as it was; ping keeps the state and pong changes nothing |
| Connections.CloseInbound | src/bxcommon/connections/abstract_connection.py:446-449 | every inbound connection of the group is closed, outbound ones are kept, and nothing else of them changes |
| Connections.Node.IndexConnNodeId | src/bxcommon/connections/abstract_connection.py:439 | the connection joins the group of its peer id; a missing peer id indexes nothing |
| Connections.Node.RegisterAlarm | src/bxcommon/connections/abstract_connection.py:547-548 | a new, unused alarm id is added to the registered alarms |
| Connections.Node.UnregisterAlarm | src/bxcommon/connections/abstract_connection.py:552 | the alarm id leaves the registered alarms |
| Connections.Connection.constructor | src/bxcommon/connections/abstract_connection.py:47-107 | a new connection is `CONNECTING`, alive, with empty buffers, no strikes, no peer id, pings off, the default ping interval, no pong alarm, unauthenticated, no account |
| Connections.Connection.MarkForClose | src/bxcommon/connections/abstract_connection.py:470-482 | only the alive flag is cleared |
| Connections.Connection.OnConnectionEstablished | src/bxcommon/connections/abstract_connection.py:150-157 | if not active, `ESTABLISHED` is added and the peer's retry count is set to 0; if active, nothing changes |
| Connections.Connection.EnqueueMsgBytes | src/bxcommon/connections/abstract_connection.py:197-224 | a dead socket enqueues nothing; otherwise the bytes go to the front when prepending, else to the back |
| Connections.Connection.ReportBadMessage | src/bxcommon/connections/abstract_connection.py:593-604 | returns True and closes iff the counter was already at the limit; otherwise increments |
| Connections.Connection.CleanUpCurrentMsg | src/bxcommon/connections/abstract_connection.py:491-502 | `header_size + payload_len` bytes are removed iff the message is still in the buffer |
| Connections.Connection.PopNextMessage | src/bxcommon/connections/abstract_connection.py:404-415 | the object form of `Pop`: decodes and consumes header and payload |
| Connections.Connection.HandleError | src/bxcommon/connections/abstract_connection.py:318-393 | the object form of `OnError` |
| Connections.Connection.ProcessRound | src/bxcommon/connections/abstract_connection.py:255-396 | one loop round on the object is `Step` |
| Connections.Connection.ProcessPreviewed | src/bxcommon/connections/abstract_connection.py:266-281 | the object form of `Previewed` |
| Connections.Connection.ProcessDecoded | src/bxcommon/connections/abstract_connection.py:275-289 | the object form of `Decoded` |
| Connections.Connection.ProcessDispatched | src/bxcommon/connections/abstract_connection.py:283-315 | the object form of `Dispatched` |
| Connections.Connection.ProcessMessage | src/bxcommon/connections/abstract_connection.py:245-402 | the loop's final state and exception are `Process` of the starting state, so every property proved of `Process` holds of it; the session fields are kept |
| Connections.Connection.SendPing | src/bxcommon/connections/abstract_connection.py:424-431 | with pings enabled on a live socket it enqueues the ping and returns the interval, otherwise `CANCEL_ALARMS` with nothing sent |
| Connections.Connection.LearnPeerId | src/bxcommon/connections/abstract_connection.py:437-439 | the peer id is taken from the hello only if unset, and only then is the connection added to that peer id's group; the other groups, the retry counters and the alarms are kept |
| Connections.Connection.MsgHello | src/bxcommon/connections/abstract_connection.py:433-454 | `HELLO_RECVD` is added and the peer id set if unset, the connection joining that group. With more than one connection under the peer id, every inbound one, possibly this one, is closed and no ack is sent. Otherwise the ack is enqueued. The other groups, the alarms and retry counters and all other fields of every connection in the group are kept |
| Connections.Connection.RejectDuplicates | src/bxcommon/connections/abstract_connection.py:445-450 | every inbound connection of the group is closed and outbound ones kept; of every connection in the group, and of this one, only `alive` may change |
| Connections.Connection.AckHello | src/bxcommon/connections/abstract_connection.py:452-454 | the ack is enqueued (nothing else, since the established hook is a no-op here) |
| Connections.Connection.MsgAck | src/bxcommon/connections/abstract_connection.py:456-462 | its effect is the ack handler's: `HELLO_ACKD` is added and input and counter are kept |
| Connections.Connection.MsgPing | src/bxcommon/connections/abstract_connection.py:464-465 | its effect is the ping handler's: the pong is enqueued |
| Connections.Connection.SchedulePongTimeout | src/bxcommon/connections/abstract_connection.py:543-548 | with none pending, a new alarm is registered and its id recorded; with one pending nothing changes |
| Connections.Connection.CancelPongTimeout | src/bxcommon/connections/abstract_connection.py:550-553 | a pending alarm is unregistered; afterwards none is pending, so cancelling twice is the same as once |
| Connections.Connection.PongMsgTimeout | src/bxcommon/connections/abstract_connection.py:587-591 | the connection is closed and the pending alarm id cleared |
| Connections.Connection.OnConnectionAuthenticated | src/bxcommon/connections/abstract_connection.py:555-562 | the peer id and account id are set and the connection is authenticated |
| Connections.Connection.SetAccountId | src/bxcommon/connections/abstract_connection.py:574-579 | errors iff authenticated with a different account id; sets it only when unauthenticated |
| TxsMessages.Parsed | src/bxcommon/messages/bloxroute/txs_message.py:104 | one parsed triple (hash, contents, short id) per transaction, in order |
| TxsMessages.EntriesBytesLength | src/bxcommon/messages/bloxroute/txs_message.py:51-58 | the entries take `40` bytes per transaction plus the summed content lengths |
| TxsMessages.SerializedSize | src/bxcommon/messages/bloxroute/txs_message.py:51-60 | the message is `HDR_COMMON_OFF + 4 + n*(4+32+4) + sum of content lengths` bytes |
| TxsMessages.SerializedLayout | src/bxcommon/messages/bloxroute/txs_message.py:61-77 | the u32 at offset 16 is the count, followed by the entries |
| TxsMessages.EntryFields | src/bxcommon/messages/bloxroute/txs_message.py:66-77 | an entry holds the u32 short id, the 32-byte hash, the u32 content length and the contents at consecutive offsets |
| TxsMessages.ParseEntriesOfBytes | src/bxcommon/messages/bloxroute/txs_message.py:91-104 | parsing serialized entries, anywhere in a buffer, yields the transactions' triples |
| TxsMessages.ParseOfSerialized | src/bxcommon/messages/bloxroute/txs_message.py:46-106 | `_parse(_txs_to_bytes(txs))` yields the same triples in the same order |
| TxsMessages.TxsToBytes | src/bxcommon/messages/bloxroute/txs_message.py:46-79 | the array filled by the packing loop is `Serialized(txs)` |
| TxsMessages.PackEntries | src/bxcommon/messages/bloxroute/txs_message.py:66-77 | the loop writes every entry after the written prefix |
| TxsMessages.PackEntry | src/bxcommon/messages/bloxroute/txs_message.py:67-77 | one iteration writes one entry at the offset and advances it by its size |
| TxsMessages.PackAfter | src/bxcommon/messages/bloxroute/txs_message.py:76 | a slice assignment writes the data right after the written prefix |
| TxsMessages.ReadEntry | src/bxcommon/messages/bloxroute/txs_message.py:92-104 | the fields read at an offset are the entry and its end |
| TxsMessages.ReadTx | src/bxcommon/messages/bloxroute/txs_message.py:92-102 | one iteration fails iff the fixed fields overrun the buffer, otherwise reads the entry and the next offset |
| TxsMessages.ParseLoopIsPrepend | src/bxcommon/messages/bloxroute/txs_message.py:91-104 | the accumulating loop equals the accumulator prepended to the recursive parse |
| TxsMessages.ReadEntries | src/bxcommon/messages/bloxroute/txs_message.py:91-106 | the `for` loop yields the accumulated parse of `count` entries |
| TxsMessages.Parse | src/bxcommon/messages/bloxroute/txs_message.py:81-106 | `_parse` equals `ParseTxs`, including its `struct.error` on a truncated buffer |
| TxsMessages.TxsMessage.FromTxs | src/bxcommon/messages/bloxroute/txs_message.py:28-30 | the buffer is `Serialized(txs)` and the payload length is `len(buf) - HDR_COMMON_OFF` |
| TxsMessages.TxsMessage.FromBuffer | src/bxcommon/messages/bloxroute/txs_message.py:31-38 | the message keeps the given bytes, with nothing parsed yet |
| TxsMessages.TxsMessage.GetTxs | src/bxcommon/messages/bloxroute/txs_message.py:40-44 | the result is the parse of the buffer; a cached list is kept and returned; the buffer is untouched |
| TxsMessages.FromTxsRoundTrip | src/bxcommon/messages/bloxroute/txs_message.py:19-106 | a message built from transactions parses back to them, and its payload length is the count field plus the entries |
| TxMessages.PayloadLength | src/bxcommon/messages/bloxroute/tx_message.py:26-28 | the broadcast payload plus `SID_LEN + QUOTA_FLAG_LEN`, plus `len(tx_val)` when given; it ends exactly after the value and the control flag |
| TxMessages.Layout | src/bxcommon/messages/bloxroute/tx_message.py:31-44 | writing the fields keeps the buffer length |
| TxMessages.ShortIdAt | src/bxcommon/messages/bloxroute/tx_message.py:49-53 | fails iff the buffer ends before the quota byte; otherwise a u32 whose LE bytes are those at the short-id offset |
| TxMessages.QuotaAt | src/bxcommon/messages/bloxroute/tx_message.py:55-63 | the byte after the short id when it is a known `TxQuotaType`; a `struct.error` for a short buffer; an unknown-value error otherwise |
| TxMessages.TxValOf | src/bxcommon/messages/bloxroute/tx_message.py:65-76 | empty for a zero payload length; otherwise the slice from after the quota byte to `HEADER_LENGTH + payload_len - CONTROL_FLAGS_LEN` |
| TxMessages.LayoutShortId | src/bxcommon/messages/bloxroute/tx_message.py:33-35 | the written short id reads back |
| TxMessages.LayoutQuota | src/bxcommon/messages/bloxroute/tx_message.py:38-41 | the written quota byte reads back, `NONE` by default |
| TxMessages.LayoutTxVal | src/bxcommon/messages/bloxroute/tx_message.py:43-44 | the written value reads back, empty when none was given |
| TxMessages.LayoutKeepsBase | src/bxcommon/messages/bloxroute/tx_message.py:31-44 | the bytes before the short id and after the value are the base message's |
| TxMessages.TxMessage.constructor | src/bxcommon/messages/bloxroute/tx_message.py:16-44 | the buffer is the base message with the fields laid out, and the payload length is `PayloadLength(tx_val)`; the short id defaults to `NULL_TX_SID` |
| TxMessages.TxMessage.FromBuffer | src/bxcommon/messages/bloxroute/tx_message.py:16-29 | a message over given bytes and payload length, nothing cached |
| TxMessages.TxMessage.ShortId | src/bxcommon/messages/bloxroute/tx_message.py:49-53 | the read short id; it is cached once read, and the other caches are kept |
| TxMessages.TxMessage.QuotaType | src/bxcommon/messages/bloxroute/tx_message.py:55-63 | the read quota type; it is cached once read |
| TxMessages.TxMessage.TxVal | src/bxcommon/messages/bloxroute/tx_message.py:65-76 | the read value; it is cached |
| TxMessages.BuiltRoundTrip | src/bxcommon/messages/bloxroute/tx_message.py:16-76 | every accessor of a constructed message returns what was given: the short id, the quota (`NONE` by default) and the value (empty by default) |
| BroadcastPreviews.Pack4s | src/bxcommon/messages/bloxroute/v8/bloxroute_message_factory_v8.py:107-108 | `<4s` always packs four bytes |
| BroadcastPreviews.BroadcastTypeBytes | src/bxcommon/messages/bloxroute/v8/bloxroute_message_factory_v8.py:106-109 | succeeds iff the type field holds four bytes; the BLOCK tag is zero-padded to `BROADCAST_TYPE_LEN` |
| BroadcastPreviews.GetBroadcastMessagePreview | src/bxcommon/messages/bloxroute/v8/bloxroute_message_factory_v8.py:75-113 | a buffer shorter than the broadcast header gives the not-full preview with all other fields None, and only such a buffer does; it fails iff the header is full but the layout constants are too narrow for the unpacks |
| BroadcastPreviews.PreviewFields | src/bxcommon/messages/bloxroute/v8/bloxroute_message_factory_v8.py:89-113 | a full preview gives the hash at `HEADER_LENGTH`, the LE network number after it, the next 16 bytes as source id, type BLOCK, message id = hash, network bytes and type bytes, and the header's payload length |
| BroadcastPreviews.PreviewOfPrefix | src/bxcommon/messages/bloxroute/v8/bloxroute_message_factory_v8.py:93-113 | for a buffer built from a header, hash, network number and source id, the preview gives back exactly those fields, and the message id starts with the hash |
| BdnStatsConverters.GetMessageSizeChangeToOlderVersion | src/bxcommon/messages/bloxroute/v9/bdn_performance_stats_message_converter_v9.py:151-152 | -18 |
| BdnStatsConverters.GetMessageSizeChangeFromOlderVersion | src/bxcommon/messages/bloxroute/v9/bdn_performance_stats_message_converter_v9.py:154-155 | +18, the sum of the widened counters, the u16 and the three u32s |
| BdnStatsConverters.ConversionErrors | src/bxcommon/messages/bloxroute/v9/bdn_performance_stats_message_converter_v9.py:48-51 | both directions raise the type error iff the message is not `BDN_PERFORMANCE_STATS`; each succeeds iff its counters lie inside the message and the old size holds the prefix |
| BdnStatsConverters.PackChecked | src/bxcommon/messages/bloxroute/v9/bdn_performance_stats_message_converter_v9.py:63 | `pack_into` writes the bytes at the offset when they fit, else `struct.error` |
| BdnStatsConverters.PackNext | src/bxcommon/messages/bloxroute/v9/bdn_performance_stats_message_converter_v9.py:105-121 | one `pack_into` at the advancing offset extends the written prefix by the packed bytes |
| BdnStatsConverters.NewFieldsZero | src/bxcommon/messages/bloxroute/v9/bdn_performance_stats_message_converter_v9.py:111-121 | the u16 and three u32 zero fields are 14 zero bytes |
| BdnStatsConverters.ConvertFromOlderVersion | src/bxcommon/messages/bloxroute/v9/bdn_performance_stats_message_converter_v9.py:80-129 | the imperative conversion is `NewerVersion` |
| BdnStatsConverters.NewerVersionLayout | src/bxcommon/messages/bloxroute/v9/bdn_performance_stats_message_converter_v9.py:90-123 | the type is kept and payload and length grow by 18. The prefix up to the breakpoint is copied. Both u16 counters reappear unchanged as u32s, followed by 14 zero bytes and then the old tail |
| BdnStatsConverters.ConvertToOlder | src/bxcommon/messages/bloxroute/v9/bdn_performance_stats_message_converter_v9.py:43-78 | the imperative conversion, with the tail copied from a given offset, is `OlderVersion` |
| BdnStatsConverters.ConvertToOlderVersion | src/bxcommon/messages/bloxroute/v9/bdn_performance_stats_message_converter_v9.py:43-78 | the conversion as written: the tail is copied from BP+10 |
| BdnStatsConverters.OlderVersionLayout | src/bxcommon/messages/bloxroute/v9/bdn_performance_stats_message_converter_v9.py:56-72 | the type is kept and the payload shrinks by 18. The prefix is copied. Both counters are saturated at 65535 and written as u16. The tail starts at the copy offset |
| BdnStatsConverters.SizeChangeAsWritten | src/bxcommon/messages/bloxroute/v9/bdn_performance_stats_message_converter_v9.py:71-72 | as written the bytes shrink by 6 while the declared payload shrinks by 18 |
| BdnStatsConverters.UpThenDownFields | src/bxcommon/messages/bloxroute/v9/bdn_performance_stats_message_converter_v9.py:61-69 | saturating the widened counters gives the old counters back, byte for byte |
| BdnStatsConverters.DownAfterUp | src/bxcommon/messages/bloxroute/v9/bdn_performance_stats_message_converter_v9.py:58-72 | old to new to old restores type, payload length, prefix and both counters, followed by the new message's tail from the copy offset |
| BdnStatsConverters.RoundTripAsWritten | src/bxcommon/messages/bloxroute/v9/bdn_performance_stats_message_converter_v9.py:71-72 | as written, old to new to old puts 12 zero bytes before the old tail, so the bytes differ from the original |
| BdnStatsConverters.ConvertToOlderVersionCorrected | src/bxcommon/messages/bloxroute/v9/bdn_performance_stats_message_converter_v9.py:71-72 | the conversion with the tail copied from after all new fields |
| BdnStatsConverters.SizeChangeCorrected | src/bxcommon/messages/bloxroute/v9/bdn_performance_stats_message_converter_v9.py:37-41 | corrected, the bytes shrink by exactly the 18 of the size-change getter |
| BdnStatsConverters.RoundTripCorrected | src/bxcommon/messages/bloxroute/v9/bdn_performance_stats_message_converter_v9.py:43-129 | corrected, old to new to old gives the original message back |
| ConverterFactories.GetMessageConverterV1 | src/bxcommon/messages/bloxroute/v1/message_converter_factory_v1.py:27-34 | a falsy type gives the "required" error, and only such a type does; a type outside the mapping gives the "not defined" error; a mapped type gives exactly its entry |
| ConverterFactories.V1Table | src/bxcommon/messages/bloxroute/v1/message_converter_factory_v1.py:14-25 | exactly the nine listed types resolve; ACK, GET_TRANSACTIONS and TRANSACTIONS map to the no-changes converter; the others to their own v1 converters |
| ConverterFactories.GetMessageConverterV18 | src/bxcommon/messages/bloxroute/v18/message_converter_factory_v18.py:13-20 | fails iff the type is falsy; otherwise the mapped converter or the no-changes fallback |
| ConverterFactories.V18Table | src/bxcommon/messages/bloxroute/v18/message_converter_factory_v18.py:8-20 | the v18 converter iff the type is `BDN_PERFORMANCE_STATS`; every other truthy type gets the no-changes converter |
| ConverterFactories.V18TotalV1Partial | src/bxcommon/messages/bloxroute/v18/message_converter_factory_v18.py:13-20 | for a truthy type v18 never fails while v1 fails outside its mapping, e.g. for `BDN_PERFORMANCE_STATS` |

## Left out

- I/O and concurrency. Left out: the socket itself, `socket_connection.send()`, the asyncio close future of
  `mark_for_close` with its `should_retry`, and `dispose` and `wait_closed`. A connection is alive until
  `mark_for_close` clears the flag.
- Observability. Left out: logging, throughput hooks, handler timing, the message tracker, `_get_last_msg_bytes`,
  the memory statistics and `get_cache_state_json`/`get_cache_state_str`, and `get_tx_service_aggregate_stats`.
  They do not change modelled state.
- `process_msg_type` and `pre_process_msg`. They are subclass hooks: the preview is the `Protocol`'s `preview`,
  and `process_msg_type` has no effect in the base class.
- Code that is not part of this model: the message factory, the validator, the connection pool, the alarm queue,
  and `InputBuffer`/`OutputBuffer`. They are parameters or small stand-ins with these assumptions:
  - `remove_bytes(n)` removes at most the buffered bytes;
  - `prepend_msgbytes` puts a message in front;
  - a connection with no peer id is not indexed;
  - the factory's preview reports a full message only when its bytes are buffered (`Sound`).
- Connections.Connection.ProcessMessage: requires `Sound(protocol)`. The loop terminates only under that assumption
  about the unseen factory.
- Handler side effects. A handler in the loop is a function from the handler view (state flags, alive, output
  buffer) to a new view, or an exception. So a handler that raises is taken to change nothing. Handlers cannot
  reach the connection pool, so a hello handled inside the loop does not close other connections. `MsgHello`
  models that effect as a method of its own.
- The `connection_type` argument and `update_connection_type` in `on_connection_authenticated`. The connection
  type lives in the connection pool, which is not part of this model.
- TransactionPools.TrackForgetsTransactions and TransactionPools.RemoveAllForgetsTransactions: these require that
  every id listed under a hash resolves to that hash. `Inv` does not give this. `assign_short_id` of an id already
  assigned to another hash leaves it listed under the old hash too. Removing such a stale id then deletes the old
  hash's listing but not the transaction it now resolves to, in the code as in the model. Without the hypothesis,
  TrackFacts and RemoveAllFacts state only that the listed ids stop resolving.
- Removed short ids. Left out: `_removed_short_ids`, `_dump_removed_short_ids` (file I/O), and the
  `dump_removed_short_ids` option.
- Configuration lookups. `_get_final_tx_confirmations_count`, `_get_tx_contents_memory_limit` (with its MB
  conversion) and `MIN_CLEAN_UP_EXPIRED_TXS_TASK_INTERVAL_S` are constructor parameters.
- TransactionServices.TransactionService.ExpireOldAssignments: returns an integer delay. The source returns a float
  computed from `time.time()`; here time is the integer `now`.
- Cache keys. `_tx_hash_to_cache_key`, `_tx_cache_key_to_hash` and `wrap_sha256` are a bijection between hashes and
  keys and are left out; hashes are the keys.
- Iterators. `iter_transaction_hashes`, `iter_short_ids_seen_in_block` and `get_snapshot` are plain iterations over
  the maps.
- `track_seen_short_ids_delayed`. It only registers an alarm that later calls `track_seen_short_ids`.
- `get_expiration_time_by_short_id`. It always raises `NotImplementedError`.
- `_track_seen_transaction`. It does nothing in this class.
- The converter's first-bytes and last-bytes methods. They raise `NotImplementedError`.
- The converter factory's converters are opaque names. `AbstractBloxrouteMessage.initialize_class` is taken to
  build a message of the given type from the bytes and payload length.
- `TxMessage` details:
  - the `TxQuotaType` values are a symbolic set of bytes with a `NONE` element;
  - `tx_val` is returned as bytes, not as a `memoryview` sharing the buffer;
  - `tx_hash()`, which only returns the unseen base class's `message_hash()`, is left out;
  - the base broadcast fields written by the unseen base constructor are the given `base` bytes.
- TxMessages.TxMessage.constructor: requires the short id to fit in a u32 and the base buffer to have the
  message's length. `pack_into` would raise otherwise (the base constructor sizing the buffer is not part of this
  model).
- TxsMessages.TxsMessage.FromTxs: the 16-byte common header is left as the zeros of `Serialized`. The base
  constructor that receives the buffer and writes the header is not part of this model.
- For `TxsMessage`, transactions must have a 32-byte hash, contents, and values below 2^32. Those are what
  `_txs_to_bytes` can pack. Passing a `str` buffer, which raises `TypeError`, is not modelled.
- The preview's `source_id` is the 16 bytes `uuid_pack.from_bytes` decodes, not a UUID string. `ConcatHash` is the
  concatenated bytes.
- `UNSIGNED_SHORT_MAX_VALUE` is 65535; its definition is not part of this model.

## Findings

| source | as written | input that shows it | evidently intended | confidence | as-written member | corrected member |
|---|---|---|---|---|---|---|
| src/bxcommon/messages/bloxroute/v9/bdn_performance_stats_message_converter_v9.py:71-72 | `convert_to_older_version` copies the tail from `_BREAKPOINT + 2*4 + 2`. That skips only the two u32 counters and the u16 memory field, not the three u32 block statistics. | Any v9 message converted up with `convert_from_older_version` and back down: the result carries the 12 zero bytes of the block statistics before its tail. Its byte length shrinks by 6 while its header payload shrinks by 18. | The tail is copied from after all the new fields (`_BREAKPOINT + 2*4 + 2 + 3*4`), so that old → new → old is the identity and the bytes shrink by `_LENGTH_DIFFERENCE`. | not executed | BdnStatsConverters.RoundTripAsWritten, BdnStatsConverters.SizeChangeAsWritten | BdnStatsConverters.RoundTripCorrected, BdnStatsConverters.SizeChangeCorrected |
| src/bxcommon/services/transaction_service.py:676-680 | `_iter_block_seen_by_time` yields blocks at `skip_start <= idx <= len - skip_end`, so skipping k blocks at the end skips only k - 1. | Three tracked blocks with `get_oldest_tracked_block(1)`: all three are returned, the newest included. | `skip_start <= idx < len - skip_end`: skip exactly `skip_end` newest blocks, as the docstring of `get_oldest_tracked_block` says. | not executed | TransactionPools.OldestTrackedAsWrittenKeepsOneNewest | TransactionPools.OldestTrackedSkipsNewest |
