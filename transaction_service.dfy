/**
 * The gateway/relay transaction cache as a class: the three maps, the running contents total, the block window,
 * the counters and the alarm flag are fields updated in place, and the short-id expiration queue is an
 * `ExpirationQueue` object. Every state-changing method is proved against the function of the same operation on
 * `Pool` values: `Snapshot()` after the call is that function applied to `Snapshot()` before it, and what the
 * operation promises is proved about the function.
 */
module TransactionServices {
  import opened Wrappers
  import opened Bytes
  import opened OrderedMaps
  import opened ExpirationQueues
  import opened Transactions
  import opened TransactionPools

  class TransactionService {
    const queue: ExpirationQueue<int>
    var txAssignAlarmScheduled: bool
    /** How many times the expiration alarm was registered with the node's alarm queue. */
    var expireAlarmRegistrations: nat
    var hashToShortIds: map<Sha256Hash, set<int>>
    var shortIdToHash: map<int, Sha256Hash>
    var hashToContents: map<Sha256Hash, seq<byte>>
    var shortIdsSeenInBlock: seq<(Sha256Hash, seq<int>)>
    var totalTxContentsSize: int
    var totalTxRemovedByMemoryLimit: int
    var finalTxConfirmationsCount: int
    const txContentMemoryLimit: int
    /** `constants.MIN_CLEAN_UP_EXPIRED_TXS_TASK_INTERVAL_S`, whose value is not part of this model. */
    const minCleanUpInterval: int

    /** The whole mutable state as a `Pool` value. */
    function Snapshot(): Pool
      reads this, queue
    {
      Pool(queue.queue, hashToShortIds, shortIdToHash, hashToContents, shortIdsSeenInBlock, totalTxContentsSize,
           totalTxRemovedByMemoryLimit, txAssignAlarmScheduled, expireAlarmRegistrations, finalTxConfirmationsCount)
    }

    ghost predicate Valid()
      reads this, queue
    {
      queue.Valid() && Inv(Snapshot())
    }

    /** `Valid()` except that short id `x` may be queued without resolving, or resolve without being queued. */
    ghost predicate ValidExcept(x: int)
      reads this, queue
    {
      queue.Valid() && InvExcept(Snapshot(), x)
    }

    constructor (sidExpireTime: int, finalTxConfirmationsCount: int, txContentMemoryLimit: int, minCleanUpInterval: int)
      requires sidExpireTime >= 0
      ensures Valid() && fresh(queue)
      ensures Snapshot() == EmptyPool(finalTxConfirmationsCount)
      ensures queue.timeToLive == sidExpireTime
      ensures this.txContentMemoryLimit == txContentMemoryLimit && this.minCleanUpInterval == minCleanUpInterval
    {
      queue := new ExpirationQueue(sidExpireTime);
      txAssignAlarmScheduled := false;
      expireAlarmRegistrations := 0;
      hashToShortIds := map[];
      shortIdToHash := map[];
      hashToContents := map[];
      shortIdsSeenInBlock := [];
      totalTxContentsSize := 0;
      totalTxRemovedByMemoryLimit := 0;
      this.finalTxConfirmationsCount := finalTxConfirmationsCount;
      this.txContentMemoryLimit := txContentMemoryLimit;
      this.minCleanUpInterval := minCleanUpInterval;
    }

    /** Construction fails exactly when the expiration queue rejects a negative time to live. */
    static method Create(sidExpireTime: int, finalTxConfirmationsCount: int, txContentMemoryLimit: int, minCleanUpInterval: int)
      returns (r: Result<TransactionService, QueueError>)
      ensures r.Err? <==> sidExpireTime < 0
      ensures r.Err? ==> r.error == NegativeTimeToLive
      ensures r.Ok? ==> fresh(r.value) && fresh(r.value.queue) && r.value.Valid()
      ensures r.Ok? ==> r.value.Snapshot() == EmptyPool(finalTxConfirmationsCount)
    {
      if sidExpireTime < 0 {
        r := Err(NegativeTimeToLive);
      } else {
        var s := new TransactionService(sidExpireTime, finalTxConfirmationsCount, txContentMemoryLimit, minCleanUpInterval);
        r := Ok(s);
      }
    }

    /** `set_final_tx_confirmations_count(val)`. */
    method SetFinalTxConfirmationsCount(val: int)
      requires Valid()
      modifies this
      ensures Valid()
      ensures Snapshot() == old(Snapshot()).(finalConfirmations := val)
    {
      finalTxConfirmationsCount := val;
    }

    predicate HasTransactionContents(h: Sha256Hash)
      reads this
    {
      h in hashToContents
    }

    predicate HasTransactionShortId(h: Sha256Hash)
      reads this
    {
      h in hashToShortIds
    }

    predicate HasShortId(shortId: int)
      reads this
    {
      shortId in shortIdToHash
    }

    /**
     * `get_short_ids(hash)`: never empty; `{NULL_TX_SID}` exactly for a hash without ids, and otherwise a set
     * without the null id that holds every id resolving to the hash.
     */
    function GetShortIds(h: Sha256Hash): (r: set<int>)
      reads this, queue
      requires Valid()
      ensures r != {}
      ensures HasTransactionShortId(h) ==> NULL_TX_SID !in r
      ensures !HasTransactionShortId(h) <==> r == {NULL_TX_SID}
      ensures forall s :: s in shortIdToHash && shortIdToHash[s] == h ==> s in r
    {
      ShortIdsOf(hashToShortIds, h)
    }

    /** `get_short_id(hash)`: some element of `get_short_ids(hash)`, the null id exactly for a hash without ids. */
    method GetShortId(h: Sha256Hash) returns (shortId: int)
      requires Valid()
      ensures shortId in GetShortIds(h)
      ensures shortId == NULL_TX_SID <==> !HasTransactionShortId(h)
    {
      var ids := GetShortIds(h);
      NonEmptyHasElement(ids);
      shortId :| shortId in ids;
    }

    /** `get_transaction(short_id)`: the hash when the id resolves, and the contents when they are cached too. */
    function GetTransaction(shortId: int): (r: TransactionInfo)
      reads this
      ensures r.shortId == shortId
      ensures r.hash.Some? <==> HasShortId(shortId)
      ensures r.hash.Some? ==> r.hash.value == shortIdToHash[shortId]
      ensures r.contents.Some? <==> HasShortId(shortId) && HasTransactionContents(shortIdToHash[shortId])
      ensures r.contents.Some? ==> r.contents.value == hashToContents[r.hash.value]
    {
      Lookup(shortIdToHash, hashToContents, shortId)
    }

    /** `get_transaction_by_hash(hash)`. */
    function GetTransactionByHash(h: Sha256Hash): (r: Option<seq<byte>>)
      reads this
      ensures r.Some? <==> HasTransactionContents(h)
      ensures r.Some? ==> r.value == hashToContents[h]
    {
      if h in hashToContents then Some(hashToContents[h]) else None
    }

    /** `get_tracked_seen_block_count()`: the number of distinct tracked blocks. */
    function GetTrackedSeenBlockCount(): (r: nat)
      requires Valid()
      reads this, queue
      ensures r == |KeySet(shortIdsSeenInBlock)|
    {
      DistinctKeySetSize(shortIdsSeenInBlock);
      |shortIdsSeenInBlock|
    }

    /** `get_transactions(short_ids)`: partition the requested ids into found and missing, in request order. */
    method GetTransactions(shortIds: seq<int>) returns (found: seq<TransactionInfo>, missing: seq<TransactionInfo>)
      ensures found == FoundTransactions(shortIdToHash, hashToContents, shortIds)
      ensures missing == MissingTransactions(shortIdToHash, hashToContents, shortIds)
      ensures |found| + |missing| == |shortIds|
    {
      found := [];
      missing := [];
      for i := 0 to |shortIds|
        invariant found == FoundTransactions(shortIdToHash, hashToContents, shortIds[..i])
        invariant missing == MissingTransactions(shortIdToHash, hashToContents, shortIds[..i])
      {
        assert shortIds[..i + 1][..i] == shortIds[..i];
        var s := shortIds[i];
        if s in shortIdToHash {
          var key := shortIdToHash[s];
          if key in hashToContents {
            found := found + [TransactionInfo(Some(key), Some(hashToContents[key]), s)];
          } else {
            missing := missing + [TransactionInfo(None, None, s)];
          }
        } else {
          missing := missing + [TransactionInfo(None, None, s)];
        }
      }
      assert shortIds[..|shortIds|] == shortIds;
      FoundMissingPartition(shortIdToHash, hashToContents, shortIds);
    }

    /**
     * `get_missing_transactions(short_ids)`: the ids that do not resolve and the hashes without contents, in request
     * order; something is missing exactly when some requested transaction has no contents.
     */
    method GetMissingTransactions(shortIds: seq<int>) returns (hasMissing: bool, unknownSids: seq<int>, unknownHashes: seq<Sha256Hash>)
      ensures unknownSids == UnknownShortIds(shortIdToHash, shortIds)
      ensures unknownHashes == UnknownHashes(shortIdToHash, hashToContents, shortIds)
      ensures hasMissing <==> unknownSids != [] || unknownHashes != []
      ensures hasMissing <==> exists s :: s in shortIds && GetTransaction(s).contents.None?
    {
      unknownSids := [];
      unknownHashes := [];
      hasMissing := false;
      for i := 0 to |shortIds|
        invariant unknownSids == UnknownShortIds(shortIdToHash, shortIds[..i])
        invariant unknownHashes == UnknownHashes(shortIdToHash, hashToContents, shortIds[..i])
        invariant hasMissing <==> unknownSids != [] || unknownHashes != []
      {
        assert shortIds[..i + 1][..i] == shortIds[..i];
        var s := shortIds[i];
        if s !in shortIdToHash {
          unknownSids := unknownSids + [s];
          hasMissing := true;
        } else {
          var h := shortIdToHash[s];
          if h !in hashToContents {
            unknownHashes := unknownHashes + [h];
            hasMissing := true;
          }
        }
      }
      assert shortIds[..|shortIds|] == shortIds;
      if hasMissing {
        if unknownSids != [] {
          assert unknownSids[0] in unknownSids;
          assert GetTransaction(unknownSids[0]).contents.None?;
        } else {
          assert unknownHashes[0] in unknownHashes;
          var s :| s in shortIds && s in shortIdToHash && shortIdToHash[s] == unknownHashes[0];
          assert GetTransaction(s).contents.None?;
        }
      } else {
        forall s | s in shortIds ensures GetTransaction(s).contents.Some? {
          assert s !in unknownSids;
          assert shortIdToHash[s] !in unknownHashes;
        }
      }
    }

    /** `get_short_ids_seen_in_block_count_info()`: number of tracked blocks and of short ids over all of them. */
    method GetShortIdsSeenInBlockCountInfo() returns (blockCount: nat, shortIdCount: nat)
      requires Valid()
      ensures blockCount == |shortIdsSeenInBlock| == |KeySet(shortIdsSeenInBlock)|
      ensures shortIdCount == SeenShortIdCount(shortIdsSeenInBlock)
    {
      shortIdCount := 0;
      for i := 0 to |shortIdsSeenInBlock|
        invariant shortIdCount == SeenShortIdCount(shortIdsSeenInBlock[..i])
      {
        assert shortIdsSeenInBlock[..i + 1][..i] == shortIdsSeenInBlock[..i];
        shortIdCount := shortIdCount + |shortIdsSeenInBlock[i].1|;
      }
      assert shortIdsSeenInBlock[..|shortIdsSeenInBlock|] == shortIdsSeenInBlock;
      blockCount := GetTrackedSeenBlockCount();
      DistinctKeySetSize(shortIdsSeenInBlock);
    }

    /** `_iter_block_seen_by_time(skip_start, skip_end)` as written (inclusive upper index). */
    method IterBlockSeenByTime(skipStart: int, skipEnd: int) returns (blocks: seq<Sha256Hash>)
      ensures blocks == SeenByTimeAsWritten(Keys(shortIdsSeenInBlock), skipStart, skipEnd)
    {
      var keys := Keys(shortIdsSeenInBlock);
      var to := |shortIdsSeenInBlock| - skipEnd;
      blocks := [];
      ghost var lo := if skipStart < 0 then 0 else if skipStart > |keys| then |keys| else skipStart;
      ghost var hi := if to + 1 < lo then lo else if to + 1 > |keys| then |keys| else to + 1;
      for idx := 0 to |keys|
        invariant blocks == keys[lo..Clamp(lo, idx, hi)]
      {
        WindowStep(keys, lo, hi, idx);
        if skipStart <= idx <= to {
          blocks := blocks + [keys[idx]];
        }
      }
    }

    /** The same generator with the evidently intended exclusive upper index `idx < len - skip_end`. */
    method IterBlockSeenByTimeCorrected(skipStart: int, skipEnd: int) returns (blocks: seq<Sha256Hash>)
      ensures blocks == SeenByTime(Keys(shortIdsSeenInBlock), skipStart, skipEnd)
    {
      var keys := Keys(shortIdsSeenInBlock);
      var to := |shortIdsSeenInBlock| - skipEnd;
      blocks := [];
      ghost var lo := if skipStart < 0 then 0 else if skipStart > |keys| then |keys| else skipStart;
      ghost var hi := if to < lo then lo else if to > |keys| then |keys| else to;
      for idx := 0 to |keys|
        invariant blocks == keys[lo..Clamp(lo, idx, hi)]
      {
        WindowStep(keys, lo, hi, idx);
        if skipStart <= idx < to {
          blocks := blocks + [keys[idx]];
        }
      }
    }

    /** `get_oldest_tracked_block(skip_block_count)` as written. */
    method GetOldestTrackedBlock(skipBlockCount: int) returns (blocks: seq<Sha256Hash>)
      ensures blocks == SeenByTimeAsWritten(Keys(shortIdsSeenInBlock), 0, skipBlockCount)
      ensures 1 <= skipBlockCount <= |shortIdsSeenInBlock| ==>
                blocks == Keys(shortIdsSeenInBlock)[..|shortIdsSeenInBlock| - skipBlockCount + 1]
    {
      blocks := IterBlockSeenByTime(0, skipBlockCount);
      if 1 <= skipBlockCount <= |shortIdsSeenInBlock| {
        OldestTrackedAsWrittenKeepsOneNewest(Keys(shortIdsSeenInBlock), skipBlockCount);
      }
    }

    /** `get_oldest_tracked_block` with the corrected window: all but the `skip_block_count` newest blocks. */
    method GetOldestTrackedBlockCorrected(skipBlockCount: int) returns (blocks: seq<Sha256Hash>)
      requires Valid()
      ensures blocks == SeenByTime(Keys(shortIdsSeenInBlock), 0, skipBlockCount)
      ensures 0 <= skipBlockCount <= |shortIdsSeenInBlock| ==>
                blocks == Keys(shortIdsSeenInBlock)[..|shortIdsSeenInBlock| - skipBlockCount]
    {
      blocks := IterBlockSeenByTimeCorrected(0, skipBlockCount);
      if 0 <= skipBlockCount <= |shortIdsSeenInBlock| {
        OldestTrackedSkipsNewest(Keys(shortIdsSeenInBlock), skipBlockCount);
      }
    }

    /** `get_tracked_blocks(skip_start, skip_end)`: each yielded block mapped to its position in the yielded run. */
    method GetTrackedBlocks(skipStart: int, skipEnd: int) returns (tracked: map<Sha256Hash, nat>)
      ensures var run := SeenByTimeAsWritten(Keys(shortIdsSeenInBlock), skipStart, skipEnd);
        && tracked.Keys == (set i | 0 <= i < |run| :: run[i])
        && forall b :: b in tracked ==> tracked[b] < |run| && run[tracked[b]] == b
    {
      var run := IterBlockSeenByTime(skipStart, skipEnd);
      tracked := map[];
      for idx := 0 to |run|
        invariant tracked.Keys == set i | 0 <= i < idx :: run[i]
        invariant forall b :: b in tracked ==> tracked[b] < idx && run[tracked[b]] == b
      {
        PrefixElementsStep(run, idx);
        tracked := tracked[run[idx] := idx];
      }
    }

    /** `on_block_cleaned_up(block_hash)`: stop tracking that block. */
    method OnBlockCleanedUp(blockHash: Sha256Hash)
      requires Valid()
      modifies this
      ensures Valid()
      ensures Snapshot() == BlockCleanedUp(old(Snapshot()), blockHash)
    {
      BlockCleanedUpFacts(Snapshot(), blockHash);
      if HasKey(shortIdsSeenInBlock, blockHash) {
        shortIdsSeenInBlock := Without(shortIdsSeenInBlock, {blockHash});
      } else {
        NotHasKeyAbsent(shortIdsSeenInBlock, blockHash);
        WithoutAbsent(shortIdsSeenInBlock, {blockHash});
      }
    }

    /**
     * `remove_transaction_by_tx_hash(hash)`: drops the hash's short ids (from the id map and the queue) and its
     * contents; returns the removed ids, or `{NULL_TX_SID}` when the hash had none.
     */
    method RemoveTransactionByTxHash(h: Sha256Hash) returns (shortIds: set<int>)
      requires Valid()
      modifies this, queue
      ensures Valid()
      ensures shortIds == RemovedByHash(old(Snapshot()), h)
      ensures Snapshot() == RemoveByHash(old(Snapshot()), h)
    {
      InvRemoveByHash(Snapshot(), h);
      shortIds := DetachHash(h);
    }

    /** The steps of `remove_transaction_by_tx_hash`, proved without the invariant. */
    method DetachHash(h: Sha256Hash) returns (shortIds: set<int>)
      requires queue.Valid()
      modifies this, queue
      ensures queue.Valid()
      ensures shortIds == RemovedByHash(old(Snapshot()), h)
      ensures Snapshot() == RemoveByHash(old(Snapshot()), h)
    {
      if h in hashToShortIds {
        shortIds := hashToShortIds[h];
        hashToShortIds := hashToShortIds - {h};
        ForgetShortIds(shortIds);
      } else {
        shortIds := {NULL_TX_SID};
      }
      ForgetContents(h);
    }

    /** The loop of both removals that deletes each of `ids` from the id map (when present) and from the queue. */
    method ForgetShortIds(ids: set<int>)
      requires queue.Valid()
      modifies this, queue
      ensures queue.Valid()
      ensures Snapshot() == DropShortIds(old(Snapshot()), ids)
    {
      ghost var p := Snapshot();
      WithoutAbsent(queue.queue, ids - ids);
      assert shortIdToHash - (ids - ids) == shortIdToHash;
      var rest := ids;
      while rest != {}
        invariant rest <= ids && queue.Valid()
        invariant Snapshot() == DropShortIds(p, ids - rest)
        decreases |rest|
      {
        NonEmptyHasElement(rest);
        var s :| s in rest;
        DropShortIdsStep(p, ids - rest, s);
        MoveToDone(ids, rest, s);
        ForgetShortId(s);
        rest := rest - {s};
      }
      assert ids - {} == ids;
    }

    /** One round of that loop: `short_id_to_tx_hash.pop(short_id, None)` and the removal from the queue. */
    method ForgetShortId(s: int)
      requires queue.Valid()
      modifies this, queue
      ensures queue.Valid()
      ensures Snapshot() == old(Snapshot()).(shortIdToHash := old(shortIdToHash) - {s}, queue := Without(old(queue.queue), {s}))
    {
      if s in shortIdToHash {
        shortIdToHash := shortIdToHash - {s};
      } else {
        MapMinusAbsent(shortIdToHash, s);
      }
      queue.Remove(s);
    }

    /** The step of both removals that drops a hash's cached contents and their length from the running total. */
    method ForgetContents(h: Sha256Hash)
      modifies this
      ensures Snapshot() == DropContents(old(Snapshot()), h)
    {
      if h in hashToContents {
        totalTxContentsSize := totalTxContentsSize - |hashToContents[h]|;
        hashToContents := hashToContents - {h};
      }
    }

    /**
     * `remove_transaction_by_short_id(short_id, remove_related_short_ids)`. When the id is its hash's only one, or
     * related ids are to go too, the hash with all its ids and its contents goes; otherwise only this id does.
     * The id may already have left the queue: the queue's callbacks call this after popping it.
     */
    method RemoveTransactionByShortId(shortId: int, removeRelatedShortIds: bool)
      requires ValidExcept(shortId)
      modifies this, queue
      ensures Valid()
      ensures Snapshot() == RemoveByShortId(old(Snapshot()), shortId, removeRelatedShortIds)
    {
      InvRemoveByShortId(Snapshot(), shortId, removeRelatedShortIds);
      DetachShortId(shortId, removeRelatedShortIds);
    }

    /** The steps of `remove_transaction_by_short_id`, proved without the invariant. */
    method DetachShortId(shortId: int, removeRelatedShortIds: bool)
      requires queue.Valid()
      modifies this, queue
      ensures queue.Valid()
      ensures Snapshot() == RemoveByShortId(old(Snapshot()), shortId, removeRelatedShortIds)
    {
      RemoveByShortIdCases(Snapshot(), shortId, removeRelatedShortIds);
      UnlinkShortId(shortId, removeRelatedShortIds);
      queue.Remove(shortId);
    }

    /** The map updates of `remove_transaction_by_short_id`, before its last step takes the id out of the queue. */
    method UnlinkShortId(shortId: int, removeRelatedShortIds: bool)
      requires queue.Valid()
      modifies this, queue
      ensures queue.Valid()
      ensures Snapshot() == Unlinked(old(Snapshot()), shortId, removeRelatedShortIds)
    {
      ghost var p := Snapshot();
      if shortId in shortIdToHash {
        var key := shortIdToHash[shortId];
        shortIdToHash := shortIdToHash - {shortId};
        if key in hashToShortIds {
          var sids := hashToShortIds[key];
          if |sids| == 1 || removeRelatedShortIds {
            ForgetShortIds(sids - {shortId});
            ForgetContents(key);
            hashToShortIds := hashToShortIds - {key};
            assert Snapshot() == DropRelated(p, shortId);
          } else {
            hashToShortIds := hashToShortIds[key := sids - {shortId}];
            assert Snapshot() == DropOne(p, shortId);
          }
        }
      }
    }

    /**
     * `assign_short_id(hash, short_id)` at time `now`: the null id is ignored; otherwise the id is mapped both ways
     * and queued, and the expiration alarm is registered unless one is already scheduled.
     */
    method AssignShortId(h: Sha256Hash, shortId: int, now: int)
      requires Valid()
      modifies this, queue
      ensures Valid()
      ensures Snapshot() == Assign(old(Snapshot()), h, shortId, now)
    {
      InvAssign(Snapshot(), h, shortId, now);
      LinkShortId(h, shortId, now);
    }

    /** The updates of `assign_short_id`, proved without the invariant, which `AssignShortId` adds. */
    method LinkShortId(h: Sha256Hash, shortId: int, now: int)
      requires queue.Valid()
      modifies this, queue
      ensures queue.Valid()
      ensures Snapshot() == Assign(old(Snapshot()), h, shortId, now)
    {
      if shortId == NULL_TX_SID {
        return;
      }
      hashToShortIds := hashToShortIds[h := IdsOrEmpty(hashToShortIds, h) + {shortId}];
      shortIdToHash := shortIdToHash[shortId := h];
      queue.Add(shortId, now);
      ScheduleExpiryAlarm();
    }

    /** Registers the `expire_old_assignments` alarm unless one is already scheduled. */
    method ScheduleExpiryAlarm()
      modifies this
      ensures Snapshot() == old(Snapshot()).(alarmScheduled := true,
        alarmRegistrations := if old(txAssignAlarmScheduled) then old(expireAlarmRegistrations) else old(expireAlarmRegistrations) + 1)
    {
      if !txAssignAlarmScheduled {
        expireAlarmRegistrations := expireAlarmRegistrations + 1;
        txAssignAlarmScheduled := true;
      }
    }

    /**
     * `set_transaction_contents(hash, contents)`: stores (or replaces) the contents, adjusts the running total
     * and then enforces the memory limit.
     */
    method SetTransactionContents(h: Sha256Hash, contents: seq<byte>)
      requires Valid()
      modifies this, queue
      ensures Valid()
      ensures Snapshot() == SetContents(old(Snapshot()), h, contents, txContentMemoryLimit)
    {
      InvStoreContents(Snapshot(), h, contents);
      StoreTransactionContents(h, contents);
      MemoryLimitCleanUp();
    }

    /** The store step of `set_transaction_contents`, before the memory limit is enforced. */
    method StoreTransactionContents(h: Sha256Hash, contents: seq<byte>)
      modifies this
      ensures Snapshot() == StoreContents(old(Snapshot()), h, contents)
    {
      var previousSize := if h in hashToContents then |hashToContents[h]| else 0;
      hashToContents := hashToContents[h := contents];
      totalTxContentsSize := totalTxContentsSize + |contents| - previousSize;
    }

    /** `_is_exceeding_memory_limit()`. */
    predicate IsExceedingMemoryLimit()
      reads this
    {
      totalTxContentsSize > txContentMemoryLimit
    }

    /**
     * `_memory_limit_clean_up()`: while over the limit, pop the oldest short id and remove it (with its transaction
     * when it is the last id); if still over once the queue is empty, clear the pool. The removed counter grows by
     * the pops plus the contents entries dropped by the clearing.
     */
    method MemoryLimitCleanUp()
      requires Valid()
      modifies this, queue
      ensures Valid()
      ensures Snapshot() == MemoryCleanUp(old(Snapshot()), txContentMemoryLimit)
    {
      MemoryCleanUpKeepsInv(Snapshot(), txContentMemoryLimit);
      EnforceMemoryLimit();
    }

    /** The steps of `_memory_limit_clean_up`, proved without the invariant. */
    method EnforceMemoryLimit()
      requires queue.Valid()
      modifies this, queue
      ensures queue.Valid()
      ensures Snapshot() == MemoryCleanUp(old(Snapshot()), txContentMemoryLimit)
    {
      if totalTxContentsSize <= txContentMemoryLimit {
        return;
      }
      var removedTxCount := EvictOldest();
      if IsExceedingMemoryLimit() && !queue.NonEmpty() {
        removedTxCount := removedTxCount + |hashToContents|;
        ClearMemPool();
      }
      totalTxRemovedByMemoryLimit := totalTxRemovedByMemoryLimit + removedTxCount;
    }

    /** The `while` loop of `_memory_limit_clean_up`; returns the number of short ids it popped. */
    method EvictOldest() returns (popped: nat)
      requires queue.Valid()
      modifies this, queue
      ensures queue.Valid()
      ensures (Snapshot(), popped) == Evict(old(Snapshot()), txContentMemoryLimit)
    {
      ghost var e := Evict(Snapshot(), txContentMemoryLimit);
      popped := 0;
      while IsExceedingMemoryLimit() && queue.NonEmpty()
        invariant queue.Valid()
        invariant e == (Evict(Snapshot(), txContentMemoryLimit).0, Evict(Snapshot(), txContentMemoryLimit).1 + popped)
        decreases |queue.queue|
      {
        var _ := RemoveOldestAssignment();
        popped := popped + 1;
      }
      assert Evict(Snapshot(), txContentMemoryLimit) == (Snapshot(), 0);
    }

    /**
     * `remove_oldest(remove_callback=remove_transaction_by_short_id)` on the expiration queue: pops the oldest short
     * id and removes it without its related ids. Shared by the memory clean-up and the expiry loops.
     */
    method RemoveOldestAssignment() returns (oldest: int)
      requires queue.Valid() && queue.queue != []
      modifies this, queue
      ensures queue.Valid()
      ensures oldest == old(queue.queue[0].0)
      ensures Snapshot() == RemoveByShortId(old(Snapshot()).(queue := old(queue.queue[1..])), oldest, false)
      ensures |queue.queue| < old(|queue.queue|)
    {
      RemoveByShortIdShrinksQueue(Snapshot().(queue := queue.queue[1..]), queue.queue[0].0, false);
      var item := queue.RemoveOldest();
      oldest := item.value;
      DetachShortId(oldest, false);
    }

    /**
     * `_clear_mem_pool()`: empties every map and the block window and zeroes the total, but leaves the expiration
     * queue alone, so it keeps the invariant only when the queue is already empty (as at its one call).
     */
    method ClearMemPool()
      modifies this
      ensures Snapshot() == Clear(old(Snapshot()))
    {
      hashToContents := map[];
      hashToShortIds := map[];
      shortIdToHash := map[];
      shortIdsSeenInBlock := [];
      totalTxContentsSize := 0;
    }

    /**
     * `expire_old_assignments()` at time `now`: pops every expired short id from the front of the queue and
     * removes it (with its transaction when it is the last id). Returns the popped ids and the delay until the
     * next run: the oldest remaining id's time to expiry, at least the minimum interval, or 0 when the queue
     * is empty, in which case the alarm is no longer scheduled.
     */
    method ExpireOldAssignments(now: int) returns (r: ExpireOutcome)
      requires Valid()
      modifies this, queue
      ensures Valid()
      ensures (Snapshot(), r) == Expire(old(Snapshot()), queue.timeToLive, now, minCleanUpInterval)
    {
      InvExpire(Snapshot(), queue.timeToLive, now, minCleanUpInterval);
      r := ExpireAndReschedule(now);
    }

    /** The steps of `expire_old_assignments`, proved without the invariant. */
    method ExpireAndReschedule(now: int) returns (r: ExpireOutcome)
      requires queue.Valid()
      modifies this, queue
      ensures queue.Valid()
      ensures (Snapshot(), r) == Expire(old(Snapshot()), queue.timeToLive, now, minCleanUpInterval)
    {
      ghost var p := Snapshot();
      var expired := RemoveExpiredAssignments(now);
      ExpireFromLoop(p, queue.timeToLive, now, minCleanUpInterval, Snapshot(), expired);
      if queue.NonEmpty() {
        var oldest := queue.GetOldestItemTimestamp().value;
        r := ExpireOutcome(expired, Max(oldest + queue.timeToLive - now, minCleanUpInterval));
      } else {
        txAssignAlarmScheduled := false;
        r := ExpireOutcome(expired, 0);
      }
    }

    /**
     * `remove_expired(remove_callback=remove_transaction_by_short_id)` on the expiration queue at time `now`: while
     * the oldest short id is older than the time to live, pop it and remove it. The popped ids are returned in order.
     */
    method RemoveExpiredAssignments(now: int) returns (expired: seq<int>)
      requires queue.Valid()
      modifies this, queue
      ensures queue.Valid()
      ensures (Snapshot(), expired) == ExpireLoop(old(Snapshot()), queue.timeToLive, now)
    {
      ghost var e := ExpireLoop(Snapshot(), queue.timeToLive, now);
      expired := [];
      while queue.NonEmpty() && now - queue.GetOldestItemTimestamp().value > queue.timeToLive
        invariant queue.Valid()
        invariant ExpireLoop(Snapshot(), queue.timeToLive, now).0 == e.0
        invariant expired + ExpireLoop(Snapshot(), queue.timeToLive, now).1 == e.1
        decreases |queue.queue|
      {
        var item := RemoveOldestAssignment();
        ConcatAssoc(expired, [item], ExpireLoop(Snapshot(), queue.timeToLive, now).1);
        expired := expired + [item];
      }
      assert ExpireLoop(Snapshot(), queue.timeToLive, now) == (Snapshot(), []);
      assert expired + [] == expired;
    }

    /**
     * `track_seen_short_ids(block_hash, short_ids)`: records the block's ids; once the window holds at least the
     * final confirmations count of blocks, the oldest block leaves it and each of its ids is removed together
     * with its related ids and transaction.
     */
    method TrackSeenShortIds(blockHash: Sha256Hash, shortIds: seq<int>)
      requires Valid()
      modifies this, queue
      ensures Valid()
      ensures Snapshot() == Track(old(Snapshot()), blockHash, shortIds)
    {
      TrackFacts(Snapshot(), blockHash, shortIds);
      RecordSeenShortIds(blockHash, shortIds);
    }

    /** The steps of `track_seen_short_ids`, proved without the invariant. */
    method RecordSeenShortIds(blockHash: Sha256Hash, shortIds: seq<int>)
      requires queue.Valid()
      modifies this, queue
      ensures queue.Valid()
      ensures Snapshot() == Track(old(Snapshot()), blockHash, shortIds)
    {
      shortIdsSeenInBlock := Put(shortIdsSeenInBlock, blockHash, shortIds);
      if |shortIdsSeenInBlock| >= finalTxConfirmationsCount {
        var finalShortIds := shortIdsSeenInBlock[0].1;
        shortIdsSeenInBlock := shortIdsSeenInBlock[1..];
        RemoveFinalShortIds(finalShortIds);
      }
    }

    /** The `for short_id in final_short_ids` loop of `track_seen_short_ids`: each removed with its related ids. */
    method RemoveFinalShortIds(finalShortIds: seq<int>)
      requires queue.Valid()
      modifies this, queue
      ensures queue.Valid()
      ensures Snapshot() == RemoveAll(old(Snapshot()), finalShortIds)
    {
      ghost var p := Snapshot();
      for i := 0 to |finalShortIds|
        invariant queue.Valid()
        invariant Snapshot() == RemoveAll(p, finalShortIds[..i])
      {
        assert finalShortIds[..i + 1][..i] == finalShortIds[..i];
        DetachShortId(finalShortIds[i], true);
      }
      assert finalShortIds[..|finalShortIds|] == finalShortIds;
    }
  }

  /** `x` clamped into `[lo, hi]`. */
  function Clamp(lo: int, x: int, hi: int): (r: int)
    requires lo <= hi
    ensures lo <= r <= hi
    ensures lo <= x <= hi ==> r == x
  {
    if x < lo then lo else if x > hi then hi else x
  }

  /** One index of the generator's loop extends the yielded window by that block exactly when it lies inside. */
  lemma WindowStep<T>(keys: seq<T>, lo: int, hi: int, idx: int)
    requires 0 <= lo <= hi <= |keys| && 0 <= idx < |keys|
    ensures keys[lo..Clamp(lo, idx + 1, hi)] == keys[lo..Clamp(lo, idx, hi)] + (if lo <= idx < hi then [keys[idx]] else [])
  {
  }

  /** The elements of a one-longer prefix are those of the prefix and the next element. */
  lemma PrefixElementsStep<T>(run: seq<T>, idx: int)
    requires 0 <= idx < |run|
    ensures (set i | 0 <= i < idx + 1 :: run[i]) == (set i | 0 <= i < idx :: run[i]) + {run[idx]}
  {
  }

  /** Moving one element from the pending part to the done part of a set being iterated. */
  lemma MoveToDone(ids: set<int>, rest: set<int>, s: int)
    requires s in rest && rest <= ids
    ensures (ids - rest) + {s} == ids - (rest - {s})
  {
  }

  lemma NonEmptyHasElement(s: set<int>)
    requires s != {}
    ensures exists x :: x in s
  {
    if forall x :: x !in s {
      assert false;
    }
  }

  lemma InvExpire(p: Pool, ttl: int, now: int, minInterval: int)
    requires Inv(p)
    ensures Inv(Expire(p, ttl, now, minInterval).0)
  {
    ExpireLoopKeepsInv(p, ttl, now);
  }

  /** `Expire` in terms of the outcome of its loop. */
  lemma ExpireFromLoop(p: Pool, ttl: int, now: int, minInterval: int, q: Pool, expired: seq<int>)
    requires ExpireLoop(p, ttl, now) == (q, expired)
    ensures Expire(p, ttl, now, minInterval)
      == if q.queue != [] then (q, ExpireOutcome(expired, Max(q.queue[0].1 + ttl - now, minInterval)))
         else (q.(alarmScheduled := false), ExpireOutcome(expired, 0))
  {
  }

  lemma ConcatAssoc<T>(a: seq<T>, b: seq<T>, c: seq<T>)
    ensures a + (b + c) == (a + b) + c
  {
  }

  /** A key no pair carries is absent from every pair. */
  lemma NotHasKeyAbsent<K, V>(s: seq<(K, V)>, k: K)
    requires !HasKey(s, k)
    ensures forall i :: 0 <= i < |s| ==> s[i].0 !in {k}
  {
  }

  /** One round of the id loops: forgetting one more id is forgetting the enlarged set. */
  lemma DropShortIdsStep(p: Pool, done: set<int>, s: int)
    ensures var d := DropShortIds(p, done);
      DropShortIds(p, done + {s}) == d.(shortIdToHash := d.shortIdToHash - {s}, queue := Without(d.queue, {s}))
  {
    WithoutWithout(p.queue, done, {s});
    MapMinusUnion(p.shortIdToHash, done, {s});
  }
}
