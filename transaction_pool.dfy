/**
 * The state of the transaction cache as a value, and each of its state-changing operations as a function on that
 * value: hash <-> short ids <-> contents, the short-id expiration queue, the window of short ids seen in recent
 * blocks, and the memory limit on cached contents. The hex cache key of the source is a bijection on hashes, so
 * hashes are used as keys directly; time is an integer `now` supplied by the caller.
 */
module TransactionPools {
  import opened Wrappers
  import opened Bytes
  import opened OrderedMaps
  import opened Transactions

  /** Some key of a non-empty map. */
  ghost function Pick<K, V>(m: map<K, V>): (k: K)
    requires |m| > 0
    ensures k in m
  {
    var k :| k in m; k
  }

  /** Sum of the lengths of all cached contents. */
  ghost function TotalLength(m: map<Sha256Hash, seq<byte>>): nat
    decreases |m|
  {
    if |m| == 0 then 0 else var k := Pick(m); |m[k]| + TotalLength(m - {k})
  }

  lemma {:induction false} TotalLengthRemove(m: map<Sha256Hash, seq<byte>>, k: Sha256Hash)
    requires k in m
    ensures TotalLength(m) == |m[k]| + TotalLength(m - {k})
    decreases |m|
  {
    var j := Pick(m);
    if j != k {
      var mj := m - {j};
      var mk := m - {k};
      TotalLengthRemove(mj, k);
      TotalLengthRemove(mk, j);
      MapMinusSwap(m, j, k);
    }
  }

  /** Storing contents under a hash changes the total by the new length minus the replaced one. */
  lemma TotalLengthPut(m: map<Sha256Hash, seq<byte>>, k: Sha256Hash, v: seq<byte>)
    ensures TotalLength(m[k := v]) == TotalLength(m) - (if k in m then |m[k]| else 0) + |v|
  {
    TotalLengthRemove(m[k := v], k);
    MapUpdateMinus(m, k, v);
    if k in m {
      TotalLengthRemove(m, k);
    } else {
      MapMinusAbsent(m, k);
    }
  }

  /** Removing two keys in either order gives the same map. */
  lemma MapMinusSwap<K, V>(m: map<K, V>, j: K, k: K)
    ensures m - {j} - {k} == m - {k} - {j}
  {
  }

  /** Removing the key just stored forgets the store. */
  lemma MapUpdateMinus<K, V>(m: map<K, V>, k: K, v: V)
    ensures m[k := v] - {k} == m - {k}
  {
  }

  /** `get_transaction(short_id)` on the two maps. */
  function Lookup(sidToHash: map<int, Sha256Hash>, contents: map<Sha256Hash, seq<byte>>, shortId: int): (r: TransactionInfo)
    ensures r.shortId == shortId
    ensures r.hash == (if shortId in sidToHash then Some(sidToHash[shortId]) else None)
    ensures r.contents.Some? <==> shortId in sidToHash && sidToHash[shortId] in contents
    ensures r.contents.Some? ==> r.contents.value == contents[sidToHash[shortId]]
  {
    if shortId in sidToHash then
      var h := sidToHash[shortId];
      TransactionInfo(Some(h), if h in contents then Some(contents[h]) else None, shortId)
    else TransactionInfo(None, None, shortId)
  }

  /** The `found` list of `get_transactions`: ids whose hash and contents are both known, in request order. */
  function FoundTransactions(sidToHash: map<int, Sha256Hash>, contents: map<Sha256Hash, seq<byte>>, sids: seq<int>): (r: seq<TransactionInfo>)
    ensures |r| <= |sids|
    ensures forall i :: 0 <= i < |r| ==>
              r[i].shortId in sids && r[i].contents.Some? && r[i] == Lookup(sidToHash, contents, r[i].shortId)
  {
    if sids == [] then []
    else
      var rest := FoundTransactions(sidToHash, contents, sids[..|sids| - 1]);
      var s := sids[|sids| - 1];
      assert forall i :: 0 <= i < |rest| ==> rest[i].shortId in sids by {
        forall i | 0 <= i < |rest| ensures rest[i].shortId in sids {
          var j :| 0 <= j < |sids| - 1 && sids[..|sids| - 1][j] == rest[i].shortId;
          assert sids[j] == rest[i].shortId;
        }
      }
      var info := Lookup(sidToHash, contents, s);
      if info.contents.Some? then rest + [info] else rest
  }

  /** The `missing` list of `get_transactions`: every other id, reported without hash or contents. */
  function MissingTransactions(sidToHash: map<int, Sha256Hash>, contents: map<Sha256Hash, seq<byte>>, sids: seq<int>): (r: seq<TransactionInfo>)
    ensures |r| <= |sids|
    ensures forall i :: 0 <= i < |r| ==>
              r[i].shortId in sids && r[i] == TransactionInfo(None, None, r[i].shortId)
              && Lookup(sidToHash, contents, r[i].shortId).contents.None?
  {
    if sids == [] then []
    else
      var rest := MissingTransactions(sidToHash, contents, sids[..|sids| - 1]);
      var s := sids[|sids| - 1];
      assert forall i :: 0 <= i < |rest| ==> rest[i].shortId in sids by {
        forall i | 0 <= i < |rest| ensures rest[i].shortId in sids {
          var j :| 0 <= j < |sids| - 1 && sids[..|sids| - 1][j] == rest[i].shortId;
          assert sids[j] == rest[i].shortId;
        }
      }
      if Lookup(sidToHash, contents, s).contents.Some? then rest else rest + [TransactionInfo(None, None, s)]
  }

  /** Every requested id lands in exactly one of the two lists. */
  lemma {:induction false} FoundMissingPartition(sidToHash: map<int, Sha256Hash>, contents: map<Sha256Hash, seq<byte>>, sids: seq<int>)
    ensures |FoundTransactions(sidToHash, contents, sids)| + |MissingTransactions(sidToHash, contents, sids)| == |sids|
  {
    if sids != [] {
      FoundMissingPartition(sidToHash, contents, sids[..|sids| - 1]);
    }
  }

  /** The `unknown_tx_sids` list of `get_missing_transactions`: requested ids with no hash, in order. */
  function UnknownShortIds(sidToHash: map<int, Sha256Hash>, sids: seq<int>): (r: seq<int>)
    ensures forall s :: s in r <==> s in sids && s !in sidToHash
  {
    if sids == [] then []
    else
      var rest := UnknownShortIds(sidToHash, sids[..|sids| - 1]);
      var s := sids[|sids| - 1];
      assert sids == sids[..|sids| - 1] + [s];
      if s in sidToHash then rest else rest + [s]
  }

  /** The `unknown_tx_hashes` list: hashes of requested ids whose contents are not cached, in order. */
  function UnknownHashes(sidToHash: map<int, Sha256Hash>, contents: map<Sha256Hash, seq<byte>>, sids: seq<int>): (r: seq<Sha256Hash>)
    ensures forall h :: h in r ==> h !in contents && exists s :: s in sids && s in sidToHash && sidToHash[s] == h
    ensures forall s :: s in sids && s in sidToHash && sidToHash[s] !in contents ==> sidToHash[s] in r
  {
    if sids == [] then []
    else
      var rest := UnknownHashes(sidToHash, contents, sids[..|sids| - 1]);
      var s := sids[|sids| - 1];
      assert sids == sids[..|sids| - 1] + [s];
      if s in sidToHash && sidToHash[s] !in contents then rest + [sidToHash[s]] else rest
  }

  /** Total number of short ids over the tracked blocks. */
  function SeenShortIdCount(seen: seq<(Sha256Hash, seq<int>)>): nat
  {
    if seen == [] then 0 else SeenShortIdCount(seen[..|seen| - 1]) + |seen[|seen| - 1].1|
  }

  /**
   * The blocks `_iter_block_seen_by_time(skip_start, skip_end)` yields, as written: the index must satisfy
   * `skip_start <= idx <= len - skip_end`, so the upper bound is inclusive.
   */
  function SeenByTimeAsWritten(blocks: seq<Sha256Hash>, skipStart: int, skipEnd: int): (r: seq<Sha256Hash>)
    ensures forall i :: 0 <= i < |r| ==> r[i] in blocks
  {
    var lo := if skipStart < 0 then 0 else if skipStart > |blocks| then |blocks| else skipStart;
    var to := |blocks| - skipEnd + 1;
    var hi := if to < lo then lo else if to > |blocks| then |blocks| else to;
    blocks[lo..hi]
  }

  /** The intended window: skip `skip_start` oldest and `skip_end` newest blocks (exclusive upper bound). */
  function SeenByTime(blocks: seq<Sha256Hash>, skipStart: int, skipEnd: int): (r: seq<Sha256Hash>)
    ensures forall i :: 0 <= i < |r| ==> r[i] in blocks
  {
    var lo := if skipStart < 0 then 0 else if skipStart > |blocks| then |blocks| else skipStart;
    var to := |blocks| - skipEnd;
    var hi := if to < lo then lo else if to > |blocks| then |blocks| else to;
    blocks[lo..hi]
  }

  /**
   * As written, skipping the `k` newest blocks (1 <= k <= len) still yields the oldest of those `k`;
   * in particular skipping the newest block yields every block.
   */
  lemma OldestTrackedAsWrittenKeepsOneNewest(blocks: seq<Sha256Hash>, k: int)
    requires 1 <= k <= |blocks|
    ensures SeenByTimeAsWritten(blocks, 0, k) == blocks[..|blocks| - k + 1]
    ensures blocks[|blocks| - k] in SeenByTimeAsWritten(blocks, 0, k)
    ensures SeenByTimeAsWritten(blocks, 0, 1) == blocks
  {
    assert blocks[..|blocks| - k + 1][|blocks| - k] == blocks[|blocks| - k];
  }

  /** The corrected window drops exactly the `k` newest blocks, for every `0 <= k <= len`. */
  lemma OldestTrackedSkipsNewest(blocks: seq<Sha256Hash>, k: int)
    requires 0 <= k <= |blocks|
    requires forall i, j :: 0 <= i < j < |blocks| ==> blocks[i] != blocks[j]
    ensures SeenByTime(blocks, 0, k) == blocks[..|blocks| - k]
    ensures forall i :: |blocks| - k <= i < |blocks| ==> blocks[i] !in SeenByTime(blocks, 0, k)
  {
  }

  /**
   * The index invariant of the two id maps: a resolvable short id is listed under its hash, and every listed
   * set is non-empty and never holds the null id. (The converse can fail: reassigning a short id to another
   * hash leaves it listed under the old hash.)
   */
  ghost predicate Indexed(h2s: map<Sha256Hash, set<int>>, s2h: map<int, Sha256Hash>)
  {
    && (forall s :: s in s2h ==> s2h[s] in h2s && s in h2s[s2h[s]])
    && (forall h :: h in h2s ==> h2s[h] != {} && NULL_TX_SID !in h2s[h])
  }

  /** `assign_short_id` keeps the index. */
  lemma IndexedAssign(h2s: map<Sha256Hash, set<int>>, s2h: map<int, Sha256Hash>, h: Sha256Hash, s: int)
    requires Indexed(h2s, s2h) && s != NULL_TX_SID
    ensures Indexed(h2s[h := IdsOrEmpty(h2s, h) + {s}], s2h[s := h])
  {
    var h2s' := h2s[h := IdsOrEmpty(h2s, h) + {s}];
    var s2h' := s2h[s := h];
    forall t | t in s2h' ensures s2h'[t] in h2s' && t in h2s'[s2h'[t]] {
      if t != s {
        assert s2h'[t] == s2h[t];
      }
    }
  }

  /** Dropping a hash together with all its listed ids keeps the index. */
  lemma IndexedDropHash(h2s: map<Sha256Hash, set<int>>, s2h: map<int, Sha256Hash>, h: Sha256Hash)
    requires Indexed(h2s, s2h) && h in h2s
    ensures Indexed(h2s - {h}, s2h - h2s[h])
  {
  }

  /** What `remove_transaction_by_short_id` relies on: the id is listed under its hash, in a singleton or not. */
  lemma IndexedDropShortId(h2s: map<Sha256Hash, set<int>>, s2h: map<int, Sha256Hash>, s: int)
    requires Indexed(h2s, s2h) && s in s2h
    ensures s2h[s] in h2s && s in h2s[s2h[s]]
    ensures Indexed(h2s - {s2h[s]}, s2h - h2s[s2h[s]])
    ensures |h2s[s2h[s]]| == 1 ==> h2s[s2h[s]] == {s}
    ensures |h2s[s2h[s]]| != 1 ==> Indexed(h2s[s2h[s] := h2s[s2h[s]] - {s}], s2h - {s})
  {
    var key := s2h[s];
    var sids := h2s[key];
    IndexedDropHash(h2s, s2h, key);
    if |sids| == 1 {
      assert |sids - {s}| == 0;
    } else {
      assert |sids - {s}| == |sids| - 1;
      var h2s' := h2s[key := sids - {s}];
      var s2h' := s2h - {s};
      forall t | t in s2h' ensures s2h'[t] in h2s' && t in h2s'[s2h'[t]] {
        assert s2h'[t] == s2h[t];
      }
    }
  }

  /**
   * The service's whole mutable state as one value: the expiration queue's pairs (short id, time added),
   * the three maps, the block window (block hash -> the short ids seen in it, oldest first), the counters,
   * the alarm flag with the number of alarm registrations, and the final confirmations count.
   */
  datatype Pool = Pool(
    queue: seq<(int, int)>,
    hashToShortIds: map<Sha256Hash, set<int>>,
    shortIdToHash: map<int, Sha256Hash>,
    hashToContents: map<Sha256Hash, seq<byte>>,
    seenInBlock: seq<(Sha256Hash, seq<int>)>,
    totalContentsSize: int,
    removedByMemoryLimit: int,
    alarmScheduled: bool,
    alarmRegistrations: nat,
    finalConfirmations: int)

  /** The invariants that hold even while one short id is between the queue and the id map. */
  ghost predicate Core(p: Pool)
  {
    && Indexed(p.hashToShortIds, p.shortIdToHash)
    && p.totalContentsSize == TotalLength(p.hashToContents)
    && DistinctKeys(p.queue)
    && DistinctKeys(p.seenInBlock)
  }

  /** The queue holds exactly the resolvable short ids, except possibly `x`. */
  ghost predicate InvExcept(p: Pool, x: int)
  {
    Core(p) && KeySet(p.queue) - {x} == p.shortIdToHash.Keys - {x}
  }

  /** The invariant of the service: the index, the running total, and queue keys == resolvable short ids. */
  ghost predicate Inv(p: Pool)
  {
    Core(p) && KeySet(p.queue) == p.shortIdToHash.Keys
  }

  /** The state right after construction. */
  function EmptyPool(finalConfirmations: int): (p: Pool)
    ensures Inv(p)
    ensures p.totalContentsSize == 0 && p.queue == [] && p.seenInBlock == [] && !p.alarmScheduled
  {
    Pool([], map[], map[], map[], [], 0, 0, false, 0, finalConfirmations)
  }

  /** `get_short_ids(hash)` on the index: the assigned ids, or `{NULL_TX_SID}` for an unknown hash. */
  function ShortIdsOf(h2s: map<Sha256Hash, set<int>>, h: Sha256Hash): set<int>
  {
    if h in h2s then h2s[h] else {NULL_TX_SID}
  }

  /** The id set `_tx_cache_key_to_short_ids[key]` of a `defaultdict(set)`: empty for a missing key. */
  function IdsOrEmpty(h2s: map<Sha256Hash, set<int>>, h: Sha256Hash): set<int>
  {
    if h in h2s then h2s[h] else {}
  }

  /** `assign_short_id(hash, short_id)` at time `now`. */
  function Assign(p: Pool, h: Sha256Hash, s: int, now: int): (r: Pool)
  {
    if s == NULL_TX_SID then p
    else
      p.(hashToShortIds := p.hashToShortIds[h := IdsOrEmpty(p.hashToShortIds, h) + {s}],
         shortIdToHash := p.shortIdToHash[s := h],
         queue := Put(p.queue, s, now),
         alarmRegistrations := if p.alarmScheduled then p.alarmRegistrations else p.alarmRegistrations + 1,
         alarmScheduled := true)
  }

  /** Forgetting a set of short ids: out of the id map and out of the queue. */
  function DropShortIds(p: Pool, ids: set<int>): Pool
  {
    p.(shortIdToHash := p.shortIdToHash - ids, queue := Without(p.queue, ids))
  }

  /** Dropping a hash's contents (if cached) and their length from the running total. */
  function DropContents(p: Pool, h: Sha256Hash): Pool
  {
    if h in p.hashToContents then
      p.(totalContentsSize := p.totalContentsSize - |p.hashToContents[h]|, hashToContents := p.hashToContents - {h})
    else p
  }

  /** Removing an absent key changes nothing. */
  lemma MapMinusAbsent<K, V>(m: map<K, V>, k: K)
    requires k !in m
    ensures m - {k} == m
  {
  }

  /** Removing two key sets in turn is removing their union. */
  lemma MapMinusUnion<K, V>(m: map<K, V>, a: set<K>, b: set<K>)
    ensures m - a - b == m - (a + b)
  {
  }

  lemma DropShortIdsFacts(p: Pool, ids: set<int>)
    ensures KeySet(DropShortIds(p, ids).queue) == KeySet(p.queue) - ids
    ensures DistinctKeys(p.queue) ==> DistinctKeys(DropShortIds(p, ids).queue)
  {
    KeySetWithout(p.queue, ids);
    if DistinctKeys(p.queue) {
      WithoutKeepsDistinct(p.queue, ids);
    }
  }

  lemma DropContentsFacts(p: Pool, h: Sha256Hash)
    requires p.totalContentsSize == TotalLength(p.hashToContents)
    ensures DropContents(p, h).totalContentsSize == TotalLength(DropContents(p, h).hashToContents)
  {
    if h in p.hashToContents {
      TotalLengthRemove(p.hashToContents, h);
    }
  }

  /** What `remove_transaction_by_tx_hash(hash)` returns. */
  function RemovedByHash(p: Pool, h: Sha256Hash): set<int>
  {
    ShortIdsOf(p.hashToShortIds, h)
  }

  /** `remove_transaction_by_tx_hash(hash)`: the hash's id set goes, each of its ids goes, its contents go. */
  function RemoveByHash(p: Pool, h: Sha256Hash): (r: Pool)
  {
    var q := if h in p.hashToShortIds then DropShortIds(p.(hashToShortIds := p.hashToShortIds - {h}), p.hashToShortIds[h]) else p;
    DropContents(q, h)
  }

  /**
   * `remove_transaction_by_short_id(short_id, remove_related_short_ids)`. A resolvable id leaves the id map;
   * when its hash's set is a singleton, or related ids are to go too, every id of the set leaves the id map and
   * the queue and the hash's set and contents go; otherwise the id only leaves the set. Last, the id leaves the
   * queue in every case.
   */
  function RemoveByShortId(p: Pool, s: int, related: bool): Pool
  {
    var q := Unlinked(p, s, related);
    q.(queue := Without(q.queue, {s}))
  }

  /**
   * The branch that drops the whole transaction: the id leaves the id map, then every other id of its hash's set
   * leaves the id map and the queue, then the hash's contents and the set itself go.
   */
  function DropRelated(p: Pool, s: int): Pool
    requires s in p.shortIdToHash && p.shortIdToHash[s] in p.hashToShortIds
  {
    var key := p.shortIdToHash[s];
    var p0 := p.(shortIdToHash := p.shortIdToHash - {s});
    DropContents(DropShortIds(p0, p.hashToShortIds[key] - {s}), key).(hashToShortIds := p.hashToShortIds - {key})
  }

  /** The branch that keeps the transaction: the id leaves the id map and its hash's set. */
  function DropOne(p: Pool, s: int): Pool
    requires s in p.shortIdToHash && p.shortIdToHash[s] in p.hashToShortIds
  {
    var key := p.shortIdToHash[s];
    p.(shortIdToHash := p.shortIdToHash - {s}, hashToShortIds := p.hashToShortIds[key := p.hashToShortIds[key] - {s}])
  }

  /** Removing a short id leaves the block window, the counters, the alarm and the confirmations count alone. */
  lemma RemoveByShortIdKeepsRest(p: Pool, s: int, related: bool)
    ensures var r := RemoveByShortId(p, s, related);
      && r.seenInBlock == p.seenInBlock && r.removedByMemoryLimit == p.removedByMemoryLimit
      && r.alarmScheduled == p.alarmScheduled && r.alarmRegistrations == p.alarmRegistrations
      && r.finalConfirmations == p.finalConfirmations
  {
    RemoveByShortIdCases(p, s, related);
  }

  /** Removing a short id never adds resolvable ids or contents, and the id itself no longer resolves. */
  lemma RemoveByShortIdShrinksMaps(p: Pool, s: int, related: bool)
    ensures RemoveByShortId(p, s, related).shortIdToHash.Keys <= p.shortIdToHash.Keys - {s}
    ensures RemoveByShortId(p, s, related).hashToContents.Keys <= p.hashToContents.Keys
  {
    RemoveByShortIdCases(p, s, related);
  }

  /** Removing a short id never adds queue entries, and the id itself is no longer queued. */
  lemma RemoveByShortIdShrinksQueue(p: Pool, s: int, related: bool)
    ensures KeySet(RemoveByShortId(p, s, related).queue) <= KeySet(p.queue) - {s}
    ensures |RemoveByShortId(p, s, related).queue| <= |p.queue|
  {
    RemoveByShortIdCases(p, s, related);
    var q := Unlinked(p, s, related).queue;
    if q != p.queue {
      var ids := p.hashToShortIds[p.shortIdToHash[s]] - {s};
      KeySetWithout(p.queue, ids);
      WithoutFacts(p.queue, ids);
    }
    KeySetWithout(q, {s});
    WithoutFacts(q, {s});
  }

  /** The pool after the map updates of `remove_transaction_by_short_id`, before the id leaves the queue. */
  function Unlinked(p: Pool, s: int, related: bool): Pool
  {
    if s in p.shortIdToHash then
      if p.shortIdToHash[s] in p.hashToShortIds then
        if |p.hashToShortIds[p.shortIdToHash[s]]| == 1 || related then DropRelated(p, s) else DropOne(p, s)
      else p.(shortIdToHash := p.shortIdToHash - {s})
    else p
  }

  /** The case analysis behind every fact about a removal, made explicit once. */
  lemma RemoveByShortIdCases(p: Pool, s: int, related: bool)
    ensures RemoveByShortId(p, s, related) == Unlinked(p, s, related).(queue := Without(Unlinked(p, s, related).queue, {s}))
    ensures var u := Unlinked(p, s, related);
      && u.seenInBlock == p.seenInBlock && u.removedByMemoryLimit == p.removedByMemoryLimit
      && u.alarmScheduled == p.alarmScheduled && u.alarmRegistrations == p.alarmRegistrations
      && u.finalConfirmations == p.finalConfirmations
      && u.shortIdToHash.Keys <= p.shortIdToHash.Keys - {s}
      && u.hashToContents.Keys <= p.hashToContents.Keys
    ensures Unlinked(p, s, related).queue == p.queue
      || (s in p.shortIdToHash && p.shortIdToHash[s] in p.hashToShortIds
          && Unlinked(p, s, related).queue == Without(p.queue, p.hashToShortIds[p.shortIdToHash[s]] - {s}))
  {
    if s in p.shortIdToHash && p.shortIdToHash[s] in p.hashToShortIds {
      if |p.hashToShortIds[p.shortIdToHash[s]]| == 1 || related {
        assert Unlinked(p, s, related) == DropRelated(p, s);
      } else {
        assert Unlinked(p, s, related) == DropOne(p, s);
      }
    }
  }

  /** `_clear_mem_pool()`: every map and the block window emptied, the total zeroed; the queue is untouched. */
  function Clear(p: Pool): (r: Pool)
  {
    p.(hashToContents := map[], hashToShortIds := map[], shortIdToHash := map[], seenInBlock := [], totalContentsSize := 0)
  }

  /**
   * The loop of `_memory_limit_clean_up`: while over `limit` and the queue is not empty, pop the oldest short id
   * and remove it (`remove_related_short_ids` false). The second component counts the pops.
   */
  function Evict(p: Pool, limit: int): (r: (Pool, nat))
    decreases |p.queue|
  {
    if p.totalContentsSize > limit && p.queue != [] then
      var next := RemoveByShortId(p.(queue := p.queue[1..]), p.queue[0].0, false);
      RemoveByShortIdShrinksQueue(p.(queue := p.queue[1..]), p.queue[0].0, false);
      var (q, n) := Evict(next, limit);
      (q, n + 1)
    else (p, 0)
  }

  /**
   * `_memory_limit_clean_up()`: nothing when within `limit`; otherwise evict, and clear the pool if still over
   * with an empty queue. The removed counter grows by the pops plus the contents entries the clearing drops.
   */
  function MemoryCleanUp(p: Pool, limit: int): (r: Pool)
  {
    if p.totalContentsSize <= limit then p
    else
      var e := Evict(p, limit);
      if e.0.totalContentsSize > limit && e.0.queue == [] then
        Clear(e.0).(removedByMemoryLimit := e.0.removedByMemoryLimit + e.1 + |e.0.hashToContents|)
      else e.0.(removedByMemoryLimit := e.0.removedByMemoryLimit + e.1)
  }

  /** `set_transaction_contents(hash, contents)` with memory limit `limit`. */
  function SetContents(p: Pool, h: Sha256Hash, contents: seq<byte>, limit: int): (r: Pool)
  {
    MemoryCleanUp(StoreContents(p, h, contents), limit)
  }

  /** The store step of `set_transaction_contents`: the total loses the previous length (if any) and gains the new. */
  function StoreContents(p: Pool, h: Sha256Hash, contents: seq<byte>): Pool
  {
    var previous := if h in p.hashToContents then |p.hashToContents[h]| else 0;
    p.(hashToContents := p.hashToContents[h := contents], totalContentsSize := p.totalContentsSize + |contents| - previous)
  }

  /**
   * `remove_expired` with `remove_transaction_by_short_id` as callback, at time `now`: pop the oldest id while
   * `now - timestamp > ttl`, and remove it. The second component lists the popped ids in order.
   */
  function ExpireLoop(p: Pool, ttl: int, now: int): (r: (Pool, seq<int>))
    decreases |p.queue|
  {
    if p.queue != [] && now - p.queue[0].1 > ttl then
      var head := p.queue[0].0;
      var next := RemoveByShortId(p.(queue := p.queue[1..]), head, false);
      RemoveByShortIdShrinksQueue(p.(queue := p.queue[1..]), head, false);
      var (q, e) := ExpireLoop(next, ttl, now);
      (q, [head] + e)
    else (p, [])
  }

  /** The outcome of `expire_old_assignments`: the expired short ids and the delay until the next run. */
  datatype ExpireOutcome = ExpireOutcome(expired: seq<int>, delay: int)

  function Max(a: int, b: int): (m: int)
    ensures m >= a && m >= b && (m == a || m == b)
  {
    if a >= b then a else b
  }

  /**
   * `expire_old_assignments()` at time `now`: expire, then report the oldest remaining id's time to expiry
   * (at least `minInterval`) or, with an empty queue, 0 and an unscheduled alarm.
   */
  function Expire(p: Pool, ttl: int, now: int, minInterval: int): (r: (Pool, ExpireOutcome))
  {
    var (q, e) := ExpireLoop(p, ttl, now);
    if q.queue != [] then (q, ExpireOutcome(e, Max(q.queue[0].1 + ttl - now, minInterval)))
    else (q.(alarmScheduled := false), ExpireOutcome(e, 0))
  }

  /** The `for short_id in final_short_ids` loop: each id removed with its related ids, in order. */
  function RemoveAll(p: Pool, ids: seq<int>): (r: Pool)
  {
    if ids == [] then p else RemoveByShortId(RemoveAll(p, ids[..|ids| - 1]), ids[|ids| - 1], true)
  }

  /**
   * `track_seen_short_ids(block_hash, short_ids)`: record the block; once the window holds at least the final
   * confirmations count, pop the oldest block and remove its ids.
   */
  function Track(p: Pool, blockHash: Sha256Hash, ids: seq<int>): (r: Pool)
  {
    var window := Put(p.seenInBlock, blockHash, ids);
    if |window| >= p.finalConfirmations then RemoveAll(p.(seenInBlock := window[1..]), window[0].1)
    else p.(seenInBlock := window)
  }

  /** `on_block_cleaned_up(block_hash)`. */
  function BlockCleanedUp(p: Pool, blockHash: Sha256Hash): (r: Pool)
  {
    p.(seenInBlock := Without(p.seenInBlock, {blockHash}))
  }

  /** Under the invariant a short id is queued exactly when it resolves. */
  lemma QueuedIffResolvable(p: Pool, s: int)
    requires Inv(p)
    ensures HasKey(p.queue, s) <==> s in p.shortIdToHash
  {
    KeySetHasKey(p.queue, s);
  }

  /** `assign_short_id` keeps the invariant. */
  lemma InvAssign(p: Pool, h: Sha256Hash, s: int, now: int)
    requires Inv(p)
    ensures Inv(Assign(p, h, s, now))
  {
    if s != NULL_TX_SID {
      IndexedAssign(p.hashToShortIds, p.shortIdToHash, h, s);
      PutKeepsDistinct(p.queue, s, now);
      KeySetPut(p.queue, s, now);
    }
  }

  /**
   * The null id is ignored; any other id then resolves to the hash, is listed under it, is queued with time
   * `now` (appended when new, in place when re-assigned) and the alarm is scheduled; contents are untouched.
   */
  lemma AssignEffects(p: Pool, h: Sha256Hash, s: int, now: int)
    requires Inv(p)
    ensures s == NULL_TX_SID ==> Assign(p, h, s, now) == p
    ensures s != NULL_TX_SID ==>
      var r := Assign(p, h, s, now);
      && s in r.shortIdToHash && s in ShortIdsOf(r.hashToShortIds, h) && NULL_TX_SID !in ShortIdsOf(r.hashToShortIds, h)
      && Lookup(r.shortIdToHash, r.hashToContents, s).hash == Some(h)
      && Get(r.queue, s) == Some(now) && HasKey(r.queue, s)
      && |r.queue| == (if HasKey(p.queue, s) then |p.queue| else |p.queue| + 1)
      && r.alarmScheduled && r.alarmRegistrations == p.alarmRegistrations + (if p.alarmScheduled then 0 else 1)
      && r.hashToContents == p.hashToContents && r.totalContentsSize == p.totalContentsSize
      && r.seenInBlock == p.seenInBlock
  {
    if s != NULL_TX_SID {
      PutGet(p.queue, s, now, s);
    }
  }

  /** `remove_transaction_by_tx_hash` keeps the invariant. */
  lemma InvRemoveByHash(p: Pool, h: Sha256Hash)
    requires Inv(p)
    ensures Inv(RemoveByHash(p, h))
  {
    if h in p.hashToShortIds {
      IndexedDropHash(p.hashToShortIds, p.shortIdToHash, h);
      var q := p.(hashToShortIds := p.hashToShortIds - {h});
      DropShortIdsFacts(q, p.hashToShortIds[h]);
      DropContentsFacts(DropShortIds(q, p.hashToShortIds[h]), h);
    } else {
      DropContentsFacts(p, h);
    }
  }

  /**
   * `remove_transaction_by_tx_hash` returns the hash's ids, or `{NULL_TX_SID}` exactly when it had none; those
   * ids no longer resolve nor are queued, and the hash has neither an id set nor contents.
   */
  lemma RemoveByHashEffects(p: Pool, h: Sha256Hash)
    requires Inv(p)
    ensures RemovedByHash(p, h) == {NULL_TX_SID} <==> h !in p.hashToShortIds
    ensures RemoveByHash(p, h).hashToShortIds == p.hashToShortIds - {h}
    ensures RemoveByHash(p, h).hashToContents == p.hashToContents - {h}
    ensures RemoveByHash(p, h).shortIdToHash == p.shortIdToHash - RemovedByHash(p, h)
    ensures RemoveByHash(p, h).queue == Without(p.queue, RemovedByHash(p, h))
    ensures forall s :: s in RemovedByHash(p, h) ==> s !in RemoveByHash(p, h).shortIdToHash && !HasKey(RemoveByHash(p, h).queue, s)
    ensures RemoveByHash(p, h).seenInBlock == p.seenInBlock && RemoveByHash(p, h).removedByMemoryLimit == p.removedByMemoryLimit
    ensures RemoveByHash(p, h).alarmScheduled == p.alarmScheduled
  {
    if h in p.hashToShortIds {
      RemoveKnownHashEffects(p, h);
    } else {
      RemoveUnknownHashEffects(p, h);
    }
    InvRemoveByHash(p, h);
    var r := RemoveByHash(p, h);
    forall s | s in RemovedByHash(p, h) ensures s !in r.shortIdToHash && !HasKey(r.queue, s) {
      QueuedIffResolvable(r, s);
    }
  }

  /** A hash with ids: its set, ids, queue entries and contents go. */
  lemma RemoveKnownHashEffects(p: Pool, h: Sha256Hash)
    requires Indexed(p.hashToShortIds, p.shortIdToHash) && h in p.hashToShortIds
    ensures RemovedByHash(p, h) != {NULL_TX_SID}
    ensures var r := RemoveByHash(p, h);
      && r.hashToShortIds == p.hashToShortIds - {h}
      && r.hashToContents == p.hashToContents - {h}
      && r.shortIdToHash == p.shortIdToHash - RemovedByHash(p, h)
      && r.queue == Without(p.queue, RemovedByHash(p, h))
      && r.seenInBlock == p.seenInBlock && r.removedByMemoryLimit == p.removedByMemoryLimit
      && r.alarmScheduled == p.alarmScheduled
  {
    var q := DropShortIds(p.(hashToShortIds := p.hashToShortIds - {h}), p.hashToShortIds[h]);
    assert RemoveByHash(p, h) == DropContents(q, h);
    if h !in p.hashToContents {
      MapMinusAbsent(p.hashToContents, h);
    }
  }

  /** A hash without ids: only its contents (if any) go; the null id it reports was never assigned. */
  lemma RemoveUnknownHashEffects(p: Pool, h: Sha256Hash)
    requires Indexed(p.hashToShortIds, p.shortIdToHash) && KeySet(p.queue) == p.shortIdToHash.Keys
    requires h !in p.hashToShortIds
    ensures RemovedByHash(p, h) == {NULL_TX_SID}
    ensures var r := RemoveByHash(p, h);
      && r.hashToShortIds == p.hashToShortIds - {h}
      && r.hashToContents == p.hashToContents - {h}
      && r.shortIdToHash == p.shortIdToHash - RemovedByHash(p, h)
      && r.queue == Without(p.queue, RemovedByHash(p, h))
      && r.seenInBlock == p.seenInBlock && r.removedByMemoryLimit == p.removedByMemoryLimit
      && r.alarmScheduled == p.alarmScheduled
  {
    assert RemoveByHash(p, h) == DropContents(p, h);
    if h !in p.hashToContents {
      MapMinusAbsent(p.hashToContents, h);
    }
    MapMinusAbsent(p.hashToShortIds, h);
    MapMinusAbsent(p.shortIdToHash, NULL_TX_SID);
    KeySetHasKey(p.queue, NULL_TX_SID);
    assert forall i :: 0 <= i < |p.queue| ==> p.queue[i].0 !in {NULL_TX_SID};
    WithoutAbsent(p.queue, {NULL_TX_SID});
  }

  /** `remove_transaction_by_short_id` restores the invariant, whether or not the id was still queued. */
  lemma InvRemoveByShortId(p: Pool, s: int, related: bool)
    requires InvExcept(p, s)
    ensures Inv(RemoveByShortId(p, s, related))
  {
    if s in p.shortIdToHash {
      IndexedDropShortId(p.hashToShortIds, p.shortIdToHash, s);
      var sids := p.hashToShortIds[p.shortIdToHash[s]];
      if |sids| == 1 || related {
        InvRemoveWithRelated(p, s, related);
      } else {
        InvRemoveOnlyShortId(p, s, related);
      }
    } else {
      InvRemoveQueued(p, s, p);
    }
  }

  /** The common last step: with the invariant holding except at `s` and `s` not resolvable, unqueue `s`. */
  lemma InvRemoveQueued(p: Pool, s: int, q: Pool)
    requires InvExcept(q, s) && s !in q.shortIdToHash
    ensures Inv(q.(queue := Without(q.queue, {s})))
  {
    WithoutKeepsDistinct(q.queue, {s});
    KeySetWithout(q.queue, {s});
  }

  lemma InvRemoveWithRelated(p: Pool, s: int, related: bool)
    requires InvExcept(p, s) && s in p.shortIdToHash
    requires var key := p.shortIdToHash[s]; key in p.hashToShortIds && (|p.hashToShortIds[key]| == 1 || related)
    ensures Inv(RemoveByShortId(p, s, related))
  {
    DropRelatedIndexed(p, s);
    DropRelatedTotal(p, s);
    DropRelatedQueue(p, s);
    InvRemoveQueued(p, s, DropRelated(p, s));
  }

  lemma DropRelatedIndexed(p: Pool, s: int)
    requires InvExcept(p, s) && s in p.shortIdToHash
    ensures p.shortIdToHash[s] in p.hashToShortIds
    ensures Indexed(DropRelated(p, s).hashToShortIds, DropRelated(p, s).shortIdToHash)
    ensures DropRelated(p, s).shortIdToHash == p.shortIdToHash - p.hashToShortIds[p.shortIdToHash[s]]
  {
    IndexedDropShortId(p.hashToShortIds, p.shortIdToHash, s);
    var sids := p.hashToShortIds[p.shortIdToHash[s]];
    MapMinusUnion(p.shortIdToHash, {s}, sids - {s});
    assert {s} + (sids - {s}) == sids;
  }

  lemma DropRelatedTotal(p: Pool, s: int)
    requires InvExcept(p, s) && s in p.shortIdToHash && p.shortIdToHash[s] in p.hashToShortIds
    ensures DropRelated(p, s).totalContentsSize == TotalLength(DropRelated(p, s).hashToContents)
  {
    var key := p.shortIdToHash[s];
    var p0 := p.(shortIdToHash := p.shortIdToHash - {s});
    DropContentsFacts(DropShortIds(p0, p.hashToShortIds[key] - {s}), key);
  }

  lemma DropRelatedQueue(p: Pool, s: int)
    requires InvExcept(p, s) && s in p.shortIdToHash && p.shortIdToHash[s] in p.hashToShortIds
    ensures DistinctKeys(DropRelated(p, s).queue)
    ensures KeySet(DropRelated(p, s).queue) - {s} == DropRelated(p, s).shortIdToHash.Keys - {s}
  {
    var others := p.hashToShortIds[p.shortIdToHash[s]] - {s};
    QueueMinusIds(p.queue, p.shortIdToHash, s, others);
  }

  /** Forgetting the same ids on both sides of "queue keys == id map keys, except `s`" keeps it. */
  lemma QueueMinusIds(queue: seq<(int, int)>, s2h: map<int, Sha256Hash>, s: int, ids: set<int>)
    requires DistinctKeys(queue) && KeySet(queue) - {s} == s2h.Keys - {s}
    ensures DistinctKeys(Without(queue, ids))
    ensures KeySet(Without(queue, ids)) - {s} == (s2h - {s} - ids).Keys - {s}
  {
    KeySetWithout(queue, ids);
    WithoutKeepsDistinct(queue, ids);
    assert (s2h - {s} - ids).Keys == s2h.Keys - {s} - ids;
  }

  lemma InvRemoveOnlyShortId(p: Pool, s: int, related: bool)
    requires InvExcept(p, s) && s in p.shortIdToHash
    requires var key := p.shortIdToHash[s]; key in p.hashToShortIds && !(|p.hashToShortIds[key]| == 1 || related)
    ensures Inv(RemoveByShortId(p, s, related))
  {
    IndexedDropShortId(p.hashToShortIds, p.shortIdToHash, s);
    assert InvExcept(DropOne(p, s), s);
    InvRemoveQueued(p, s, DropOne(p, s));
  }

  /**
   * The two outcomes of `remove_transaction_by_short_id`: with a singleton id set, or with related ids to go,
   * every id of the hash and the hash itself go (set, contents, queue entries); otherwise only this id goes.
   * An unknown id only leaves the queue. Either way the id neither resolves nor is queued afterwards.
   */
  lemma RemoveByShortIdEffects(p: Pool, s: int, related: bool)
    requires InvExcept(p, s)
    ensures s !in RemoveByShortId(p, s, related).shortIdToHash && !HasKey(RemoveByShortId(p, s, related).queue, s)
    ensures !related ==> RemoveByShortId(p, s, related).queue == Without(p.queue, {s})
    ensures s in p.shortIdToHash ==>
      var key := p.shortIdToHash[s];
      && key in p.hashToShortIds && s in p.hashToShortIds[key]
      && var sids := p.hashToShortIds[key]; var r := RemoveByShortId(p, s, related);
         if |sids| == 1 || related then
           && r.shortIdToHash == p.shortIdToHash - sids
           && r.hashToShortIds == p.hashToShortIds - {key}
           && r.hashToContents == p.hashToContents - {key}
           && r.queue == Without(p.queue, sids)
         else
           && r.shortIdToHash == p.shortIdToHash - {s}
           && r.hashToShortIds == p.hashToShortIds[key := sids - {s}]
           && r.hashToContents == p.hashToContents
           && r.queue == Without(p.queue, {s})
    ensures s !in p.shortIdToHash ==> RemoveByShortId(p, s, related) == p.(queue := Without(p.queue, {s}))
  {
    RemoveByShortIdShrinksMaps(p, s, related);
    RemoveByShortIdShrinksQueue(p, s, related);
    KeySetHasKey(RemoveByShortId(p, s, related).queue, s);
    if s in p.shortIdToHash {
      IndexedDropShortId(p.hashToShortIds, p.shortIdToHash, s);
      var sids := p.hashToShortIds[p.shortIdToHash[s]];
      if |sids| == 1 || related {
        RelatedEffects(p, s);
      }
    }
  }

  /** The branch that drops the whole transaction, with the final unqueueing of the id. */
  lemma RelatedEffects(p: Pool, s: int)
    requires InvExcept(p, s) && s in p.shortIdToHash
    ensures p.shortIdToHash[s] in p.hashToShortIds
    ensures var key := p.shortIdToHash[s]; var sids := p.hashToShortIds[key];
      var d := DropRelated(p, s); var r := d.(queue := Without(d.queue, {s}));
      && r.shortIdToHash == p.shortIdToHash - sids
      && r.hashToShortIds == p.hashToShortIds - {key}
      && r.hashToContents == p.hashToContents - {key}
      && r.queue == Without(p.queue, sids)
  {
    DropRelatedIndexed(p, s);
    RelatedContents(p, s);
    RelatedQueue(p, s);
  }

  lemma RelatedContents(p: Pool, s: int)
    requires s in p.shortIdToHash && p.shortIdToHash[s] in p.hashToShortIds
    ensures DropRelated(p, s).hashToContents == p.hashToContents - {p.shortIdToHash[s]}
  {
    if p.shortIdToHash[s] !in p.hashToContents {
      MapMinusAbsent(p.hashToContents, p.shortIdToHash[s]);
    }
  }

  lemma RelatedQueue(p: Pool, s: int)
    requires s in p.shortIdToHash && p.shortIdToHash[s] in p.hashToShortIds
    requires s in p.hashToShortIds[p.shortIdToHash[s]]
    ensures var d := DropRelated(p, s); Without(d.queue, {s}) == Without(p.queue, p.hashToShortIds[p.shortIdToHash[s]])
  {
    var sids := p.hashToShortIds[p.shortIdToHash[s]];
    WithoutWithout(p.queue, sids - {s}, {s});
    assert (sids - {s}) + {s} == sids;
  }

  /** Popping the oldest queue entry leaves the invariant broken only at that id, which is then absent. */
  lemma PopOldest(p: Pool)
    requires Inv(p) && p.queue != []
    ensures InvExcept(p.(queue := p.queue[1..]), p.queue[0].0)
    ensures Without(p.queue[1..], {p.queue[0].0}) == p.queue[1..]
  {
    TailKeySet(p.queue);
    assert forall i :: 0 <= i < |p.queue[1..]| ==> p.queue[1..][i].0 !in {p.queue[0].0} by {
      forall i | 0 <= i < |p.queue[1..]| ensures p.queue[1..][i].0 != p.queue[0].0 {
        assert p.queue[i + 1].0 != p.queue[0].0;
      }
    }
    WithoutAbsent(p.queue[1..], {p.queue[0].0});
  }

  /** One round of the eviction and expiry loops: pop the oldest id and remove it without its related ids. */
  lemma PopAndRemove(p: Pool)
    requires Inv(p) && p.queue != []
    ensures var r := RemoveByShortId(p.(queue := p.queue[1..]), p.queue[0].0, false);
      && Inv(r) && r.queue == p.queue[1..] && p.queue[0].0 !in r.shortIdToHash
  {
    var popped := p.(queue := p.queue[1..]);
    PopOldest(p);
    InvRemoveByShortId(popped, p.queue[0].0, false);
    RemoveByShortIdEffects(popped, p.queue[0].0, false);
  }

  /**
   * The eviction loop pops a prefix of the queue, oldest first, and stops within the limit or with an empty
   * queue; it does nothing when already within the limit.
   */
  lemma EvictFacts(p: Pool, limit: int)
    requires Inv(p)
    ensures var (r, n) := Evict(p, limit);
      && Inv(r) && n <= |p.queue| && r.queue == p.queue[n..]
      && (r.totalContentsSize <= limit || r.queue == [])
      && (p.totalContentsSize <= limit ==> r == p && n == 0)
      && r.shortIdToHash.Keys <= p.shortIdToHash.Keys
      && r.seenInBlock == p.seenInBlock && r.removedByMemoryLimit == p.removedByMemoryLimit
      && r.alarmScheduled == p.alarmScheduled && r.alarmRegistrations == p.alarmRegistrations
      && r.finalConfirmations == p.finalConfirmations
  {
    EvictKeepsInv(p, limit);
    EvictStops(p, limit);
    EvictKeepsRest(p, limit);
  }

  /** Each round pops the queue's head, so the loop leaves a suffix of the queue, with the invariant. */
  lemma {:induction false} EvictKeepsInv(p: Pool, limit: int)
    requires Inv(p)
    ensures Inv(Evict(p, limit).0) && Evict(p, limit).1 <= |p.queue|
    ensures Evict(p, limit).0.queue == p.queue[Evict(p, limit).1..]
    decreases |p.queue|
  {
    if p.totalContentsSize > limit && p.queue != [] {
      PopAndRemove(p);
      var next := RemoveByShortId(p.(queue := p.queue[1..]), p.queue[0].0, false);
      EvictKeepsInv(next, limit);
    }
  }

  /** The loop ends within the limit or with an empty queue, and does nothing when already within it. */
  lemma {:induction false} EvictStops(p: Pool, limit: int)
    ensures Evict(p, limit).0.totalContentsSize <= limit || Evict(p, limit).0.queue == []
    ensures p.totalContentsSize <= limit ==> Evict(p, limit) == (p, 0)
    decreases |p.queue|
  {
    if p.totalContentsSize > limit && p.queue != [] {
      RemoveByShortIdShrinksQueue(p.(queue := p.queue[1..]), p.queue[0].0, false);
      EvictStops(RemoveByShortId(p.(queue := p.queue[1..]), p.queue[0].0, false), limit);
    }
  }

  /** The loop only forgets short ids; the block window, counters, alarm and confirmations count stay. */
  lemma {:induction false} EvictKeepsRest(p: Pool, limit: int)
    ensures var r := Evict(p, limit).0;
      && r.shortIdToHash.Keys <= p.shortIdToHash.Keys
      && r.seenInBlock == p.seenInBlock && r.removedByMemoryLimit == p.removedByMemoryLimit
      && r.alarmScheduled == p.alarmScheduled && r.alarmRegistrations == p.alarmRegistrations
      && r.finalConfirmations == p.finalConfirmations
    decreases |p.queue|
  {
    if p.totalContentsSize > limit && p.queue != [] {
      RemoveByShortIdShrinksQueue(p.(queue := p.queue[1..]), p.queue[0].0, false);
      RemoveByShortIdShrinksMaps(p.(queue := p.queue[1..]), p.queue[0].0, false);
      RemoveByShortIdKeepsRest(p.(queue := p.queue[1..]), p.queue[0].0, false);
      EvictKeepsRest(RemoveByShortId(p.(queue := p.queue[1..]), p.queue[0].0, false), limit);
    }
  }

  /**
   * After `_memory_limit_clean_up` the total is within the limit, unless the pool was cleared (no contents, total
   * 0); within the limit nothing changes. Over the limit, the removed counter grows by the number of evicted
   * short ids, plus, when the pool had to be cleared, the number of contents entries left at that point.
   */
  lemma MemoryCleanUpFacts(p: Pool, limit: int)
    requires Inv(p)
    ensures var r := MemoryCleanUp(p, limit);
      && Inv(r)
      && (r.totalContentsSize <= limit || (r.hashToContents == map[] && r.totalContentsSize == 0))
      && (p.totalContentsSize <= limit ==> r == p)
      && r.removedByMemoryLimit >= p.removedByMemoryLimit
      && r.shortIdToHash.Keys <= p.shortIdToHash.Keys
      && r.alarmScheduled == p.alarmScheduled && r.alarmRegistrations == p.alarmRegistrations
      && r.finalConfirmations == p.finalConfirmations
    ensures var r := MemoryCleanUp(p, limit); var e := Evict(p, limit).0;
      && |r.queue| <= |p.queue|
      && (p.totalContentsSize > limit && e.totalContentsSize <= limit ==>
            r.hashToContents == e.hashToContents
            && r.removedByMemoryLimit == p.removedByMemoryLimit + (|p.queue| - |r.queue|))
      && (p.totalContentsSize > limit && e.totalContentsSize > limit ==>
            r.queue == [] && r.hashToContents == map[] && r.shortIdToHash == map[] && r.seenInBlock == []
            && r.removedByMemoryLimit == p.removedByMemoryLimit + |p.queue| + |e.hashToContents|)
  {
    MemoryCleanUpKeepsInv(p, limit);
    MemoryCleanUpBound(p, limit);
    MemoryCleanUpKeepsRest(p, limit);
    EvictKeepsInv(p, limit);
  }

  lemma MemoryCleanUpKeepsInv(p: Pool, limit: int)
    requires Inv(p)
    ensures Inv(MemoryCleanUp(p, limit))
  {
    EvictKeepsInv(p, limit);
  }

  /**
   * The outcome of the clean-up and its counter: over the limit, the eviction loop's pops are counted, and a
   * clearing (still over the limit with an empty queue) adds the contents entries it drops.
   */
  lemma MemoryCleanUpBound(p: Pool, limit: int)
    ensures var r := MemoryCleanUp(p, limit);
      && (r.totalContentsSize <= limit || (r.hashToContents == map[] && r.totalContentsSize == 0))
      && (p.totalContentsSize <= limit ==> r == p)
      && r.removedByMemoryLimit >= p.removedByMemoryLimit
    ensures var r := MemoryCleanUp(p, limit); var (e, n) := Evict(p, limit);
      && (p.totalContentsSize > limit && e.totalContentsSize <= limit ==>
            r == e.(removedByMemoryLimit := p.removedByMemoryLimit + n))
      && (p.totalContentsSize > limit && e.totalContentsSize > limit ==>
            e.queue == [] && r.queue == [] && r.hashToContents == map[] && r.totalContentsSize == 0
            && r.removedByMemoryLimit == p.removedByMemoryLimit + n + |e.hashToContents|)
  {
    EvictStops(p, limit);
    EvictKeepsRest(p, limit);
  }

  lemma MemoryCleanUpKeepsRest(p: Pool, limit: int)
    ensures var r := MemoryCleanUp(p, limit);
      && r.shortIdToHash.Keys <= p.shortIdToHash.Keys
      && r.alarmScheduled == p.alarmScheduled && r.alarmRegistrations == p.alarmRegistrations
      && r.finalConfirmations == p.finalConfirmations
  {
    EvictKeepsRest(p, limit);
  }

  /** Storing contents keeps the invariant: the running total follows the map. */
  lemma InvStoreContents(p: Pool, h: Sha256Hash, contents: seq<byte>)
    requires Inv(p)
    ensures Inv(StoreContents(p, h, contents))
    ensures StoreContents(p, h, contents).totalContentsSize == TotalLength(p.hashToContents[h := contents])
  {
    TotalLengthPut(p.hashToContents, h, contents);
  }

  /**
   * `set_transaction_contents` keeps the invariant and ends within a non-negative limit; when the new contents fit,
   * they are stored and nothing is evicted. Otherwise the removed counter grows by the evicted short ids, plus the
   * remaining contents entries when the pool had to be cleared.
   */
  lemma SetContentsFacts(p: Pool, h: Sha256Hash, contents: seq<byte>, limit: int)
    requires Inv(p)
    ensures var r := SetContents(p, h, contents, limit);
      && Inv(r)
      && (r.totalContentsSize <= limit || (r.hashToContents == map[] && r.totalContentsSize == 0))
      && (limit >= 0 ==> r.totalContentsSize <= limit)
      && (TotalLength(p.hashToContents[h := contents]) <= limit ==>
            r.hashToContents == p.hashToContents[h := contents] && r.shortIdToHash == p.shortIdToHash
            && r.removedByMemoryLimit == p.removedByMemoryLimit)
      && r.removedByMemoryLimit >= p.removedByMemoryLimit
      && r.shortIdToHash.Keys <= p.shortIdToHash.Keys
      && r.alarmScheduled == p.alarmScheduled && r.finalConfirmations == p.finalConfirmations
    ensures var r := SetContents(p, h, contents, limit); var e := Evict(StoreContents(p, h, contents), limit).0;
      && (TotalLength(p.hashToContents[h := contents]) > limit && e.totalContentsSize <= limit ==>
            r.removedByMemoryLimit == p.removedByMemoryLimit + (|p.queue| - |r.queue|))
      && (TotalLength(p.hashToContents[h := contents]) > limit && e.totalContentsSize > limit ==>
            r.queue == [] && r.hashToContents == map[] && r.shortIdToHash == map[]
            && r.removedByMemoryLimit == p.removedByMemoryLimit + |p.queue| + |e.hashToContents|)
  {
    InvStoreContents(p, h, contents);
    MemoryCleanUpFacts(StoreContents(p, h, contents), limit);
  }

  /** A prefix of a sequence is its head followed by a prefix of its tail. */
  lemma PrefixOfTail<T>(a: seq<T>, tail: seq<T>, n: nat)
    requires a != [] && tail == a[1..] && n <= |tail|
    ensures a[..n + 1] == [a[0]] + tail[..n]
  {
  }

  lemma KeysCons<K, V>(x: (K, V), s: seq<(K, V)>)
    ensures Keys([x] + s) == [x.0] + Keys(s)
  {
    assert ([x] + s)[1..] == s;
  }

  /**
   * `remove_expired` with the removal callback pops exactly the expired prefix of the queue: the popped ids are
   * its keys in order, each older than the time to live, none resolves afterwards, and the remaining oldest
   * entry (if any) is not expired.
   */
  lemma ExpireLoopFacts(p: Pool, ttl: int, now: int)
    requires Inv(p)
    ensures var (r, e) := ExpireLoop(p, ttl, now);
      && Inv(r) && |e| <= |p.queue|
      && r.queue == p.queue[|e|..]
      && e == Keys(p.queue[..|e|])
      && (forall i :: 0 <= i < |e| ==> now - p.queue[i].1 > ttl)
      && (r.queue == [] || now - r.queue[0].1 <= ttl)
      && (forall i :: 0 <= i < |e| ==> e[i] !in r.shortIdToHash)
      && r.shortIdToHash.Keys <= p.shortIdToHash.Keys
      && r.seenInBlock == p.seenInBlock && r.removedByMemoryLimit == p.removedByMemoryLimit
      && r.alarmScheduled == p.alarmScheduled && r.alarmRegistrations == p.alarmRegistrations
      && r.finalConfirmations == p.finalConfirmations
  {
    ExpireLoopKeepsInv(p, ttl, now);
    ExpireLoopPopped(p, ttl, now);
    ExpireLoopExpired(p, ttl, now);
    ExpireLoopStops(p, ttl, now);
    ExpireLoopForgets(p, ttl, now);
    ExpireLoopKeepsRest(p, ttl, now);
  }

  /** Each round pops the queue's head, so the loop leaves a suffix of the queue, with the invariant. */
  lemma {:induction false} ExpireLoopKeepsInv(p: Pool, ttl: int, now: int)
    requires Inv(p)
    ensures Inv(ExpireLoop(p, ttl, now).0) && |ExpireLoop(p, ttl, now).1| <= |p.queue|
    ensures ExpireLoop(p, ttl, now).0.queue == p.queue[|ExpireLoop(p, ttl, now).1|..]
    decreases |p.queue|
  {
    if p.queue != [] && now - p.queue[0].1 > ttl {
      PopAndRemove(p);
      ExpireLoopKeepsInv(RemoveByShortId(p.(queue := p.queue[1..]), p.queue[0].0, false), ttl, now);
    }
  }

  /** The popped ids are the keys of the queue's prefix, in order. */
  lemma {:induction false} ExpireLoopPopped(p: Pool, ttl: int, now: int)
    requires Inv(p)
    ensures var e := ExpireLoop(p, ttl, now).1; |e| <= |p.queue| && e == Keys(p.queue[..|e|])
    decreases |p.queue|
  {
    if p.queue != [] && now - p.queue[0].1 > ttl {
      PopAndRemove(p);
      var next := RemoveByShortId(p.(queue := p.queue[1..]), p.queue[0].0, false);
      ExpireLoopPopped(next, ttl, now);
      var e := ExpireLoop(next, ttl, now).1;
      PrefixOfTail(p.queue, next.queue, |e|);
      KeysCons(p.queue[0], next.queue[..|e|]);
    }
  }

  /** Each popped entry had expired. */
  lemma {:induction false} ExpireLoopExpired(p: Pool, ttl: int, now: int)
    requires Inv(p)
    ensures var e := ExpireLoop(p, ttl, now).1; forall i :: 0 <= i < |e| && i < |p.queue| ==> now - p.queue[i].1 > ttl
    decreases |p.queue|
  {
    if p.queue != [] && now - p.queue[0].1 > ttl {
      PopAndRemove(p);
      var next := RemoveByShortId(p.(queue := p.queue[1..]), p.queue[0].0, false);
      ExpireLoopExpired(next, ttl, now);
      var e := ExpireLoop(next, ttl, now).1;
      forall i | 1 <= i < |e| + 1 && i < |p.queue| ensures now - p.queue[i].1 > ttl {
        assert p.queue[i] == next.queue[i - 1];
      }
    }
  }

  /** The loop stops at an empty queue or an unexpired head. */
  lemma {:induction false} ExpireLoopStops(p: Pool, ttl: int, now: int)
    ensures ExpireLoop(p, ttl, now).0.queue == [] || now - ExpireLoop(p, ttl, now).0.queue[0].1 <= ttl
    decreases |p.queue|
  {
    if p.queue != [] && now - p.queue[0].1 > ttl {
      RemoveByShortIdShrinksQueue(p.(queue := p.queue[1..]), p.queue[0].0, false);
      ExpireLoopStops(RemoveByShortId(p.(queue := p.queue[1..]), p.queue[0].0, false), ttl, now);
    }
  }

  /** No popped id resolves afterwards. */
  lemma {:induction false} ExpireLoopForgets(p: Pool, ttl: int, now: int)
    requires Inv(p)
    ensures var (r, e) := ExpireLoop(p, ttl, now); forall i :: 0 <= i < |e| ==> e[i] !in r.shortIdToHash
    decreases |p.queue|
  {
    if p.queue != [] && now - p.queue[0].1 > ttl {
      PopAndRemove(p);
      var next := RemoveByShortId(p.(queue := p.queue[1..]), p.queue[0].0, false);
      ExpireLoopForgets(next, ttl, now);
      ExpireLoopKeepsRest(next, ttl, now);
    }
  }

  /** The loop only forgets short ids; the block window, counters, alarm and confirmations count stay. */
  lemma {:induction false} ExpireLoopKeepsRest(p: Pool, ttl: int, now: int)
    ensures var r := ExpireLoop(p, ttl, now).0;
      && r.shortIdToHash.Keys <= p.shortIdToHash.Keys
      && r.seenInBlock == p.seenInBlock && r.removedByMemoryLimit == p.removedByMemoryLimit
      && r.alarmScheduled == p.alarmScheduled && r.alarmRegistrations == p.alarmRegistrations
      && r.finalConfirmations == p.finalConfirmations
    decreases |p.queue|
  {
    if p.queue != [] && now - p.queue[0].1 > ttl {
      RemoveByShortIdShrinksQueue(p.(queue := p.queue[1..]), p.queue[0].0, false);
      RemoveByShortIdShrinksMaps(p.(queue := p.queue[1..]), p.queue[0].0, false);
      RemoveByShortIdKeepsRest(p.(queue := p.queue[1..]), p.queue[0].0, false);
      ExpireLoopKeepsRest(RemoveByShortId(p.(queue := p.queue[1..]), p.queue[0].0, false), ttl, now);
    }
  }

  /**
   * `expire_old_assignments`: the expiry facts above, plus the reported delay: with ids left, at least the minimum
   * interval and at least the oldest id's remaining time to live, and one of the two; with none left, 0 and the
   * alarm no longer scheduled.
   */
  lemma ExpireFacts(p: Pool, ttl: int, now: int, minInterval: int)
    requires Inv(p)
    ensures var (r, out) := Expire(p, ttl, now, minInterval);
      && Inv(r)
      && |out.expired| <= |p.queue|
      && r.queue == p.queue[|out.expired|..]
      && out.expired == Keys(p.queue[..|out.expired|])
      && (forall i :: 0 <= i < |out.expired| ==> now - p.queue[i].1 > ttl && out.expired[i] !in r.shortIdToHash)
      && (r.queue == [] || now - r.queue[0].1 <= ttl)
      && (r.queue != [] ==>
            && out.delay >= minInterval && out.delay >= r.queue[0].1 + ttl - now
            && (out.delay == minInterval || out.delay == r.queue[0].1 + ttl - now)
            && r.alarmScheduled == p.alarmScheduled)
      && (r.queue == [] ==> out.delay == 0 && !r.alarmScheduled)
      && r.shortIdToHash.Keys <= p.shortIdToHash.Keys
      && r.seenInBlock == p.seenInBlock && r.alarmRegistrations == p.alarmRegistrations
  {
    ExpireLoopFacts(p, ttl, now);
  }

  /** Removing a list of ids with their related ids keeps the invariant, and none of the ids resolves after. */
  lemma {:induction false} RemoveAllFacts(p: Pool, ids: seq<int>)
    requires Inv(p)
    ensures var r := RemoveAll(p, ids);
      && Inv(r)
      && (forall s :: s in ids ==> s !in r.shortIdToHash)
      && r.shortIdToHash.Keys <= p.shortIdToHash.Keys && r.hashToContents.Keys <= p.hashToContents.Keys
      && r.seenInBlock == p.seenInBlock && r.removedByMemoryLimit == p.removedByMemoryLimit
      && r.alarmScheduled == p.alarmScheduled && r.alarmRegistrations == p.alarmRegistrations
      && r.finalConfirmations == p.finalConfirmations
    decreases |ids|
  {
    if ids != [] {
      var init := ids[..|ids| - 1];
      RemoveAllFacts(p, init);
      var q := RemoveAll(p, init);
      var s := ids[|ids| - 1];
      InvRemoveByShortId(q, s, true);
      RemoveByShortIdShrinksMaps(q, s, true);
      RemoveByShortIdKeepsRest(q, s, true);
      forall t | t in ids ensures t !in RemoveAll(p, ids).shortIdToHash {
        if t != s {
          assert t in init;
        }
      }
    }
  }

  /**
   * The converse of the index: every id listed under a hash resolves to that hash. `Inv` does not imply it, since
   * `assign_short_id` of an id already assigned elsewhere leaves the id listed under its old hash as well.
   */
  ghost predicate TwoWay(h2s: map<Sha256Hash, set<int>>, s2h: map<int, Sha256Hash>)
  {
    forall h, t :: h in h2s && t in h2s[h] ==> t in s2h && s2h[t] == h
  }

  /** Dropping a hash together with all its listed ids keeps the converse of the index. */
  lemma TwoWayDropHash(h2s: map<Sha256Hash, set<int>>, s2h: map<int, Sha256Hash>, key: Sha256Hash)
    requires TwoWay(h2s, s2h) && key in h2s
    ensures TwoWay(h2s - {key}, s2h - h2s[key])
  {
    forall h, t | h in h2s - {key} && t in (h2s - {key})[h] ensures t in s2h - h2s[key] && (s2h - h2s[key])[t] == h {
      assert t in s2h && s2h[t] == h;
    }
  }

  /**
   * `r` keeps a part of `p`'s maps with the same values, and a hash whose id set went also lost its contents.
   */
  ghost predicate Shrunk(p: Pool, r: Pool)
  {
    && (forall t :: t in r.shortIdToHash ==> t in p.shortIdToHash && r.shortIdToHash[t] == p.shortIdToHash[t])
    && (forall h :: h in r.hashToShortIds ==> h in p.hashToShortIds && r.hashToShortIds[h] == p.hashToShortIds[h])
    && (forall h :: h in r.hashToContents ==> h in p.hashToContents && r.hashToContents[h] == p.hashToContents[h])
    && (forall h :: h in p.hashToShortIds && h !in r.hashToShortIds ==> h !in r.hashToContents)
  }

  /** The transaction that `s` resolved to in `p` has neither an id set nor contents in `r`. */
  ghost predicate Forgotten(p: Pool, r: Pool, s: int)
  {
    s in p.shortIdToHash ==> p.shortIdToHash[s] !in r.hashToShortIds && p.shortIdToHash[s] !in r.hashToContents
  }

  lemma ShrunkTrans(a: Pool, b: Pool, c: Pool)
    requires Shrunk(a, b) && Shrunk(b, c)
    ensures Shrunk(a, c)
  {
    forall h | h in a.hashToShortIds && h !in c.hashToShortIds ensures h !in c.hashToContents {
      if h in b.hashToShortIds {
        assert h !in c.hashToContents;
      } else {
        assert h !in b.hashToContents;
      }
    }
  }

  /** One removal with related ids: the converse index is kept, and the id's transaction goes. */
  lemma RemoveRelatedStep(q: Pool, s: int)
    requires Inv(q) && TwoWay(q.hashToShortIds, q.shortIdToHash)
    ensures var r := RemoveByShortId(q, s, true);
      TwoWay(r.hashToShortIds, r.shortIdToHash) && Shrunk(q, r) && Forgotten(q, r, s)
  {
    RemoveByShortIdEffects(q, s, true);
    if s in q.shortIdToHash {
      TwoWayDropHash(q.hashToShortIds, q.shortIdToHash, q.shortIdToHash[s]);
    }
  }

  /** An id that no longer resolves had its transaction dropped as a whole, given the converse index. */
  lemma UnresolvedForgotten(p: Pool, q: Pool, s: int)
    requires Inv(p) && Shrunk(p, q) && TwoWay(q.hashToShortIds, q.shortIdToHash)
    requires s in p.shortIdToHash && s !in q.shortIdToHash
    ensures Forgotten(p, q, s)
  {
    var h := p.shortIdToHash[s];
    assert h in p.hashToShortIds && s in p.hashToShortIds[h];
  }

  /** The facts `RemoveAllForgetsTransactions` states, as predicates for the induction. */
  lemma {:induction false} RemoveAllShrinks(p: Pool, ids: seq<int>)
    requires Inv(p) && TwoWay(p.hashToShortIds, p.shortIdToHash)
    ensures var r := RemoveAll(p, ids);
      && TwoWay(r.hashToShortIds, r.shortIdToHash) && Shrunk(p, r)
      && (forall s :: s in ids ==> Forgotten(p, r, s))
    decreases |ids|
  {
    if ids == [] {
    } else {
      var init := ids[..|ids| - 1];
      var s := ids[|ids| - 1];
      RemoveAllShrinks(p, init);
      RemoveAllFacts(p, init);
      var q := RemoveAll(p, init);
      var r := RemoveByShortId(q, s, true);
      RemoveRelatedStep(q, s);
      ShrunkTrans(p, q, r);
      if s in p.shortIdToHash {
        if s in q.shortIdToHash {
          assert Forgotten(q, r, s);
        } else {
          UnresolvedForgotten(p, q, s);
        }
      }
      forall u | u in ids ensures Forgotten(p, r, u) {
        if u != s {
          assert u in init;
          assert Forgotten(p, q, u);
        }
      }
    }
  }

  /**
   * Removing a list of ids with their related ids, when every listed id resolves to the hash listing it: each
   * resolvable id's whole transaction goes, that is its hash's id set, its contents and every id resolving to
   * the same hash. What is left is a part of the old maps with the same values.
   */
  lemma RemoveAllForgetsTransactions(p: Pool, ids: seq<int>)
    requires Inv(p) && TwoWay(p.hashToShortIds, p.shortIdToHash)
    ensures var r := RemoveAll(p, ids);
      && TwoWay(r.hashToShortIds, r.shortIdToHash)
      && (forall t :: t in r.shortIdToHash ==> t in p.shortIdToHash && r.shortIdToHash[t] == p.shortIdToHash[t])
      && (forall h :: h in r.hashToContents ==> h in p.hashToContents && r.hashToContents[h] == p.hashToContents[h])
      && (forall s :: s in ids && s in p.shortIdToHash ==>
            p.shortIdToHash[s] !in r.hashToShortIds && p.shortIdToHash[s] !in r.hashToContents)
      && (forall s, t :: (s in ids && s in p.shortIdToHash && t in p.shortIdToHash
            && p.shortIdToHash[t] == p.shortIdToHash[s]) ==> t !in r.shortIdToHash)
  {
    RemoveAllShrinks(p, ids);
    RemoveAllFacts(p, ids);
    var r := RemoveAll(p, ids);
    forall s | s in ids && s in p.shortIdToHash
      ensures p.shortIdToHash[s] !in r.hashToShortIds && p.shortIdToHash[s] !in r.hashToContents
    {
      assert Forgotten(p, r, s);
    }
    forall s, t | s in ids && s in p.shortIdToHash && t in p.shortIdToHash && p.shortIdToHash[t] == p.shortIdToHash[s]
      ensures t !in r.shortIdToHash
    {
      assert Forgotten(p, r, s);
    }
  }

  /**
   * `track_seen_short_ids` removes the whole transaction of every resolvable id of the popped block, when every
   * listed id resolves to the hash listing it: the hash's id set and contents go, and so does every id resolving
   * to it.
   */
  lemma TrackForgetsTransactions(p: Pool, blockHash: Sha256Hash, ids: seq<int>)
    requires Inv(p) && TwoWay(p.hashToShortIds, p.shortIdToHash)
    ensures var r := Track(p, blockHash, ids); var window := Put(p.seenInBlock, blockHash, ids);
      |window| >= p.finalConfirmations ==>
        && (forall s :: s in window[0].1 && s in p.shortIdToHash ==>
              p.shortIdToHash[s] !in r.hashToShortIds && p.shortIdToHash[s] !in r.hashToContents)
        && (forall s, t :: (s in window[0].1 && s in p.shortIdToHash && t in p.shortIdToHash
              && p.shortIdToHash[t] == p.shortIdToHash[s]) ==> t !in r.shortIdToHash)
  {
    var window := Put(p.seenInBlock, blockHash, ids);
    if |window| >= p.finalConfirmations {
      PutKeepsDistinct(p.seenInBlock, blockHash, ids);
      TailKeySet(window);
      RemoveAllForgetsTransactions(p.(seenInBlock := window[1..]), window[0].1);
    }
  }

  /**
   * `track_seen_short_ids` keeps the invariant. Once the window reaches the final confirmations count its oldest
   * block leaves it and none of that block's ids resolves; below the count only the window changes. A window
   * kept below the count stays below it.
   */
  lemma TrackFacts(p: Pool, blockHash: Sha256Hash, ids: seq<int>)
    requires Inv(p)
    ensures var r := Track(p, blockHash, ids); var window := Put(p.seenInBlock, blockHash, ids);
      && Inv(r)
      && r.seenInBlock == (if |window| >= p.finalConfirmations then window[1..] else window)
      && (|window| >= p.finalConfirmations ==> forall s :: s in window[0].1 ==> s !in r.shortIdToHash)
      && (|window| < p.finalConfirmations ==> r == p.(seenInBlock := window))
      && (|p.seenInBlock| < p.finalConfirmations ==> |r.seenInBlock| < p.finalConfirmations)
      && r.shortIdToHash.Keys <= p.shortIdToHash.Keys && r.hashToContents.Keys <= p.hashToContents.Keys
      && r.removedByMemoryLimit == p.removedByMemoryLimit && r.alarmScheduled == p.alarmScheduled
      && r.finalConfirmations == p.finalConfirmations
  {
    var window := Put(p.seenInBlock, blockHash, ids);
    PutKeepsDistinct(p.seenInBlock, blockHash, ids);
    if |window| >= p.finalConfirmations {
      TailKeySet(window);
      RemoveAllFacts(p.(seenInBlock := window[1..]), window[0].1);
    }
  }

  /** `on_block_cleaned_up` keeps the invariant and the block is no longer tracked. */
  lemma BlockCleanedUpFacts(p: Pool, blockHash: Sha256Hash)
    requires Inv(p)
    ensures Inv(BlockCleanedUp(p, blockHash))
    ensures !HasKey(BlockCleanedUp(p, blockHash).seenInBlock, blockHash)
  {
    WithoutKeepsDistinct(p.seenInBlock, {blockHash});
    WithoutFacts(p.seenInBlock, {blockHash});
  }

  /** Distinct keys make the key set as large as the sequence. */
  lemma {:induction false} DistinctKeySetSize<K, V>(s: seq<(K, V)>)
    ensures DistinctKeys(s) ==> |KeySet(s)| == |s|
  {
    if s != [] && DistinctKeys(s) {
      TailKeySet(s);
      DistinctKeySetSize(s[1..]);
      assert KeySet(s) == KeySet(s[1..]) + {s[0].0};
    }
  }
}
