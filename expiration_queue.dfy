/**
 * The expiration queue: items in insertion order, each with the time it was (last) added.
 * Time is an integer `now` supplied by the caller instead of the wall clock.
 */
module ExpirationQueues {
  import opened Wrappers
  import opened OrderedMaps

  /** The `ValueError` raised for a negative time to live. */
  datatype QueueError = NegativeTimeToLive

  class ExpirationQueue<T(==)> {
    const timeToLive: int
    /** The `OrderedDict` item -> timestamp, oldest entry first. */
    var queue: seq<(T, int)>

    ghost predicate Valid()
      reads this
    {
      timeToLive >= 0 && DistinctKeys(queue)
    }

    constructor (timeToLive: int)
      requires timeToLive >= 0
      ensures Valid() && this.timeToLive == timeToLive && queue == []
    {
      this.timeToLive := timeToLive;
      queue := [];
    }

    /** `ExpirationQueue(time_to_live_sec)`: rejects a negative time to live. */
    static method Create(timeToLive: int) returns (r: Result<ExpirationQueue<T>, QueueError>)
      ensures r.Err? <==> timeToLive < 0
      ensures r.Ok? ==> fresh(r.value) && r.value.Valid()
      ensures r.Ok? ==> r.value.timeToLive == timeToLive && r.value.queue == []
    {
      if timeToLive < 0 {
        return Err(NegativeTimeToLive);
      }
      var q := new ExpirationQueue(timeToLive);
      return Ok(q);
    }

    /** `len(queue)`. */
    function Len(): nat
      reads this
    {
      |queue|
    }

    /** `bool(queue)`. */
    predicate NonEmpty()
      reads this
      ensures NonEmpty() <==> Len() > 0
    {
      Len() > 0
    }

    /** `add(item)`: the item's timestamp becomes `now`; a new item goes last, a present one keeps its place. */
    method Add(item: T, now: int)
      requires Valid()
      modifies this
      ensures Valid()
      ensures queue == Put(old(queue), item, now)
      ensures Get(queue, item) == Some(now)
      ensures Len() == if HasKey(old(queue), item) then old(Len()) else old(Len()) + 1
    {
      PutKeepsDistinct(queue, item, now);
      PutGet(queue, item, now, item);
      queue := Put(queue, item, now);
    }

    /** `remove(item)`: deletes the item if present, keeping the order of the others. */
    method Remove(item: T)
      requires Valid()
      modifies this
      ensures Valid()
      ensures queue == Without(old(queue), {item})
      ensures !HasKey(queue, item)
      ensures !HasKey(old(queue), item) ==> queue == old(queue)
    {
      WithoutKeepsDistinct(queue, {item});
      WithoutFacts(queue, {item});
      if !HasKey(queue, item) {
        WithoutAbsent(queue, {item});
      }
      queue := Without(queue, {item});
    }

    /** `get_oldest()`: the first item, or None when the queue is empty. */
    function GetOldest(): (r: Option<T>)
      reads this
      ensures r.None? <==> queue == []
      ensures r.Some? ==> r.value == queue[0].0
    {
      if queue == [] then None else Some(queue[0].0)
    }

    /** `get_oldest_item_timestamp()`: the first item's timestamp, or None when the queue is empty. */
    function GetOldestItemTimestamp(): (r: Option<int>)
      reads this
      ensures r.None? <==> queue == []
      ensures r.Some? ==> Get(queue, queue[0].0) == r
    {
      if queue == [] then None else Some(queue[0].1)
    }

    /**
     * `remove_expired(now, callback)`: pops from the front while the oldest entry is older than the time to live.
     * The popped items, in the order the callback would see them, are returned.
     */
    method RemoveExpired(now: int) returns (removed: seq<T>)
      requires Valid()
      modifies this
      ensures Valid()
      ensures |removed| <= |old(queue)|
      ensures queue == old(queue)[|removed|..]
      ensures removed == Keys(old(queue)[..|removed|])
      ensures forall i :: 0 <= i < |removed| ==> now - old(queue)[i].1 > timeToLive
      ensures queue == [] || now - queue[0].1 <= timeToLive
    {
      removed := [];
      while |queue| > 0 && now - GetOldestItemTimestamp().value > timeToLive
        invariant Valid()
        invariant |removed| <= |old(queue)|
        invariant queue == old(queue)[|removed|..]
        invariant removed == Keys(old(queue)[..|removed|])
        invariant forall i :: 0 <= i < |removed| ==> now - old(queue)[i].1 > timeToLive
        decreases |queue|
      {
        var item := queue[0].0;
        assert old(queue)[..|removed| + 1] == old(queue)[..|removed|] + [queue[0]];
        queue := queue[1..];
        removed := removed + [item];
      }
    }

    /** `remove_oldest(callback)`: pops the first item when there is one; the popped item is returned. */
    method RemoveOldest() returns (removed: Option<T>)
      requires Valid()
      modifies this
      ensures Valid()
      ensures removed == old(GetOldest())
      ensures queue == if old(queue) == [] then [] else old(queue)[1..]
    {
      if |queue| > 0 {
        removed := Some(queue[0].0);
        queue := queue[1..];
      } else {
        removed := None;
      }
    }
  }
}
