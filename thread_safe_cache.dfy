/** The lock-per-cache LRU cache built on an OrderedDict (`ThreadSafeLRUCache`). */
module ThreadSafeCache {
  import opened Errors
  import opened LruModel

  /**
   * The lock serialises every call, so each method is one atomic step on the state.
   * `cache` is the OrderedDict; its iteration order is the recency order.
   */
  class ThreadSafeLruCache {
    const capacity: int
    var cache: LruState

    ghost predicate Valid()
      reads this
    {
      capacity >= 1 && cache.Valid() && cache.Len() <= capacity
    }

    /** The body of `__init__` once the capacity has been accepted. */
    constructor (capacity: int)
      requires capacity > 0
      ensures Valid() && this.capacity == capacity && cache == LruState([], map[])
    {
      this.capacity := capacity;
      cache := LruState([], map[]);
    }

    /** `get`: a miss returns -1; a hit pops the key and reinserts it at the most-recent end. */
    method Get(key: int) returns (r: int)
      requires Valid()
      modifies this
      ensures Valid()
      ensures r == Lookup(old(cache), key) && cache == AfterGet(old(cache), key)
    {
      if key !in cache.values {
        return MISS;
      }
      var value := cache.values[key];
      cache := cache.Pop(key);
      cache := cache.Set(key, value);
      return value;
    }

    /** `put`: update and promote an existing key, or evict the front key of a full cache and append. */
    method Put(key: int, value: int)
      requires Valid()
      modifies this
      ensures Valid()
      ensures cache == PutEvictFirst(old(cache), capacity, key, value)
    {
      PutEvictFirstBounded(cache, capacity, key, value);
      if key in cache.values {
        cache := cache.Pop(key);
        cache := cache.Set(key, value);
      } else {
        if cache.Len() >= capacity {
          LenIsOrderLength(cache);
          cache := cache.PopFirst();
        }
        cache := cache.Set(key, value);
      }
    }

    /** `get_all`: a copy of the table; the recency order is left alone. */
    method GetAll() returns (r: map<int, int>)
      requires Valid()
      ensures r == cache.values
    {
      r := cache.values;
    }

    /** `size`: the number of entries, which is the number of keys in the recency order. */
    method Size() returns (r: int)
      requires Valid()
      ensures r == |cache.order| && 0 <= r <= capacity
    {
      LenIsOrderLength(cache);
      r := cache.Len();
    }
  }

  /** `ThreadSafeLRUCache(capacity)`: a capacity of zero or less raises ValueError. */
  method NewThreadSafeLruCache(capacity: int) returns (r: Result<ThreadSafeLruCache>)
    ensures capacity <= 0 ==> r == Err(ValueError)
    ensures capacity > 0 ==> (r.Ok? && fresh(r.value) && r.value.Valid() &&
      r.value.capacity == capacity && r.value.cache == LruState([], map[]))
  {
    if capacity <= 0 {
      return Err(ValueError);
    }
    var c := new ThreadSafeLruCache(capacity);
    return Ok(c);
  }
}
