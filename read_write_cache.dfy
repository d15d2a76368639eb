/** The OrderedDict LRU cache guarded by a reader/writer lock (`ReadWriteLRUCache`). */
module ReadWriteCache {
  import opened Errors
  import opened LruModel

  /**
   * The reader/writer monitor is not modelled: each read or write section is one atomic
   * step. What the lock discipline leaves visible is the gap in `Get` between releasing
   * the read lock and acquiring the write lock.
   */
  class ReadWriteLruCache {
    const capacity: int
    var cache: LruState

    ghost predicate Valid()
      reads this
    {
      capacity >= 1 && cache.Valid() && cache.Len() <= capacity
    }

    /** The body of `__init__` once the capacity has been accepted. */
    constructor (capacity: int)
      requires capacity > 0
      ensures Valid() && this.capacity == capacity && cache == LruState([], map[])
    {
      this.capacity := capacity;
      cache := LruState([], map[]);
    }

    /**
     * `get`: look the key up under the read lock; on a hit escalate to the write lock and
     * check the key again before promoting it. `raced` are the puts other threads complete
     * while no lock is held (the empty sequence when there is one thread).
     */
    method Get(key: int, raced: seq<(int, int)>) returns (r: int)
      requires Valid()
      modifies this
      ensures Valid()
      ensures (r, cache) == RacedGet(old(cache), capacity, key, raced)
    {
      // read section
      if key !in cache.values {
        return MISS;
      }
      var value := cache.values[key];
      // between release_read and acquire_write
      cache := PutAll(cache, capacity, raced);
      // write section
      if key !in cache.values {
        return MISS;
      }
      value := cache.values[key];
      cache := cache.Pop(key);
      cache := cache.Set(key, value);
      return value;
    }

    /** `put`, under the write lock: the same update as the mutual-exclusion cache. */
    method Put(key: int, value: int)
      requires Valid()
      modifies this
      ensures Valid()
      ensures cache == PutEvictFirst(old(cache), capacity, key, value)
    {
      PutEvictFirstBounded(cache, capacity, key, value);
      if key in cache.values {
        cache := cache.Pop(key);
        cache := cache.Set(key, value);
      } else {
        if cache.Len() >= capacity {
          LenIsOrderLength(cache);
          cache := cache.PopFirst();
        }
        cache := cache.Set(key, value);
      }
    }

    /** `get_all`, under the read lock: a copy equal to the table, nothing changes. */
    method GetAll() returns (r: map<int, int>)
      requires Valid()
      ensures r == cache.values
    {
      r := cache.values;
    }
  }

  /** `ReadWriteLRUCache(capacity)`: a capacity of zero or less raises ValueError. */
  method NewReadWriteLruCache(capacity: int) returns (r: Result<ReadWriteLruCache>)
    ensures capacity <= 0 ==> r == Err(ValueError)
    ensures capacity > 0 ==> (r.Ok? && fresh(r.value) && r.value.Valid() &&
      r.value.capacity == capacity && r.value.cache == LruState([], map[]))
  {
    if capacity <= 0 {
      return Err(ValueError);
    }
    var c := new ReadWriteLruCache(capacity);
    return Ok(c);
  }
}
