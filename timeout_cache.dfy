/** The OrderedDict LRU cache whose lock is acquired with a timeout (`TimeoutLRUCache`). */
module TimeoutCache {
  import opened Errors
  import opened LruModel

  /**
   * Each call's `acquired` says whether `lock.acquire(timeout=...)` succeeded; the timeout
   * itself is not modelled. `locked` is the lock's held flag.
   */
  class TimeoutLruCache {
    const capacity: int
    var cache: LruState
    var locked: bool

    ghost predicate Valid()
      reads this
    {
      capacity >= 1 && cache.Valid() && cache.Len() <= capacity
    }

    /** The body of `__init__` once the capacity has been accepted. */
    constructor (capacity: int)
      requires capacity > 0
      ensures Valid() && this.capacity == capacity && cache == LruState([], map[]) && !locked
    {
      this.capacity := capacity;
      cache := LruState([], map[]);
      locked := false;
    }

    /** `get`: TimeoutError without the lock; otherwise the plain LRU `get`, releasing on every return. */
    method Get(key: int, acquired: bool) returns (r: Result<int>)
      requires Valid()
      modifies this
      ensures Valid()
      ensures !acquired ==> r == Err(TimeoutError) && cache == old(cache) && locked == old(locked)
      ensures acquired ==> r == Ok(Lookup(old(cache), key)) && cache == AfterGet(old(cache), key) && !locked
    {
      if !acquired {
        return Err(TimeoutError);
      }
      locked := true;
      if key !in cache.values {
        locked := false;
        return Ok(MISS);
      }
      var value := cache.values[key];
      cache := cache.Pop(key);
      cache := cache.Set(key, value);
      locked := false;
      return Ok(value);
    }

    /** `put`: TimeoutError without the lock; otherwise evict-before-insert, then release. */
    method Put(key: int, value: int, acquired: bool) returns (r: Result<()>)
      requires Valid()
      modifies this
      ensures Valid()
      ensures !acquired ==> r == Err(TimeoutError) && cache == old(cache) && locked == old(locked)
      ensures acquired ==> r == Ok(()) && cache == PutEvictFirst(old(cache), capacity, key, value) && !locked
    {
      if !acquired {
        return Err(TimeoutError);
      }
      locked := true;
      PutEvictFirstBounded(cache, capacity, key, value);
      if key in cache.values {
        cache := cache.Pop(key);
        cache := cache.Set(key, value);
      } else {
        if cache.Len() >= capacity {
          LenIsOrderLength(cache);
          cache := cache.PopFirst();
        }
        cache := cache.Set(key, value);
      }
      locked := false;
      return Ok(());
    }

    /** `get_all`: TimeoutError without the lock; otherwise a copy of the table. */
    method GetAll(acquired: bool) returns (r: Result<map<int, int>>)
      requires Valid()
      modifies this
      ensures cache == old(cache) && Valid()
      ensures !acquired ==> r == Err(TimeoutError) && locked == old(locked)
      ensures acquired ==> r == Ok(cache.values) && !locked
    {
      if !acquired {
        return Err(TimeoutError);
      }
      locked := true;
      r := Ok(cache.values);
      locked := false;
    }
  }

  /** `TimeoutLRUCache(capacity, timeout)`: a capacity of zero or less raises ValueError. */
  method NewTimeoutLruCache(capacity: int) returns (r: Result<TimeoutLruCache>)
    ensures capacity <= 0 ==> r == Err(ValueError)
    ensures capacity > 0 ==> (r.Ok? && fresh(r.value) && r.value.Valid() &&
      r.value.capacity == capacity && r.value.cache == LruState([], map[]) && !r.value.locked)
  {
    if capacity <= 0 {
      return Err(ValueError);
    }
    var c := new TimeoutLruCache(capacity);
    return Ok(c);
  }
}
