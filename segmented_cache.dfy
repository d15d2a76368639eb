/** The sharded LRU cache (`SegmentedLRUCache`): independent mutual-exclusion caches, one per segment. */
module SegmentedCache {
  import opened Errors
  import opened LruModel
  import opened ThreadSafeCache

  /**
   * `max(1, capacity // num_segments)`: every segment gets at least one slot, and when there are
   * no more segments than capacity the segments together hold at most `capacity` entries; the
   * remainder, less than one slot per segment, is not redistributed.
   */
  function SegmentCapacity(capacity: int, numSegments: int): (c: int)
    requires capacity > 0 && numSegments > 0
    ensures c >= 1
    ensures capacity >= numSegments ==> c * numSegments <= capacity < (c + 1) * numSegments
    ensures capacity < numSegments ==> c == 1
  {
    var q := capacity / numSegments;
    assert capacity == q * numSegments + capacity % numSegments;
    if q > 1 then q else 1
  }

  /**
   * `hash(key) % num_segments`. Python's `%` rounds toward minus infinity; for a positive
   * divisor that is Dafny's `%`, so the index lies in [0, numSegments) even for a negative hash.
   */
  function SegmentIndex(h: int, numSegments: int): (i: int)
    requires numSegments > 0
    ensures 0 <= i < numSegments
  {
    h % numSegments
  }

  /** `result.update(...)` over a sequence of maps: later maps win on shared keys. */
  function MergeAll(ms: seq<map<int, int>>): (r: map<int, int>)
    ensures forall k :: k in r ==> exists i :: 0 <= i < |ms| && k in ms[i]
    ensures forall i, k :: 0 <= i < |ms| && k in ms[i] ==> k in r
  {
    if ms == [] then map[] else MergeAll(ms[..|ms| - 1]) + ms[|ms| - 1]
  }

  /** Merging one more map into a prefix's merge is merging the longer prefix. */
  lemma MergeAllStep(ms: seq<map<int, int>>, i: int)
    requires 0 <= i < |ms|
    ensures MergeAll(ms[..i + 1]) == MergeAll(ms[..i]) + ms[i]
  {
    assert ms[..i + 1][..i] == ms[..i];
  }

  /** No key occurs in two of the maps. */
  ghost predicate Disjoint(ms: seq<map<int, int>>)
  {
    forall i, j, k :: 0 <= i < j < |ms| && k in ms[i] ==> k !in ms[j]
  }

  function SumSizes(ms: seq<map<int, int>>): nat
  {
    if ms == [] then 0 else SumSizes(ms[..|ms| - 1]) + |ms[|ms| - 1]|
  }

  /** The keys of a merge of disjoint maps are disjoint from the keys of any later map. */
  lemma MergeAllDisjointFromLast(ms: seq<map<int, int>>)
    requires Disjoint(ms) && ms != []
    ensures MergeAll(ms[..|ms| - 1]).Keys !! ms[|ms| - 1].Keys
  {
    var init := ms[..|ms| - 1];
    var m := MergeAll(init);
    forall k | k in m ensures k !in ms[|ms| - 1] {
      var i :| 0 <= i < |init| && k in init[i];
      assert k in ms[i];
    }
  }

  /** Merging disjoint maps keeps every value. */
  lemma {:induction false} MergeAllValue(ms: seq<map<int, int>>, i: int, k: int)
    requires Disjoint(ms) && 0 <= i < |ms| && k in ms[i]
    ensures k in MergeAll(ms) && MergeAll(ms)[k] == ms[i][k]
  {
    var init, last := ms[..|ms| - 1], ms[|ms| - 1];
    if i < |ms| - 1 {
      DisjointPrefix(ms);
      MergeAllValue(init, i, k);
      assert k !in last;
    }
  }

  /** A prefix of disjoint maps is disjoint. */
  lemma DisjointPrefix(ms: seq<map<int, int>>)
    requires Disjoint(ms) && ms != []
    ensures Disjoint(ms[..|ms| - 1])
  {
    var init := ms[..|ms| - 1];
    forall i, j, k | 0 <= i < j < |init| && k in init[i] ensures k !in init[j] {
      assert k in ms[i];
    }
  }

  /** Merging disjoint maps loses no entry. */
  lemma {:induction false} MergeAllSize(ms: seq<map<int, int>>)
    requires Disjoint(ms)
    ensures |MergeAll(ms)| == SumSizes(ms)
  {
    if ms != [] {
      var init, last := ms[..|ms| - 1], ms[|ms| - 1];
      DisjointPrefix(ms);
      MergeAllSize(init);
      MergeAllDisjointFromLast(ms);
      var m := MergeAll(init);
      assert (m + last).Keys == m.Keys + last.Keys;
    }
  }

  /** Maps each within `bound` entries give at most `|ms| * bound` entries in all. */
  lemma {:induction false} SumSizesBounded(ms: seq<map<int, int>>, bound: int)
    requires forall i :: 0 <= i < |ms| ==> |ms[i]| <= bound
    ensures SumSizes(ms) <= |ms| * bound
  {
    if ms != [] {
      SumSizesBounded(ms[..|ms| - 1], bound);
    }
  }

  class SegmentedLruCache {
    const numSegments: int
    const segments: seq<ThreadSafeLruCache>
    /** Python's built-in `hash`, fixed for the life of the process. */
    const hash: int -> int
    /** The capacity each segment was built with. */
    ghost const segmentCapacity: int

    ghost predicate Valid()
      reads this, segments
    {
      numSegments > 0 && |segments| == numSegments && segmentCapacity >= 1 &&
      (forall i, j :: 0 <= i < j < numSegments ==> segments[i] != segments[j]) &&
      (forall i :: 0 <= i < numSegments ==> segments[i].Valid() && segments[i].capacity == segmentCapacity) &&
      (forall i, k :: 0 <= i < numSegments && k in segments[i].cache.values ==> Route(k) == i)
    }

    /** `_get_segment`: the index of the one segment responsible for `key`. */
    function Route(key: int): (i: int)
      requires numSegments > 0
      ensures 0 <= i < numSegments
    {
      SegmentIndex(hash(key), numSegments)
    }

    /** The table of every segment, in segment order. */
    ghost function Views(): (vs: seq<map<int, int>>)
      requires Valid()
      reads this, segments
      ensures |vs| == numSegments
      ensures forall i :: 0 <= i < numSegments ==> vs[i] == segments[i].cache.values
    {
      seq(numSegments, i requires 0 <= i < numSegments reads segments => segments[i].cache.values)
    }

    /** Keys are routed to one segment each, so no key is in two segments. */
    lemma ViewsDisjoint()
      requires Valid()
      ensures Disjoint(Views())
    {
      var vs := Views();
      forall i, j, k | 0 <= i < j < |vs| && k in vs[i] ensures k !in vs[j] {
        assert Route(k) == i;
      }
    }

    /**
     * The merge of all segments holds each segment's entries unchanged, as many entries as the
     * segments together, and at most `numSegments * segmentCapacity`.
     */
    lemma MergedViews()
      requires Valid()
      ensures |MergeAll(Views())| == SumSizes(Views()) <= numSegments * segmentCapacity
      ensures forall i, k :: 0 <= i < numSegments && k in segments[i].cache.values ==>
        k in MergeAll(Views()) && MergeAll(Views())[k] == segments[i].cache.values[k]
    {
      var vs := Views();
      ViewsDisjoint();
      MergeAllSize(vs);
      forall i, k | 0 <= i < numSegments && k in segments[i].cache.values
        ensures k in MergeAll(vs) && MergeAll(vs)[k] == segments[i].cache.values[k]
      {
        MergeAllValue(vs, i, k);
      }
      forall i | 0 <= i < numSegments ensures |vs[i]| <= segmentCapacity {
        LenIsOrderLength(segments[i].cache);
      }
      SumSizesBounded(vs, segmentCapacity);
    }

    /** The body of `__init__` once capacity and segment count have been accepted. */
    constructor (capacity: int, numSegments: int, hash: int -> int)
      requires capacity > 0 && numSegments > 0
      ensures Valid() && this.numSegments == numSegments && this.hash == hash
      ensures segmentCapacity == SegmentCapacity(capacity, numSegments)
      ensures forall i :: 0 <= i < numSegments ==> fresh(segments[i]) && segments[i].cache == LruState([], map[])
    {
      var segCap := SegmentCapacity(capacity, numSegments);
      var segs: seq<ThreadSafeLruCache> := [];
      for n := 0 to numSegments
        invariant |segs| == n
        invariant forall i, j :: 0 <= i < j < n ==> segs[i] != segs[j]
        invariant forall i :: 0 <= i < n ==>
          fresh(segs[i]) && segs[i].Valid() && segs[i].capacity == segCap && segs[i].cache == LruState([], map[])
      {
        var s := new ThreadSafeLruCache(segCap);
        segs := segs + [s];
      }
      this.numSegments := numSegments;
      this.segments := segs;
      this.hash := hash;
      this.segmentCapacity := segCap;
    }

    /** `get`: delegate to the key's segment; no other segment is touched. */
    method Get(key: int) returns (r: int)
      requires Valid()
      modifies segments
      ensures Valid()
      ensures var i := Route(key);
        r == Lookup(old(segments[i].cache), key) && segments[i].cache == AfterGet(old(segments[i].cache), key)
      ensures forall j :: 0 <= j < numSegments && j != Route(key) ==> segments[j].cache == old(segments[j].cache)
    {
      var i := Route(key);
      r := segments[i].Get(key);
    }

    /** `put`: delegate to the key's segment; no other segment is touched. */
    method Put(key: int, value: int)
      requires Valid()
      modifies segments
      ensures Valid()
      ensures var i := Route(key);
        segments[i].cache == PutEvictFirst(old(segments[i].cache), segmentCapacity, key, value)
      ensures forall j :: 0 <= j < numSegments && j != Route(key) ==> segments[j].cache == old(segments[j].cache)
    {
      var i := Route(key);
      segments[i].Put(key, value);
    }

    /**
     * `get_all`: the segments' tables merged in segment order; MergedViews says what that
     * merge holds.
     */
    method GetAll() returns (r: map<int, int>)
      requires Valid()
      ensures r == MergeAll(Views())
    {
      ghost var vs := Views();
      r := map[];
      for i := 0 to numSegments
        invariant r == MergeAll(vs[..i])
      {
        var part := segments[i].GetAll();
        MergeAllStep(vs, i);
        r := r + part;
      }
      assert vs[..numSegments] == vs && vs == Views();
    }
  }

  /**
   * `SegmentedLRUCache(capacity, num_segments)`: ValueError for a capacity of zero or less,
   * then ZeroDivisionError for zero segments.
   */
  method NewSegmentedLruCache(capacity: int, numSegments: int, hash: int -> int) returns (r: Result<SegmentedLruCache>)
    requires numSegments >= 0
    ensures capacity <= 0 ==> r == Err(ValueError)
    ensures capacity > 0 && numSegments == 0 ==> r == Err(ZeroDivisionError)
    ensures capacity > 0 && numSegments > 0 ==> (r.Ok? && fresh(r.value) && r.value.Valid() &&
      r.value.numSegments == numSegments && r.value.hash == hash &&
      r.value.segmentCapacity == SegmentCapacity(capacity, numSegments) &&
      (forall i :: 0 <= i < numSegments ==> fresh(r.value.segments[i]) && r.value.segments[i].cache == LruState([], map[])))
  {
    if capacity <= 0 {
      return Err(ValueError);
    }
    if numSegments == 0 {
      return Err(ZeroDivisionError);
    }
    var c := new SegmentedLruCache(capacity, numSegments, hash);
    return Ok(c);
  }
}
