/**
 * The abstract LRU cache that every cache class refines: keys in recency order,
 * least recently used first, next to the key-to-value table. This is exactly the
 * state of a Python OrderedDict, whose iteration order is the order keys were
 * (re)inserted in; the linked-list caches are tied to it by their invariants.
 */
module LruModel {
  import opened Seqs
  import opened Errors

  /** The value `get` returns for an absent key; a stored -1 is indistinguishable from it. */
  const MISS: int := -1

  /** An OrderedDict with int keys and values. */
  datatype LruState = LruState(order: seq<int>, values: map<int, int>) {

    /** Every key is listed exactly once and every listed key has a value. */
    ghost predicate Valid()
    {
      NoDups(order) && forall k :: k in order <==> k in values
    }

    /** `len(od)` */
    function Len(): int
    {
      |values|
    }

    /** `od.pop(k)`: the key leaves both the table and the order. */
    function Pop(k: int): (r: LruState)
      requires k in values
      ensures Valid() ==> r.Valid()
      ensures k !in r.values
      ensures r.order == RemoveFirst(order, k) && r.values == values - {k}
    {
      NoDupsRemoveFirst(order, k);
      LruState(RemoveFirst(order, k), values - {k})
    }

    /** `od[k] = v`: a new key is appended at the most-recent end, an existing one keeps its place. */
    function Set(k: int, v: int): (r: LruState)
      ensures Valid() ==> r.Valid()
      ensures r.values == values[k := v]
      ensures r.order == if k in values then order else order + [k]
    {
      if k in values then LruState(order, values[k := v])
      else
        assert Valid() ==> k !in order;
        LruState(order + [k], values[k := v])
    }

    /** `od.popitem(last=False)`: the least recently used key leaves. */
    function PopFirst(): (r: LruState)
      requires |order| > 0
      ensures Valid() ==> r.Valid()
      ensures order[0] !in r.values
      ensures r.order == order[1..] && r.values == values - {order[0]}
    {
      NoDupsTail(order);
      LruState(order[1..], values - {order[0]})
    }
  }

  /** Removing one key keeps a sequence duplicate-free (a repackaging of RemoveFirst's contract). */
  lemma NoDupsRemoveFirst(s: seq<int>, k: int)
    ensures NoDups(s) ==> NoDups(RemoveFirst(s, k)) && k !in RemoveFirst(s, k)
  {
  }

  /** Under the invariant the number of entries is the length of the order. */
  lemma LenIsOrderLength(c: LruState)
    requires c.Valid()
    ensures c.Len() == |c.order|
  {
    assert forall k :: k in c.order <==> k in c.values;
    MapSizeOfKeys(c.order, c.values);
  }

  /** Moving `k` to the end: dropping `k` from `s + [k]` gives back `s` when `k` is not in `s`. */
  lemma RemoveFirstOfAppended(s: seq<int>, k: int)
    requires k !in s
    ensures RemoveFirst(s + [k], k) == s
  {
    assert (s + [k])[..|s|] == s;
    RemoveFirstAt(s + [k], k, |s|);
  }

  /** The value `get(k)` returns. */
  function Lookup(c: LruState, k: int): int
  {
    if k in c.values then c.values[k] else MISS
  }

  /** The state after `get(k)`: a present key is popped and reinserted, so it becomes the most recent. */
  function AfterGet(c: LruState, k: int): (r: LruState)
    requires c.Valid()
    ensures r.Valid() && r.values == c.values
    ensures k !in c.values ==> r == c
    ensures k in c.values ==> |r.order| == |c.order| && r.order[|r.order| - 1] == k
    ensures RemoveFirst(r.order, k) == RemoveFirst(c.order, k)
  {
    if k in c.values then
      var p := c.Pop(k);
      assert p.values[k := c.values[k]] == c.values;
      RemoveFirstOfAppended(p.order, k);
      p.Set(k, c.values[k])
    else c
  }

  /**
   * `put(k, v)` of the OrderedDict caches and of the hand-made linked list: an existing
   * key is popped and reinserted with the new value; a new key first evicts the least
   * recently used key when the cache already holds `cap` entries.
   */
  function PutEvictFirst(c: LruState, cap: int, k: int, v: int): (r: LruState)
    requires c.Valid() && cap >= 1
    ensures r.Valid()
    ensures forall j :: j in r.values ==> j == k || j in c.values
  {
    if k in c.values then c.Pop(k).Set(k, v)
    else
      LenIsOrderLength(c);
      (if c.Len() >= cap then c.PopFirst() else c).Set(k, v)
  }

  /**
   * `put(k, v)` of the improved read/write cache: insert or update first, then evict the
   * least recently used key when the size exceeds `cap`. The capacity is never validated.
   */
  function PutEvictLast(c: LruState, cap: int, k: int, v: int): (r: LruState)
    requires c.Valid()
    ensures r.Valid()
    ensures forall j :: j in r.values ==> j == k || j in c.values
  {
    var c1 := if k in c.values then c.Pop(k).Set(k, v) else c.Set(k, v);
    assert k in c1.order;
    if c1.Len() > cap then c1.PopFirst() else c1
  }

  /** Puts applied in order; used for the puts other threads complete while a `get` escalates its lock. */
  function PutAll(c: LruState, cap: int, writes: seq<(int, int)>): (r: LruState)
    requires c.Valid() && cap >= 1 && c.Len() <= cap
    ensures r.Valid() && r.Len() <= cap
    decreases |writes|
  {
    if writes == [] then c
    else
      PutEvictFirstBounded(c, cap, writes[0].0, writes[0].1);
      PutAll(PutEvictFirst(c, cap, writes[0].0, writes[0].1), cap, writes[1..])
  }

  /**
   * `get(k)` of the read/write cache: a miss under the read lock returns at once; otherwise the
   * lock is released and the write lock taken, `raced` are the puts other threads complete in
   * that gap, and the key is checked again before it is promoted.
   */
  function RacedGet(c: LruState, cap: int, k: int, raced: seq<(int, int)>): (r: (int, LruState))
    requires c.Valid() && cap >= 1 && c.Len() <= cap
    ensures r.1.Valid() && r.1.Len() <= cap
    ensures r.0 == Lookup(r.1, k)
    ensures k !in c.values ==> r == (MISS, c)
    ensures k in c.values && k !in PutAll(c, cap, raced).values ==> r.1 == PutAll(c, cap, raced)
    ensures k in c.values && k in PutAll(c, cap, raced).values ==> r.1 == AfterGet(PutAll(c, cap, raced), k)
  {
    if k !in c.values then (MISS, c)
    else
      var c1 := PutAll(c, cap, raced);
      if k !in c1.values then (MISS, c1) else (c1.values[k], AfterGet(c1, k))
  }

  // ---------------------------------------------------------------------------
  // Properties of the evict-before-insert `put`

  /** A `put` keeps the cache within its capacity. */
  lemma PutEvictFirstBounded(c: LruState, cap: int, k: int, v: int)
    requires c.Valid() && cap >= 1 && c.Len() <= cap
    ensures PutEvictFirst(c, cap, k, v).Len() <= cap
  {
    var r := PutEvictFirst(c, cap, k, v);
    LenIsOrderLength(c);
    LenIsOrderLength(r);
    if k in c.values {
      LenIsOrderLength(c.Pop(k));
    } else if c.Len() >= cap {
      LenIsOrderLength(c.PopFirst());
    }
  }

  /** `put(k, v)` followed by `get(k)` returns `v`. */
  lemma PutThenGet(c: LruState, cap: int, k: int, v: int)
    requires c.Valid() && cap >= 1
    ensures Lookup(PutEvictFirst(c, cap, k, v), k) == v
  {
  }

  /** Updating an existing key replaces its value, promotes it, and evicts nothing. */
  lemma PutExisting(c: LruState, cap: int, k: int, v: int)
    requires c.Valid() && cap >= 1 && k in c.values
    ensures var r := PutEvictFirst(c, cap, k, v);
      r.values == c.values[k := v] && r.Len() == c.Len() &&
      |r.order| == |c.order| && r.order[|r.order| - 1] == k &&
      RemoveFirst(r.order, k) == RemoveFirst(c.order, k)
  {
    var r := PutEvictFirst(c, cap, k, v);
    assert c.values[k := v].Keys == c.values.Keys;
    RemoveFirstOfAppended(c.Pop(k).order, k);
  }

  /** A new key into a cache with room is appended and nothing is evicted. */
  lemma PutNewWithRoom(c: LruState, cap: int, k: int, v: int)
    requires c.Valid() && cap >= 1 && k !in c.values && c.Len() < cap
    ensures var r := PutEvictFirst(c, cap, k, v);
      r.values == c.values[k := v] && r.order == c.order + [k]
  {
  }

  /**
   * A new key into a full cache evicts exactly the least recently used key and keeps every
   * other entry, in order.
   */
  lemma PutNewWhenFull(c: LruState, cap: int, k: int, v: int)
    requires c.Valid() && cap >= 1 && k !in c.values && c.Len() == cap
    ensures |c.order| > 0
    ensures var r := PutEvictFirst(c, cap, k, v);
      r.order == c.order[1..] + [k] &&
      r.values.Keys == c.values.Keys - {c.order[0]} + {k} &&
      r.values[k] == v &&
      forall j :: j in r.values && j != k ==> r.values[j] == c.values[j]
  {
    LenIsOrderLength(c);
  }

  /** `get_all` after the scenario `put 1, put 2, get 1, put 3` at capacity 2: key 2 was evicted. */
  lemma ScenarioEvictsLeastRecent()
    ensures var c0 := LruState([], map[]);
      var c1 := PutEvictFirst(c0, 2, 1, 1);
      var c2 := PutEvictFirst(c1, 2, 2, 2);
      var got := Lookup(c2, 1);
      var c3 := AfterGet(c2, 1);
      var c4 := PutEvictFirst(c3, 2, 3, 3);
      got == 1 && Lookup(c4, 2) == MISS && Lookup(c4, 3) == 3 && Lookup(c4, 1) == 1 &&
      c4.order == [1, 3]
  {
    var s1 := LruState([1], map[1 := 1]);
    var s2 := LruState([1, 2], map[1 := 1, 2 := 2]);
    var s3 := LruState([2, 1], map[1 := 1, 2 := 2]);
    var s4 := LruState([1, 3], map[1 := 1, 3 := 3]);
    assert PutEvictFirst(LruState([], map[]), 2, 1, 1) == s1;
    assert s1.Valid();
    assert PutEvictFirst(s1, 2, 2, 2) == s2;
    assert s2.Valid();
    assert RemoveFirst([1, 2], 1) == [2];
    assert AfterGet(s2, 1) == s3;
    assert s3.Valid() && s3.Len() == 2;
    assert s3.PopFirst() == LruState([1], map[1 := 1]);
    assert PutEvictFirst(s3, 2, 3, 3) == s4;
  }

  /** Capacity 1: `put(1, 10)`, `get(1)` is 10, `put(2, 20)` evicts key 1. */
  lemma ScenarioMinimumCapacity()
    ensures var c1 := PutEvictFirst(LruState([], map[]), 1, 1, 10);
      var c2 := AfterGet(c1, 1);
      var c3 := PutEvictFirst(c2, 1, 2, 20);
      Lookup(c1, 1) == 10 && Lookup(c3, 1) == MISS && Lookup(c3, 2) == 20
  {
    var c1 := PutEvictFirst(LruState([], map[]), 1, 1, 10);
    assert c1 == LruState([1], map[1 := 10]);
    var c2 := AfterGet(c1, 1);
    assert c2.Len() == 1 by { assert c2.values == c1.values; }
    var c3 := PutEvictFirst(c2, 1, 2, 20);
    assert c3.values == map[2 := 20];
  }

  /** A stored -1 cannot be told from a miss: `put(1, -1)` then `get(1)` returns MISS. */
  lemma StoredMinusOneLooksLikeMiss(c: LruState, cap: int)
    requires c.Valid() && cap >= 1
    ensures var r := PutEvictFirst(c, cap, 1, -1);
      1 in r.values && Lookup(r, 1) == MISS
  {
  }

  // ---------------------------------------------------------------------------
  // Properties of the evict-after-insert `put`

  /** Whatever the capacity, a `put` grows the cache by at most one and keeps it within `max(cap, 0)`. */
  lemma PutEvictLastBounded(c: LruState, cap: int, k: int, v: int)
    requires c.Valid() && c.Len() <= (if cap < 0 then 0 else cap)
    ensures var r := PutEvictLast(c, cap, k, v);
      r.Len() <= (if cap < 0 then 0 else cap) && c.Len() - 1 <= r.Len() <= c.Len() + 1
  {
    var c1 := if k in c.values then c.Pop(k).Set(k, v) else c.Set(k, v);
    LenIsOrderLength(c1);
    if k in c.values {
      assert c1.values.Keys == c.values.Keys;
    } else {
      assert c1.values.Keys == c.values.Keys + {k};
    }
    if c1.Len() > cap {
      LenIsOrderLength(c1.PopFirst());
    }
  }

  /** With a capacity of at least one, the victim of the eviction is never the key just put. */
  lemma PutEvictLastKeepsKey(c: LruState, cap: int, k: int, v: int)
    requires c.Valid() && cap >= 1 && c.Len() <= cap
    ensures Lookup(PutEvictLast(c, cap, k, v), k) == v
  {
    var c1 := if k in c.values then c.Pop(k).Set(k, v) else c.Set(k, v);
    LenIsOrderLength(c);
    LenIsOrderLength(c1);
    if c1.Len() > cap {
      assert k !in c.values;
      assert c.order != [];
      assert c1.order == c.order + [k];
      assert c1.order[0] == c.order[0];
      assert c1.order[0] != k;
    }
  }

  /**
   * Inserting before the eviction check and evicting after it agrees with evicting first,
   * on every reachable state of a cache with a positive capacity.
   */
  lemma EvictLastAgreesWithEvictFirst(c: LruState, cap: int, k: int, v: int)
    requires c.Valid() && cap >= 1 && c.Len() <= cap
    ensures PutEvictLast(c, cap, k, v) == PutEvictFirst(c, cap, k, v)
  {
    LenIsOrderLength(c);
    if k in c.values {
      var c1 := c.Pop(k).Set(k, v);
      assert c1.values.Keys == c.values.Keys;
    } else {
      var c1 := c.Set(k, v);
      assert c1.values.Keys == c.values.Keys + {k};
      if c.Len() >= cap {
        assert c1.order[1..] == c.order[1..] + [k];
        assert c1.values - {c1.order[0]} == (c.values - {c.order[0]})[k := v];
      }
    }
  }

  /** A cache built with a capacity of zero or less stays empty: each new key evicts itself. */
  lemma PutEvictLastNonPositive(cap: int, k: int, v: int)
    requires cap <= 0
    ensures PutEvictLast(LruState([], map[]), cap, k, v) == LruState([], map[])
  {
    var c1 := LruState([], map[]).Set(k, v);
    assert c1.order == [k];
    assert c1.Len() == 1;
  }

  // ---------------------------------------------------------------------------
  // The escalating `get`

  /** With no put in the gap the double-checked `get` is the plain `get`. */
  lemma RacedGetSequential(c: LruState, cap: int, k: int)
    requires c.Valid() && cap >= 1 && c.Len() <= cap
    ensures RacedGet(c, cap, k, []) == (Lookup(c, k), AfterGet(c, k))
  {
  }

  /** A key evicted by a put in the gap is reported as a miss, though the read section saw it. */
  lemma RacedGetEvicted(c: LruState, cap: int, k: int, raced: seq<(int, int)>)
    requires c.Valid() && cap >= 1 && c.Len() <= cap
    requires k in c.values && k !in PutAll(c, cap, raced).values
    ensures RacedGet(c, cap, k, raced) == (MISS, PutAll(c, cap, raced))
  {
  }

  // ---------------------------------------------------------------------------
  // The escalating `get` of the improved read/write cache

  /** Puts of the evict-after-insert cache applied in order. */
  function PutAllLast(c: LruState, cap: int, writes: seq<(int, int)>): (r: LruState)
    requires c.Valid()
    ensures r.Valid()
    decreases |writes|
  {
    if writes == [] then c
    else
      var w := writes[|writes| - 1];
      PutEvictLast(PutAllLast(c, cap, writes[..|writes| - 1]), cap, w.0, w.1)
  }

  /**
   * Key `k` is present before the writes and after each of them. Exactly then the node that held
   * it at the start still holds it: a node once evicted is never linked again.
   */
  function StaysThrough(c: LruState, cap: int, k: int, writes: seq<(int, int)>): (b: bool)
    requires c.Valid()
    ensures b ==> k in c.values && k in PutAllLast(c, cap, writes).values
    decreases |writes|
  {
    if writes == [] then k in c.values
    else StaysThrough(c, cap, k, writes[..|writes| - 1]) && k in PutAllLast(c, cap, writes).values
  }

  /** One more write extends both the writes applied and the key's staying through them. */
  lemma PutAllLastStep(c: LruState, cap: int, k: int, writes: seq<(int, int)>, w: int)
    requires c.Valid() && 0 <= w < |writes|
    ensures PutAllLast(c, cap, writes[..w + 1]) == PutEvictLast(PutAllLast(c, cap, writes[..w]), cap, writes[w].0, writes[w].1)
    ensures StaysThrough(c, cap, k, writes[..w + 1]) <==>
      StaysThrough(c, cap, k, writes[..w]) && k in PutAllLast(c, cap, writes[..w + 1]).values
  {
    assert writes[..w + 1][..w] == writes[..w];
  }

  /**
   * `get(k)` of the improved read/write cache: a miss under the read lock returns at once;
   * otherwise it keeps the node it found, `raced` are the puts other threads complete before it
   * holds the write lock, and the node is moved to the front without looking the key up again.
   * A node evicted in that gap has had its links cleared, and `_move_to_front` raises
   * AttributeError on it. Whatever is returned is what the cache holds for `k` afterwards.
   */
  function EscalatedGet(c: LruState, cap: int, k: int, raced: seq<(int, int)>): (r: (Result<int>, LruState))
    requires c.Valid()
    ensures r.1.Valid()
    ensures r.0.Ok? ==> r.0.value == Lookup(r.1, k)
    ensures k !in c.values ==> r == (Ok(MISS), c)
    ensures k in c.values ==> (r.0.Err? <==> !StaysThrough(c, cap, k, raced))
    ensures k in c.values && !StaysThrough(c, cap, k, raced) ==> r == (Err(AttributeError), PutAllLast(c, cap, raced))
    ensures StaysThrough(c, cap, k, raced) ==> r.1 == AfterGet(PutAllLast(c, cap, raced), k)
  {
    if k !in c.values then (Ok(MISS), c)
    else
      var c1 := PutAllLast(c, cap, raced);
      if StaysThrough(c, cap, k, raced) then (Ok(c1.values[k]), AfterGet(c1, k))
      else (Err(AttributeError), c1)
  }

  /**
   * The same `get` with the key looked up again once the write lock is held, as the other
   * read/write cache does: it never fails, and it returns what the cache holds for `k` afterwards.
   */
  function RecheckedGet(c: LruState, cap: int, k: int, raced: seq<(int, int)>): (r: (int, LruState))
    requires c.Valid()
    ensures r.1.Valid()
    ensures r.0 == Lookup(r.1, k)
    ensures k !in c.values ==> r == (MISS, c)
    ensures k in c.values && k !in PutAllLast(c, cap, raced).values ==> r == (MISS, PutAllLast(c, cap, raced))
    ensures k in c.values && k in PutAllLast(c, cap, raced).values ==> r.1 == AfterGet(PutAllLast(c, cap, raced), k)
  {
    if k !in c.values then (MISS, c)
    else
      var c1 := PutAllLast(c, cap, raced);
      (Lookup(c1, k), AfterGet(c1, k))
  }

  /** With no put in the gap the escalating `get` is the plain `get`. */
  lemma EscalatedGetSequential(c: LruState, cap: int, k: int)
    requires c.Valid()
    ensures EscalatedGet(c, cap, k, []) == (Ok(Lookup(c, k)), AfterGet(c, k))
  {
  }

  /** Capacity 1 holding key 1, and another thread's `put(2, 2)` in the gap: `get(1)` raises. */
  lemma EscalatedGetEvictedRaises()
    ensures EscalatedGet(LruState([1], map[1 := 1]), 1, 1, [(2, 2)]).0 == Err(AttributeError)
  {
    var c := LruState([1], map[1 := 1]);
    assert c.Valid();
    var c1 := c.Set(2, 2);
    assert c1 == LruState([1, 2], map[1 := 1, 2 := 2]);
    assert c1.Len() == 2;
    assert c1.PopFirst() == LruState([2], map[2 := 2]);
    assert [(2, 2)][..0] == [];
    assert PutAllLast(c, 1, [(2, 2)]) == LruState([2], map[2 := 2]);
  }

  /** Where the escalating `get` does not fail, the re-checking one returns the same and leaves the same state. */
  lemma RecheckedGetAgrees(c: LruState, cap: int, k: int, raced: seq<(int, int)>)
    requires c.Valid() && EscalatedGet(c, cap, k, raced).0.Ok?
    ensures RecheckedGet(c, cap, k, raced) == (EscalatedGet(c, cap, k, raced).0.value, EscalatedGet(c, cap, k, raced).1)
  {
  }

  /** With no put in the gap the re-checking `get` is the plain `get`. */
  lemma RecheckedGetSequential(c: LruState, cap: int, k: int)
    requires c.Valid()
    ensures RecheckedGet(c, cap, k, []) == (Lookup(c, k), AfterGet(c, k))
  {
  }

  /** Storing a new value under a present key and then promoting it is popping the key and setting it again. */
  lemma AfterGetOfSet(c: LruState, k: int, v: int)
    requires c.Valid() && k in c.values
    ensures AfterGet(c.Set(k, v), k) == c.Pop(k).Set(k, v)
  {
    assert c.values[k := v] - {k} == c.values - {k};
  }

  /** Promoting the key that is already the most recent changes nothing. */
  lemma AfterGetOfMostRecent(c: LruState, k: int)
    requires c.Valid() && |c.order| > 0 && c.order[|c.order| - 1] == k
    ensures AfterGet(c, k) == c
  {
    var n := |c.order|;
    assert k in c.order;
    RemoveFirstAtNoDups(c.order, k, n - 1);
    assert c.order[..n - 1] + [k] == c.order;
    assert (c.values - {k})[k := c.values[k]] == c.values;
  }
}
