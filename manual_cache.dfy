/**
 * `ManualLRUCache`: the LRU cache over a hand-made doubly linked list with sentinels and a
 * dict from key to node, under one mutual-exclusion lock. The lock is not modelled.
 */
module ManualCache {
  import opened Seqs
  import opened Errors
  import opened LruModel
  import opened LinkedList

  /** The list and the dict hold the abstract cache, which keeps within the capacity. */
  ghost predicate Holds(nodes: seq<Node>, slots: seq<int>, st: LruState, index: map<int, int>, capacity: int)
  {
    capacity >= 1 && Linked(nodes, slots) && st.Valid() && st.Len() <= capacity &&
    Represents(nodes, slots, st, index)
  }

  /**
   * What `_move_to_head` of the i-th node leaves: with links that list the node last and every
   * key and value kept, the cache holds its key as the most recent, with as many entries.
   */
  lemma PromoteShape(nodes: seq<Node>, slots: seq<int>, st: LruState, index: map<int, int>, capacity: int, i: int, nodes': seq<Node>)
    requires Holds(nodes, slots, st, index, capacity) && 0 <= i < |slots| && |nodes'| == |nodes|
    requires Linked(nodes', slots[..i] + slots[i + 1..] + [slots[i]])
    requires forall y :: 0 <= y < |nodes| ==> nodes'[y].key == nodes[y].key && nodes'[y].value == nodes[y].value
    ensures st.order[i] in st.values
    ensures var k := st.order[i];
      Holds(nodes', slots[..i] + slots[i + 1..] + [slots[i]], st.Pop(k).Set(k, st.values[k]), index, capacity)
  {
    var k := st.order[i];
    RepresentsPromote(nodes, slots, st, index, i, st.values[k], nodes');
    LenIsOrderLength(st);
    LenIsOrderLength(st.Pop(k).Set(k, st.values[k]));
  }

  class ManualLruCache {
    const capacity: int
    /** Every node created so far; a reference to a node is its index, HEAD and TAIL the sentinels. */
    var nodes: seq<Node>
    /** `self.cache`: key to node. */
    var cache: map<int, int>
    /** The list's data nodes, least recent (`tail.prev`) first. */
    ghost var Slots: seq<int>
    /** The abstract cache the list and the dict hold. */
    ghost var State: LruState

    ghost predicate Valid()
      reads this
    {
      Holds(nodes, Slots, State, cache, capacity)
    }

    /** `__init__` once the capacity is accepted: empty dict, head and tail linked to each other. */
    constructor (capacity: int)
      requires capacity > 0
      ensures Valid() && this.capacity == capacity && State == LruState([], map[])
    {
      this.capacity := capacity;
      cache := map[];
      var sentinels := [Node(0, 0, NIL, NIL), Node(0, 0, NIL, NIL)];
      sentinels := sentinels[HEAD := sentinels[HEAD].(next := TAIL)];
      sentinels := sentinels[TAIL := sentinels[TAIL].(prev := HEAD)];
      nodes := sentinels;
      Slots := [];
      State := LruState([], map[]);
    }

    /** `_add_to_head`: link node `x`, not on the list, right after the head. */
    method AddToHead(x: int, ghost slots: seq<int>)
      requires Linked(nodes, slots) && 2 <= x < |nodes| && x !in slots
      modifies this
      ensures Linked(nodes, slots + [x])
      ensures |nodes| == old(|nodes|)
      ensures forall y :: 0 <= y < |nodes| ==> nodes[y].key == old(nodes[y].key) && nodes[y].value == old(nodes[y].value)
      ensures cache == old(cache) && Slots == old(Slots) && State == old(State)
    {
      ghost var before := nodes;
      Append(nodes, slots, x);
      ghost var m := Walk(slots)[|slots|];
      nodes := nodes[x := nodes[x].(prev := HEAD)];
      nodes := nodes[x := nodes[x].(next := nodes[HEAD].next)];
      nodes := nodes[nodes[HEAD].next := nodes[nodes[HEAD].next].(prev := x)];
      nodes := nodes[HEAD := nodes[HEAD].(next := x)];
      assert nodes == Splice(before, x, m);
    }

    /** `_remove_node` of the node at index `i` of the list: its neighbours are linked to each other. */
    method RemoveNode(x: int, ghost slots: seq<int>, ghost i: int)
      requires Linked(nodes, slots) && 0 <= i < |slots| && slots[i] == x
      modifies this
      ensures Linked(nodes, slots[..i] + slots[i + 1..]) && x !in slots[..i] + slots[i + 1..]
      ensures |nodes| == old(|nodes|)
      ensures forall y :: 0 <= y < |nodes| ==> nodes[y].key == old(nodes[y].key) && nodes[y].value == old(nodes[y].value)
      ensures cache == old(cache) && Slots == old(Slots) && State == old(State)
    {
      ghost var before := nodes;
      Unlink(nodes, slots, i);
      ghost var e := Walk(slots);
      nodes := nodes[nodes[x].prev := nodes[nodes[x].prev].(next := nodes[x].next)];
      nodes := nodes[nodes[x].next := nodes[nodes[x].next].(prev := nodes[x].prev)];
      assert nodes == Bypass(before, e[i], e[i + 2]);
    }

    /** `_move_to_head`: the node becomes the most recent; every other node keeps its place. */
    method MoveToHead(x: int, ghost slots: seq<int>, ghost i: int)
      requires Linked(nodes, slots) && 0 <= i < |slots| && slots[i] == x
      modifies this
      ensures Linked(nodes, slots[..i] + slots[i + 1..] + [x])
      ensures |nodes| == old(|nodes|)
      ensures forall y :: 0 <= y < |nodes| ==> nodes[y].key == old(nodes[y].key) && nodes[y].value == old(nodes[y].value)
      ensures cache == old(cache) && Slots == old(Slots) && State == old(State)
    {
      assert Walk(slots)[i + 1] == x && 2 <= x;
      RemoveNode(x, slots, i);
      AddToHead(x, slots[..i] + slots[i + 1..]);
    }

    /** `_remove_tail`: unlink and return the least recent node. */
    method RemoveTail(ghost slots: seq<int>) returns (x: int)
      requires Linked(nodes, slots) && |slots| > 0
      modifies this
      ensures x == slots[0] && Linked(nodes, slots[1..])
      ensures |nodes| == old(|nodes|)
      ensures forall y :: 0 <= y < |nodes| ==> nodes[y].key == old(nodes[y].key) && nodes[y].value == old(nodes[y].value)
      ensures cache == old(cache) && Slots == old(Slots) && State == old(State)
    {
      assert Walk(slots)[0] == TAIL && Walk(slots)[1] == slots[0];
      x := nodes[TAIL].prev;
      RemoveNode(x, slots, 0);
      assert slots[..0] + slots[1..] == slots[1..];
    }

    /** `get`: a miss returns -1 and changes nothing; a hit returns the value and moves the node to the head. */
    method Get(key: int) returns (r: int)
      requires Valid()
      modifies this
      ensures Valid()
      ensures r == Lookup(old(State), key) && State == AfterGet(old(State), key)
    {
      if key !in cache {
        return MISS;
      }
      var x := cache[key];
      Promote(x, key);
      r := nodes[x].value;
    }

    /**
     * `put`: an existing node gets the new value and moves to the head; a new key first evicts the
     * tail's node from the list and the dict when the dict already holds `capacity` keys.
     */
    method Put(key: int, value: int)
      requires Valid()
      modifies this
      ensures Valid()
      ensures State == PutEvictFirst(old(State), capacity, key, value)
    {
      ghost var c := State;
      if key in cache {
        var x := cache[key];
        SetValue(key, value);
        Promote(x, key);
        AfterGetOfSet(c, key, value);
      } else {
        PutNew(key, value);
      }
    }

    /** `node.value = value` on the key's node: the table gets the new value and the order stays. */
    method SetValue(key: int, value: int)
      requires Valid() && key in cache
      modifies this
      ensures Valid() && key in old(State.values) && State == old(State).Set(key, value)
      ensures |nodes| == old(|nodes|) && cache == old(cache) && Slots == old(Slots)
    {
      var x := cache[key];
      RepresentsSetValue(nodes, Slots, State, cache, key, value);
      nodes := nodes[x := nodes[x].(value := value)];
      State := State.Set(key, value);
    }

    /** `_move_to_head` of the key's node, which becomes the most recent with its value unchanged. */
    method Promote(x: int, ghost key: int)
      requires Valid() && key in cache && cache[key] == x
      modifies this
      ensures Valid() && key in old(State.values) && State == AfterGet(old(State), key)
      ensures key in cache && cache[key] == x && 0 <= x < |nodes| && nodes[x].value == old(State.values[key])
    {
      assert key in State.order;
      ghost var i :| 0 <= i < |Slots| && State.order[i] == key;
      ghost var before := nodes;
      MoveToHead(x, Slots, i);
      PromoteShape(before, Slots, State, cache, capacity, i, nodes);
      Slots := Slots[..i] + Slots[i + 1..] + [x];
      State := State.Pop(key).Set(key, State.values[key]);
    }

    /** The new-key branch of `put`: create the node, evict the tail when full, then link the node at the head. */
    method PutNew(key: int, value: int)
      requires Valid() && key !in cache
      modifies this
      ensures Valid()
      ensures State == PutEvictFirst(old(State), capacity, key, value)
    {
      PutEvictFirstBounded(State, capacity, key, value);
      RepresentsGrow(nodes, Slots, State, cache, Node(key, value, NIL, NIL));
      var x := |nodes|;
      nodes := nodes + [Node(key, value, NIL, NIL)];
      LenIsOrderLength(State);
      assert |cache| == State.Len() by { assert cache.Keys == State.values.Keys; }
      if |cache| >= capacity {
        EvictTail();
        LenIsOrderLength(State);
      }
      LinkNew(x, key, value);
    }

    /** The end of `put` for a new key, once there is room: the dict gets the node and the node the head. */
    method LinkNew(x: int, key: int, value: int)
      requires Valid() && State.Len() < capacity && key !in cache
      requires 2 <= x < |nodes| && x !in Slots && nodes[x].key == key && nodes[x].value == value
      modifies this
      ensures Valid() && State == old(State).Set(key, value)
    {
      ghost var mid := nodes;
      ghost var index := cache;
      cache := cache[key := x];
      AddToHead(x, Slots);
      RepresentsFrame(mid, Slots, State, index, nodes);
      RepresentsAppend(nodes, Slots, State, index, x, key, value);
      LenIsOrderLength(State);
      Slots := Slots + [x];
      State := State.Set(key, value);
      LenIsOrderLength(State);
    }

    /** The eviction inside `put`: the tail's node leaves the list and its key the dict. */
    method EvictTail()
      requires Valid() && |State.order| > 0
      modifies this
      ensures Valid() && State == old(State).PopFirst() && Slots == old(Slots)[1..]
      ensures |nodes| == old(|nodes|)
      ensures forall y :: 0 <= y < |nodes| ==> nodes[y].key == old(nodes[y].key) && nodes[y].value == old(nodes[y].value)
    {
      ghost var before := nodes;
      var victim := RemoveTail(Slots);
      RepresentsFrame(before, Slots, State, cache, nodes);
      RepresentsDropFirst(nodes, Slots, State, cache);
      assert nodes[victim].key == State.order[0];
      cache := cache - {nodes[victim].key};
      Slots := Slots[1..];
      LenIsOrderLength(State);
      State := State.PopFirst();
      LenIsOrderLength(State);
    }

    /** `get_all`: every key with its node's value, which is the abstract table. */
    method GetAll() returns (r: map<int, int>)
      requires Valid()
      ensures r == State.values
    {
      r := map k | k in cache :: nodes[cache[k]].value;
      assert r.Keys == State.values.Keys;
      forall k | k in r ensures r[k] == State.values[k] {
        assert nodes[cache[k]].value == State.values[k];
      }
    }
  }

  /** `ManualLRUCache(capacity)`: ValueError for a capacity of zero or less, else an empty cache. */
  method NewManualLruCache(capacity: int) returns (r: Result<ManualLruCache>)
    ensures capacity <= 0 ==> r == Err(ValueError)
    ensures capacity > 0 ==> (r.Ok? && fresh(r.value) && r.value.Valid() &&
      r.value.capacity == capacity && r.value.State == LruState([], map[]))
  {
    if capacity <= 0 {
      return Err(ValueError);
    }
    var c := new ManualLruCache(capacity);
    return Ok(c);
  }
}
