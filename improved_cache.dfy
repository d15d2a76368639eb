/**
 * `LRUCache` of the improved read/write cache: a doubly linked list with sentinels, a dict from
 * key to node and a `size` counter. `put` inserts first and evicts after when `size` exceeds the
 * capacity, which is never validated. The reader/writer lock is not modelled; `get` releases the
 * read lock before it takes the write lock, and the puts other threads complete in that gap
 * are a parameter.
 */
module ReadWriteImprovedCache {
  import opened Seqs
  import opened Errors
  import opened LruModel
  import opened LinkedList

  /** Every node off the list, sentinels aside, has both links cleared. */
  ghost predicate Detached(nodes: seq<Node>, slots: seq<int>)
  {
    forall y :: 2 <= y < |nodes| && y !in slots ==> nodes[y].prev == NIL && nodes[y].next == NIL
  }

  /**
   * The list, the dict and the abstract state agree, `size` counts the list's nodes, and a node
   * off the list has both links cleared.
   */
  ghost predicate Holds(nodes: seq<Node>, slots: seq<int>, st: LruState, index: map<int, int>, size: int)
  {
    Linked(nodes, slots) && st.Valid() && Represents(nodes, slots, st, index) &&
    size == |slots| && Detached(nodes, slots)
  }

  /**
   * What `_move_to_front` of the i-th node leaves: with links that list the node last, every key
   * and value kept and the nodes off the list detached, the cache holds its key as the most
   * recent, with the same number of entries.
   */
  lemma PromoteShape(nodes: seq<Node>, slots: seq<int>, st: LruState, index: map<int, int>, size: int, i: int, nodes': seq<Node>)
    requires Holds(nodes, slots, st, index, size) && 0 <= i < |slots| && |nodes'| == |nodes|
    requires Linked(nodes', slots[..i] + slots[i + 1..] + [slots[i]])
    requires Detached(nodes', slots[..i] + slots[i + 1..] + [slots[i]])
    requires forall y :: 0 <= y < |nodes| ==> nodes'[y].key == nodes[y].key && nodes'[y].value == nodes[y].value
    ensures st.order[i] in st.values
    ensures var k := st.order[i];
      Holds(nodes', slots[..i] + slots[i + 1..] + [slots[i]], st.Pop(k).Set(k, st.values[k]), index, size)
    ensures forall y :: y in slots[..i] + slots[i + 1..] + [slots[i]] ==> y in slots
  {
    var k := st.order[i];
    RepresentsPromote(nodes, slots, st, index, i, st.values[k], nodes');
    LenIsOrderLength(st);
    LenIsOrderLength(st.Pop(k).Set(k, st.values[k]));
    MovedToEndSameElements(slots, i);
  }

  /**
   * What the new-key branch of `put` leaves: with a node created for the key and linked right
   * after the head, every other node as it was or only relinked, the cache holds the key set to
   * the value, one entry more.
   */
  lemma AddShape(nodes: seq<Node>, slots: seq<int>, st: LruState, index: map<int, int>, size: int, k: int, v: int, nodes': seq<Node>)
    requires Holds(nodes, slots, st, index, size) && k !in index && |nodes'| == |nodes| + 1
    requires Linked(nodes', slots + [|nodes|]) && nodes'[|nodes|].key == k && nodes'[|nodes|].value == v
    requires forall y :: 0 <= y < |nodes| ==> nodes'[y].key == nodes[y].key && nodes'[y].value == nodes[y].value
    requires forall y :: 2 <= y < |nodes| && y !in slots ==> nodes'[y] == nodes[y]
    ensures Holds(nodes', slots + [|nodes|], st.Set(k, v), index[k := |nodes|], size + 1)
  {
    var x := |nodes|;
    RepresentsGrow(nodes, slots, st, index, Node(k, v, NIL, NIL));
    RepresentsFrame(nodes, slots, st, index, nodes');
    RepresentsAppend(nodes', slots, st, index, x, k, v);
    forall y | 2 <= y < |nodes'| && y !in slots + [x] ensures nodes'[y].prev == NIL && nodes'[y].next == NIL {
      assert y < x && y !in slots;
    }
  }

  /** Node `d` with both links cleared. */
  function Cleared(nodes: seq<Node>, d: int): (r: seq<Node>)
    requires 0 <= d < |nodes|
    ensures |r| == |nodes| && r[d] == nodes[d].(prev := NIL, next := NIL)
    ensures forall y :: 0 <= y < |nodes| && y != d ==> r[y] == nodes[y]
  {
    nodes[d := nodes[d].(prev := NIL, next := NIL)]
  }

  /**
   * What `_del_last_node` leaves: the least recent node bypassed and its links cleared, the other
   * nodes listed in order, every key and value kept, and every node off the list detached.
   */
  lemma DelLastShape(nodes: seq<Node>, slots: seq<int>)
    requires Linked(nodes, slots) && |slots| > 0
    ensures Walk(slots)[0] == TAIL && Walk(slots)[1] == slots[0] && Walk(slots)[2] != TAIL
    ensures nodes[TAIL].prev == slots[0] && nodes[slots[0]].prev == Walk(slots)[2]
    ensures 0 <= Walk(slots)[2] < |nodes| && 2 <= slots[0] < |nodes| && Walk(slots)[2] != slots[0]
    ensures var after := Cleared(Bypass(nodes, TAIL, Walk(slots)[2]), slots[0]);
      Linked(after, slots[1..]) &&
      (forall y :: 0 <= y < |nodes| ==> after[y].key == nodes[y].key && after[y].value == nodes[y].value) &&
      (Detached(nodes, slots) ==> Detached(after, slots[1..]))
  {
    var e := Walk(slots);
    Unlink(nodes, slots, 0);
    assert e[0] == TAIL;
    var bypassed := Bypass(nodes, e[0], e[2]);
    var after := Cleared(bypassed, slots[0]);
    assert slots[..0] + slots[1..] == slots[1..];
    assert slots[0] !in Walk(slots[1..]);
    Frame(bypassed, slots[1..], after);
    DropFirstElements(slots);
    if Detached(nodes, slots) {
      forall y | 2 <= y < |nodes| && y !in slots[1..] ensures after[y].prev == NIL && after[y].next == NIL {
        if y != slots[0] {
          assert y !in slots && y != e[0] && y != e[2];
        }
      }
    }
  }

  class LruCache {
    const capacity: int
    /** Every node created so far; a reference to a node is its index, HEAD and TAIL the sentinels. */
    var nodes: seq<Node>
    /** `self.nodeMap`: key to node. */
    var nodeMap: map<int, int>
    /** `self.size` */
    var size: int
    /** The list's data nodes, least recent (`tail.prev`) first. */
    ghost var Slots: seq<int>
    /** The abstract cache the list and the dict hold. */
    ghost var State: LruState

    /** The most entries the cache keeps: `capacity`, or none for a capacity below zero. */
    function Bound(): int
      reads this
    {
      if capacity < 0 then 0 else capacity
    }

    /** The list, the dict, `size` and the abstract state agree. */
    ghost predicate Shape()
      reads this
    {
      Holds(nodes, Slots, State, nodeMap, size)
    }

    ghost predicate Valid()
      reads this
    {
      Shape() && size <= Bound()
    }

    /** `__init__`: sentinels linked to each other, empty dict, size 0, any capacity. */
    constructor (capacity: int)
      ensures Valid() && this.capacity == capacity && State == LruState([], map[]) && size == 0
    {
      var sentinels := [Node(0, 0, NIL, NIL), Node(0, 0, NIL, NIL)];
      sentinels := sentinels[HEAD := sentinels[HEAD].(next := TAIL)];
      sentinels := sentinels[TAIL := sentinels[TAIL].(prev := HEAD)];
      nodes := sentinels;
      this.capacity := capacity;
      size := 0;
      nodeMap := map[];
      Slots := [];
      State := LruState([], map[]);
    }

    /** `_add_to_front`: link node `x`, not on the list, right after the head. */
    method AddToFront(x: int, ghost slots: seq<int>)
      requires Linked(nodes, slots) && 2 <= x < |nodes| && x !in slots
      modifies this
      ensures Linked(nodes, slots + [x])
      ensures |nodes| == old(|nodes|)
      ensures forall y :: 0 <= y < |nodes| ==> nodes[y].key == old(nodes[y].key) && nodes[y].value == old(nodes[y].value)
      ensures forall y :: 2 <= y < |nodes| && y != x && y !in slots ==> nodes[y] == old(nodes[y])
      ensures nodeMap == old(nodeMap) && size == old(size) && Slots == old(Slots) && State == old(State)
    {
      ghost var before := nodes;
      Append(nodes, slots, x);
      ghost var m := Walk(slots)[|slots|];
      nodes := nodes[x := nodes[x].(next := nodes[HEAD].next)];
      nodes := nodes[x := nodes[x].(prev := HEAD)];
      nodes := nodes[nodes[HEAD].next := nodes[nodes[HEAD].next].(prev := x)];
      nodes := nodes[HEAD := nodes[HEAD].(next := x)];
      assert nodes == Splice(before, x, m);
    }

    /**
     * `_move_to_front`: nothing to do when the node is already first; otherwise it is unlinked and
     * linked at the front. Either way it is the most recent and every other node keeps its place.
     */
    method MoveToFront(x: int, ghost slots: seq<int>, ghost i: int)
      requires Linked(nodes, slots) && 0 <= i < |slots| && slots[i] == x
      modifies this
      ensures Linked(nodes, slots[..i] + slots[i + 1..] + [x])
      ensures |nodes| == old(|nodes|)
      ensures forall y :: 0 <= y < |nodes| ==> nodes[y].key == old(nodes[y].key) && nodes[y].value == old(nodes[y].value)
      ensures Detached(old(nodes), slots) ==> Detached(nodes, slots[..i] + slots[i + 1..] + [x])
      ensures i == |slots| - 1 ==> nodes == old(nodes)
      ensures nodeMap == old(nodeMap) && size == old(size) && Slots == old(Slots) && State == old(State)
    {
      ghost var before := nodes;
      ghost var e := Walk(slots);
      Unlink(nodes, slots, i);
      assert 2 <= x;
      if nodes[x].prev == HEAD {
        assert e[i + 2] == e[|slots| + 1] by { WalkNoDups(nodes, slots); }
        assert slots[..i] + slots[i + 1..] + [x] == slots;
        return;
      }
      var prevNode := nodes[x].prev;
      var nextNode := nodes[x].next;
      nodes := nodes[prevNode := nodes[prevNode].(next := nextNode)];
      nodes := nodes[nextNode := nodes[nextNode].(prev := prevNode)];
      assert nodes == Bypass(before, e[i], e[i + 2]);
      ghost var rest := slots[..i] + slots[i + 1..];
      AddToFront(x, rest);
      MovedToEndSameElements(slots, i);
      if Detached(before, slots) {
        forall y | 2 <= y < |nodes| && y !in rest + [x] ensures nodes[y].prev == NIL && nodes[y].next == NIL {
          assert y !in rest && y !in slots;
        }
      }
    }

    /** `_del_last_node`: unlink the node before the tail, clear its links and return it. */
    method DelLastNode(ghost slots: seq<int>) returns (d: int)
      requires Linked(nodes, slots) && |slots| > 0
      modifies this
      ensures d == slots[0] && Linked(nodes, slots[1..]) && 0 <= d < |nodes|
      ensures nodes[d].prev == NIL && nodes[d].next == NIL
      ensures |nodes| == old(|nodes|)
      ensures forall y :: 0 <= y < |nodes| ==> nodes[y].key == old(nodes[y].key) && nodes[y].value == old(nodes[y].value)
      ensures Detached(old(nodes), slots) ==> Detached(nodes, slots[1..])
      ensures nodeMap == old(nodeMap) && size == old(size) && Slots == old(Slots) && State == old(State)
    {
      DelLastShape(nodes, slots);
      ghost var target := Cleared(Bypass(nodes, TAIL, Walk(slots)[2]), slots[0]);
      d := nodes[TAIL].prev;
      nodes := nodes[nodes[d].prev := nodes[nodes[d].prev].(next := TAIL)];
      nodes := nodes[TAIL := nodes[TAIL].(prev := nodes[d].prev)];
      nodes := nodes[d := nodes[d].(prev := NIL)];
      nodes := nodes[d := nodes[d].(next := NIL)];
      assert nodes == target;
    }

    /**
     * `put`: an existing node gets the new value and moves to the front; a new key gets a new node
     * at the front and `size` grows. Then, when `size` exceeds the capacity, the last node is
     * evicted. A surviving key keeps its node, the list only gains the node just created, and a
     * created node keeps its key.
     */
    method Put(key: int, value: int)
      requires Valid()
      modifies this
      ensures Valid() && State == PutEvictLast(old(State), capacity, key, value)
      ensures |nodes| >= old(|nodes|)
      ensures forall y :: 0 <= y < old(|nodes|) ==> nodes[y].key == old(nodes[y].key)
      ensures forall y :: y in Slots ==> y in old(Slots) || y == old(|nodes|)
      ensures forall k :: k in nodeMap && k in old(nodeMap) ==> nodeMap[k] == old(nodeMap[k])
    {
      ghost var c := State;
      LenIsOrderLength(State);
      Insert(key, value);
      ghost var c1 := State;
      LenIsOrderLength(State);
      assert size == c1.Len();
      if size > capacity {
        EvictLast();
      }
      assert State == PutEvictLast(c, capacity, key, value);
      PutEvictLastBounded(c, capacity, key, value);
      LenIsOrderLength(State);
    }

    /**
     * The first half of `put`: an existing key's node gets the value and moves to the front, a new
     * key gets a new node at the front. Surviving keys keep their nodes and the list gains at most
     * the node just created.
     */
    method Insert(key: int, value: int)
      requires Valid()
      modifies this
      ensures Shape() && size <= Bound() + 1
      ensures State == if key in old(State.values) then old(State).Pop(key).Set(key, value) else old(State).Set(key, value)
      ensures |nodes| >= old(|nodes|)
      ensures forall y :: 0 <= y < old(|nodes|) ==> nodes[y].key == old(nodes[y].key)
      ensures forall y :: y in Slots ==> y in old(Slots) || y == old(|nodes|)
      ensures forall k :: k in nodeMap && k in old(nodeMap) ==> nodeMap[k] == old(nodeMap[k])
    {
      if key in nodeMap {
        UpdateNode(key, value);
      } else {
        AddNode(key, value);
      }
    }

    /** The existing-key branch of `put`: new value, node moved to the front, size unchanged. */
    method UpdateNode(key: int, value: int)
      requires Valid() && key in nodeMap
      modifies this
      ensures Valid() && key in old(State.values) && State == old(State).Pop(key).Set(key, value)
      ensures |nodes| == old(|nodes|) && size == old(size) && nodeMap == old(nodeMap)
      ensures forall y :: 0 <= y < |nodes| ==> nodes[y].key == old(nodes[y].key)
      ensures forall y :: y in Slots ==> y in old(Slots)
    {
      ghost var c := State;
      var node := nodeMap[key];
      SetValue(key, value);
      Promote(node, key);
      AfterGetOfSet(c, key, value);
    }

    /** `node.value = value` on the key's node: the table gets the new value and the order stays. */
    method SetValue(key: int, value: int)
      requires Valid() && key in nodeMap
      modifies this
      ensures Valid() && key in old(State.values) && State == old(State).Set(key, value)
      ensures |nodes| == old(|nodes|) && size == old(size) && nodeMap == old(nodeMap) && Slots == old(Slots)
      ensures forall y :: 0 <= y < |nodes| ==> nodes[y].key == old(nodes[y].key)
    {
      var node := nodeMap[key];
      ghost var before := nodes;
      RepresentsSetValue(nodes, Slots, State, nodeMap, key, value);
      nodes := nodes[node := nodes[node].(value := value)];
      forall y | 2 <= y < |nodes| && y !in Slots ensures nodes[y] == before[y] {
        assert y != node;
      }
      State := State.Set(key, value);
    }

    /** The new-key branch of `put`: a new node linked at the front, entered in the dict, `size` one more. */
    method AddNode(key: int, value: int)
      requires Valid() && key !in nodeMap
      modifies this
      ensures Shape() && key !in old(State.values) && State == old(State).Set(key, value)
      ensures size == old(size) + 1 && size <= Bound() + 1
      ensures |nodes| == old(|nodes|) + 1
      ensures forall y :: 0 <= y < old(|nodes|) ==> nodes[y].key == old(nodes[y].key)
      ensures Slots == old(Slots) + [old(|nodes|)] && nodeMap == old(nodeMap)[key := old(|nodes|)]
    {
      ghost var before := nodes;
      RepresentsGrow(nodes, Slots, State, nodeMap, Node(key, value, NIL, NIL));
      var node := |nodes|;
      nodes := nodes + [Node(key, value, NIL, NIL)];
      AddToFront(node, Slots);
      AddShape(before, Slots, State, nodeMap, size, key, value, nodes);
      nodeMap := nodeMap[key := node];
      size := size + 1;
      Slots := Slots + [node];
      State := State.Set(key, value);
    }

    /** The eviction of `put`: the last node leaves the list and its key the dict, `size` one less. */
    method EvictLast()
      requires Shape() && size > 0
      modifies this
      ensures Shape() && State == old(State).PopFirst() && size == old(size) - 1
      ensures |nodes| == old(|nodes|)
      ensures forall y :: 0 <= y < |nodes| ==> nodes[y].key == old(nodes[y].key)
      ensures forall y :: y in Slots ==> y in old(Slots)
      ensures forall k :: k in nodeMap ==> k in old(nodeMap) && nodeMap[k] == old(nodeMap[k])
    {
      ghost var before := nodes;
      var delNode := DelLastNode(Slots);
      RepresentsFrame(before, Slots, State, nodeMap, nodes);
      RepresentsDropFirst(nodes, Slots, State, nodeMap);
      assert nodes[delNode].key == State.order[0];
      NoDupsTail(Slots);
      DropFirstElements(Slots);
      nodeMap := nodeMap - {nodes[delNode].key};
      size := size - 1;
      Slots := Slots[1..];
      State := State.PopFirst();
    }

    /**
     * The puts other threads complete while `get` holds neither lock, and what they leave of the
     * node `node` that `get` found for `key`: it still holds the key if the key stayed throughout,
     * and it is off the list otherwise.
     */
    method OtherThreadsPut(raced: seq<(int, int)>, key: int, ghost node: int)
      requires Valid() && key in nodeMap && nodeMap[key] == node
      modifies this
      ensures Valid() && State == PutAllLast(old(State), capacity, raced)
      ensures 2 <= node < |nodes| && nodes[node].key == key
      ensures StaysThrough(old(State), capacity, key, raced) ==> key in nodeMap && nodeMap[key] == node
      ensures !StaysThrough(old(State), capacity, key, raced) ==> node !in Slots
    {
      ghost var c := State;
      assert key in State.order;
      assert 2 <= node by { ghost var i :| 0 <= i < |Slots| && State.order[i] == key; }
      for w := 0 to |raced|
        invariant Valid() && State == PutAllLast(c, capacity, raced[..w])
        invariant 2 <= node < |nodes| && nodes[node].key == key
        invariant StaysThrough(c, capacity, key, raced[..w]) ==> key in nodeMap && nodeMap[key] == node
        invariant !StaysThrough(c, capacity, key, raced[..w]) ==> node !in Slots
      {
        PutAllLastStep(c, capacity, key, raced, w);
        Put(raced[w].0, raced[w].1);
        if node in Slots {
          ghost var j :| 0 <= j < |Slots| && Slots[j] == node;
          assert State.order[j] == key;
        }
      }
      assert raced[..|raced|] == raced;
    }

    /**
     * `get` as written: a miss under the read lock returns -1; a hit keeps the node, `raced` are
     * the puts other threads complete before the write lock is held, and the node is then moved
     * to the front and its value returned, with no second look-up. A node evicted in the gap has
     * no `prev`, and `_move_to_front` raises AttributeError on it.
     */
    method Get(key: int, raced: seq<(int, int)>) returns (r: Result<int>)
      requires Valid()
      modifies this
      ensures Valid()
      ensures (r, State) == EscalatedGet(old(State), capacity, key, raced)
    {
      if key !in nodeMap {
        return Ok(MISS);
      }
      var node := nodeMap[key];
      ghost var c := State;
      OtherThreadsPut(raced, key, node);
      if StaysThrough(c, capacity, key, raced) {
        // the node is still on the list, so its `prev` is a node
        ListedPrev(nodes, Slots, State, nodeMap, key);
      }
      if nodes[node].prev == NIL {
        // `prevNode.next` inside `_move_to_front`, with `prevNode` None
        return Err(AttributeError);
      }
      var v := WriteSection(node, key);
      r := Ok(v);
    }

    /**
     * `get` with the look-up repeated once the write lock is held: a key gone by then is a miss,
     * and otherwise the node the dict holds now is moved to the front.
     */
    method GetRechecked(key: int, raced: seq<(int, int)>) returns (r: int)
      requires Valid()
      modifies this
      ensures Valid()
      ensures (r, State) == RecheckedGet(old(State), capacity, key, raced)
    {
      if key !in nodeMap {
        return MISS;
      }
      OtherThreadsPut(raced, key, nodeMap[key]);
      if key !in nodeMap {
        return MISS;
      }
      var node := nodeMap[key];
      r := WriteSection(node, key);
    }

    /** The write section of `get`: `_move_to_front` of the key's node, then its value. */
    method WriteSection(node: int, ghost key: int) returns (v: int)
      requires Valid() && key in nodeMap && nodeMap[key] == node
      modifies this
      ensures Valid() && key in old(State.values) && v == old(State.values[key])
      ensures State == AfterGet(old(State), key)
    {
      Promote(node, key);
      v := nodes[node].value;
    }

    /** `_move_to_front` of the key's node: the key becomes the most recent, its node unchanged otherwise. */
    method Promote(node: int, ghost key: int)
      requires Valid() && key in nodeMap && nodeMap[key] == node
      modifies this
      ensures Valid() && key in old(State.values) && State == AfterGet(old(State), key)
      ensures key in nodeMap && nodeMap[key] == node && 0 <= node < |nodes| && nodes[node].value == State.values[key]
      ensures |nodes| == old(|nodes|) && size == old(size) && nodeMap == old(nodeMap)
      ensures forall y :: 0 <= y < |nodes| ==> nodes[y].key == old(nodes[y].key)
      ensures forall y :: y in Slots ==> y in old(Slots)
    {
      assert key in State.order;
      ghost var i :| 0 <= i < |Slots| && State.order[i] == key;
      ghost var before := nodes;
      MoveToFront(node, Slots, i);
      PromoteShape(before, Slots, State, nodeMap, size, i, nodes);
      Slots := Slots[..i] + Slots[i + 1..] + [node];
      State := State.Pop(key).Set(key, State.values[key]);
    }
  }
}
