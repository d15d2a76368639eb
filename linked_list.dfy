/**
 * The doubly linked list with head and tail sentinels behind the two node-based caches,
 * as an arena: every node ever created keeps its slot in a sequence that only grows, so a
 * slot number is a node's identity, and its `prev`/`next` references are slot numbers (NIL
 * for Python's None). Slot HEAD is the head sentinel, slot TAIL the tail
 * sentinel; the most recently used node sits right after the head.
 *
 * The list is described by the slots of its data nodes listed LEAST recent first, which
 * is the order of the abstract LRU state: walking `prev` from the tail meets
 * Walk(slots) = [TAIL] + slots + [HEAD], walking `next` from the head meets it backwards.
 */
module LinkedList {
  import opened Seqs
  import opened LruModel

  const HEAD: int := 0
  const TAIL: int := 1
  const NIL: int := -1

  /** Python's `Node`: key, value and the two links. */
  datatype Node = Node(key: int, value: int, prev: int, next: int)

  function Walk(slots: seq<int>): seq<int>
  {
    [TAIL] + slots + [HEAD]
  }

  /** Consecutive elements of `e` are linked both ways: `prev` leads one step right, `next` one step left. */
  ghost predicate Chain(nodes: seq<Node>, e: seq<int>)
  {
    (forall j :: 0 <= j < |e| ==> 0 <= e[j] < |nodes|) &&
    (forall j :: 0 <= j < |e| - 1 ==> nodes[e[j]].prev == e[j + 1] && nodes[e[j + 1]].next == e[j])
  }

  /** `slots` are distinct data slots and the sentinels with them form one list. */
  ghost predicate Linked(nodes: seq<Node>, slots: seq<int>)
  {
    NoDups(slots) && (forall j :: 0 <= j < |slots| ==> 2 <= slots[j]) && Chain(nodes, Walk(slots))
  }

  /** No slot occurs twice on the walk, sentinels included. */
  lemma WalkNoDups(nodes: seq<Node>, slots: seq<int>)
    requires Linked(nodes, slots)
    ensures NoDups(Walk(slots))
  {
    var e := Walk(slots);
    forall p, q | 0 <= p < q < |e| ensures e[p] != e[q] {
      if 0 < p && q < |e| - 1 {
        assert e[p] == slots[p - 1] && e[q] == slots[q - 1];
      } else if 0 < p {
        assert e[p] == slots[p - 1];
      } else if q < |e| - 1 {
        assert e[q] == slots[q - 1];
      }
    }
  }

  /**
   * The links `_remove_node` rewrites for a node whose `next` is `a` and whose `prev` is `b`:
   * `b.next = a` and `a.prev = b`. Every other link, and every key and value, stays.
   */
  function Bypass(nodes: seq<Node>, a: int, b: int): (r: seq<Node>)
    requires 0 <= a < |nodes| && 0 <= b < |nodes| && a != b
    ensures |r| == |nodes|
    ensures r[a] == nodes[a].(prev := b) && r[b] == nodes[b].(next := a)
    ensures forall y :: 0 <= y < |nodes| && y != a && y != b ==> r[y] == nodes[y]
    ensures forall y :: 0 <= y < |nodes| ==> r[y].key == nodes[y].key && r[y].value == nodes[y].value
  {
    nodes[b := nodes[b].(next := a)][a := nodes[a].(prev := b)]
  }

  /**
   * The links `_add_to_head` rewrites to put node `x` between the head and `m`, the node that
   * was first: `x.prev = head`, `x.next = m`, `m.prev = x`, `head.next = x`.
   */
  function Splice(nodes: seq<Node>, x: int, m: int): (r: seq<Node>)
    requires 0 <= x < |nodes| && 0 <= m < |nodes| && x != m && x != HEAD && m != HEAD
    ensures |r| == |nodes|
    ensures r[x] == nodes[x].(prev := HEAD, next := m) && r[m] == nodes[m].(prev := x)
    ensures r[HEAD] == nodes[HEAD].(next := x)
    ensures forall y :: 0 <= y < |nodes| && y != x && y != m && y != HEAD ==> r[y] == nodes[y]
    ensures forall y :: 0 <= y < |nodes| ==> r[y].key == nodes[y].key && r[y].value == nodes[y].value
  {
    nodes[x := nodes[x].(prev := HEAD, next := m)][m := nodes[m].(prev := x)][HEAD := nodes[HEAD].(next := x)]
  }

  /**
   * Dropping index `i` from distinct data slots leaves distinct data slots without `slots[i]`,
   * and the walk loses exactly its element `i + 1`.
   */
  lemma RemoveAt(slots: seq<int>, i: int)
    requires NoDups(slots) && (forall j :: 0 <= j < |slots| ==> 2 <= slots[j]) && 0 <= i < |slots|
    ensures var rest := slots[..i] + slots[i + 1..];
      NoDups(rest) && (forall j :: 0 <= j < |rest| ==> 2 <= rest[j]) && slots[i] !in rest &&
      Walk(rest) == Walk(slots)[..i + 1] + Walk(slots)[i + 2..]
  {
    var rest := slots[..i] + slots[i + 1..];
    forall j | 0 <= j < |rest| ensures 2 <= rest[j] && rest[j] != slots[i] {
      if j < i { assert rest[j] == slots[j]; } else { assert rest[j] == slots[j + 1]; }
    }
    forall p, q | 0 <= p < q < |rest| ensures rest[p] != rest[q] {
      var p' := if p < i then p else p + 1;
      var q' := if q < i then q else q + 1;
      assert rest[p] == slots[p'] && rest[q] == slots[q'];
    }
  }

  /**
   * Unlinking the slot at index `i`: its two neighbours on the walk are linked to each other
   * and the result lists the other slots in their old order.
   */
  lemma Unlink(nodes: seq<Node>, slots: seq<int>, i: int)
    requires Linked(nodes, slots) && 0 <= i < |slots|
    ensures Walk(slots)[i + 1] == slots[i]
    ensures Walk(slots)[i] != slots[i] && Walk(slots)[i + 2] != slots[i] && Walk(slots)[i] != Walk(slots)[i + 2]
    ensures nodes[slots[i]].prev == Walk(slots)[i + 2] && nodes[slots[i]].next == Walk(slots)[i]
    ensures (Walk(slots)[i] == TAIL || Walk(slots)[i] in slots) && (Walk(slots)[i + 2] == HEAD || Walk(slots)[i + 2] in slots)
    ensures Linked(Bypass(nodes, Walk(slots)[i], Walk(slots)[i + 2]), slots[..i] + slots[i + 1..])
    ensures slots[i] !in slots[..i] + slots[i + 1..]
  {
    WalkNoDups(nodes, slots);
    RemoveAt(slots, i);
    var e := Walk(slots);
    assert e[i + 1] == slots[i];
    assert e[i] == TAIL || e[i] == slots[i - 1];
    assert e[i + 2] == HEAD || e[i + 2] == slots[i + 1];
    var nodes' := Bypass(nodes, e[i], e[i + 2]);
    var e' := Walk(slots[..i] + slots[i + 1..]);
    forall j | 0 <= j < |e'| ensures 0 <= e'[j] < |nodes'| {
      if j <= i { assert e'[j] == e[j]; } else { assert e'[j] == e[j + 1]; }
    }
    forall j | 0 <= j < |e'| - 1 ensures nodes'[e'[j]].prev == e'[j + 1] && nodes'[e'[j + 1]].next == e'[j] {
      if j < i {
        assert e'[j] == e[j] && e'[j + 1] == e[j + 1];
        assert e[j] != e[i] && e[j + 1] != e[i + 2];
      } else if j == i {
        assert e'[j] == e[i] && e'[j + 1] == e[i + 2];
      } else {
        assert e'[j] == e[j + 1] && e'[j + 1] == e[j + 2];
        assert e[j + 1] != e[i] && e[j + 2] != e[i + 2];
      }
    }
  }

  /**
   * `_add_to_head` of a slot not on the list: it is linked between the head sentinel and the
   * node that was first, so it becomes the most recent.
   */
  lemma Append(nodes: seq<Node>, slots: seq<int>, x: int)
    requires Linked(nodes, slots) && 2 <= x < |nodes| && x !in slots
    ensures nodes[HEAD].next == Walk(slots)[|slots|]
    ensures 0 <= Walk(slots)[|slots|] < |nodes| && Walk(slots)[|slots|] != x && Walk(slots)[|slots|] != HEAD
    ensures Walk(slots)[|slots|] == TAIL || Walk(slots)[|slots|] in slots
    ensures Linked(Splice(nodes, x, Walk(slots)[|slots|]), slots + [x])
  {
    WalkNoDups(nodes, slots);
    var n := |slots|;
    var e, e' := Walk(slots), Walk(slots + [x]);
    assert e[n + 1] == HEAD;
    assert e[n] == TAIL || e[n] == slots[n - 1];
    var m := e[n];
    var nodes' := Splice(nodes, x, m);
    assert e' == e[..n + 1] + [x, HEAD];
    forall p, q | 0 <= p < q < n + 1 ensures (slots + [x])[p] != (slots + [x])[q] {
      if q < n { assert slots[p] != slots[q]; } else { assert (slots + [x])[p] == slots[p]; }
    }
    forall j | 0 <= j < n + 1 ensures 2 <= (slots + [x])[j] {
      if j < n { assert (slots + [x])[j] == slots[j]; }
    }
    forall j | 0 <= j < |e'| ensures 0 <= e'[j] < |nodes'| {
      if j <= n { assert e'[j] == e[j]; }
    }
    forall j | 0 <= j < |e'| - 1 ensures nodes'[e'[j]].prev == e'[j + 1] && nodes'[e'[j + 1]].next == e'[j] {
      if j < n {
        assert e'[j] == e[j] && e'[j + 1] == e[j + 1];
        assert e[j] != m && e[j] != x && e[j] != HEAD && e[j + 1] != x && e[j + 1] != HEAD;
      } else if j == n {
        assert e'[j] == m && e'[j + 1] == x;
      } else {
        assert e'[j] == x && e'[j + 1] == HEAD;
      }
    }
  }

  /** Growing the arena, or changing only what is off the walk or only keys and values, leaves the list as it was. */
  lemma Frame(nodes: seq<Node>, slots: seq<int>, nodes': seq<Node>)
    requires Linked(nodes, slots) && |nodes| <= |nodes'|
    requires forall y :: 0 <= y < |nodes| && y in Walk(slots) ==>
      nodes'[y].prev == nodes[y].prev && nodes'[y].next == nodes[y].next
    ensures Linked(nodes', slots)
  {
    var e := Walk(slots);
    forall j | 0 <= j < |e| - 1 ensures nodes'[e[j]].prev == e[j + 1] && nodes'[e[j + 1]].next == e[j] {
      assert e[j] in e && e[j + 1] in e;
    }
  }

  /** The slot reached from `x` by following `next` `steps` times (NIL once it leaves the arena). */
  function FollowNext(nodes: seq<Node>, x: int, steps: nat): int
  {
    if steps == 0 then x
    else
      var y := FollowNext(nodes, x, steps - 1);
      if 0 <= y < |nodes| then nodes[y].next else NIL
  }

  /**
   * Walking `next` from the head visits the data slots most recent first, each once, and reaches
   * the tail after all of them.
   */
  lemma {:induction false} WalkFromHead(nodes: seq<Node>, slots: seq<int>, j: nat)
    requires Linked(nodes, slots) && j <= |slots| + 1
    ensures FollowNext(nodes, HEAD, j) == Walk(slots)[|slots| + 1 - j]
  {
    if j > 0 {
      WalkFromHead(nodes, slots, j - 1);
      var e := Walk(slots);
      var p := |slots| + 1 - j;
      assert nodes[e[p + 1]].next == e[p];
    }
  }

  // ---------------------------------------------------------------------------
  // The key table: the list and the dict from key to node hold the abstract state

  /**
   * `slots[j]` is the node of key `st.order[j]`, and `index` (the dict from key to node) maps
   * each key to a node carrying that key and its value.
   */
  ghost predicate Represents(nodes: seq<Node>, slots: seq<int>, st: LruState, index: map<int, int>)
  {
    |slots| == |st.order| && index.Keys == st.values.Keys &&
    (forall j :: 0 <= j < |slots| ==> 0 <= slots[j] < |nodes| && st.order[j] in index && index[st.order[j]] == slots[j]) &&
    (forall k :: k in index ==>
      0 <= index[k] < |nodes| && nodes[index[k]].key == k && k in st.values && nodes[index[k]].value == st.values[k])
  }

  /** Growing the arena or rewriting links, keeping every key and value, keeps the representation. */
  lemma RepresentsFrame(nodes: seq<Node>, slots: seq<int>, st: LruState, index: map<int, int>, nodes': seq<Node>)
    requires Represents(nodes, slots, st, index) && |nodes| <= |nodes'|
    requires forall y :: 0 <= y < |nodes| ==> nodes'[y].key == nodes[y].key && nodes'[y].value == nodes[y].value
    ensures Represents(nodes', slots, st, index)
  {
  }

  /**
   * Promoting the key at index `i` with value `v` — its node moved to the most recent end and
   * given value `v` — represents popping the key and setting it again.
   */
  lemma RepresentsPromote(nodes: seq<Node>, slots: seq<int>, st: LruState, index: map<int, int>, i: int, v: int, nodes': seq<Node>)
    requires st.Valid() && Represents(nodes, slots, st, index) && 0 <= i < |slots| && |nodes| <= |nodes'|
    requires forall y :: 0 <= y < |nodes| ==> nodes'[y].key == nodes[y].key
    requires forall y :: 0 <= y < |nodes| && y != slots[i] ==> nodes'[y].value == nodes[y].value
    requires nodes'[slots[i]].value == v
    ensures st.order[i] in st.values
    ensures var k := st.order[i];
      Represents(nodes', slots[..i] + slots[i + 1..] + [slots[i]], st.Pop(k).Set(k, v), index)
  {
    var k := st.order[i];
    assert k in st.order;
    RemoveFirstAtNoDups(st.order, k, i);
    var st' := st.Pop(k).Set(k, v);
    assert st'.order == st.order[..i] + st.order[i + 1..] + [k];
    assert st'.values == st.values[k := v];
    var slots' := slots[..i] + slots[i + 1..] + [slots[i]];
    forall j | 0 <= j < |slots'| ensures 0 <= slots'[j] < |nodes'| && st'.order[j] in index && index[st'.order[j]] == slots'[j] {
      MovedToEndAt(slots, i, j);
      MovedToEndAt(st.order, i, j);
    }
    forall k' | k' in index ensures nodes'[index[k']].value == st'.values[k'] {
      if k' != k {
        assert nodes[index[k']].key != nodes[slots[i]].key;
      }
    }
  }

  /** Creating a node at the end of the arena keeps the list and the representation; the new node is off the list. */
  lemma RepresentsGrow(nodes: seq<Node>, slots: seq<int>, st: LruState, index: map<int, int>, n: Node)
    requires Linked(nodes, slots) && Represents(nodes, slots, st, index)
    ensures Linked(nodes + [n], slots) && Represents(nodes + [n], slots, st, index)
    ensures 2 <= |nodes| && |nodes| !in slots
  {
    assert Walk(slots)[0] == TAIL;
    Frame(nodes, slots, nodes + [n]);
    RepresentsFrame(nodes, slots, st, index, nodes + [n]);
  }

  /** A present key's node is on the list, so it has a node before it. */
  lemma ListedPrev(nodes: seq<Node>, slots: seq<int>, st: LruState, index: map<int, int>, k: int)
    requires Linked(nodes, slots) && st.Valid() && Represents(nodes, slots, st, index) && k in index
    ensures index[k] in slots && 0 <= index[k] < |nodes| && nodes[index[k]].prev != NIL
  {
    assert k in st.order;
    var i :| 0 <= i < |slots| && st.order[i] == k;
    Unlink(nodes, slots, i);
  }

  /**
   * Storing a new value in a present key's node keeps the list, changes no other node and
   * represents setting that key.
   */
  lemma RepresentsSetValue(nodes: seq<Node>, slots: seq<int>, st: LruState, index: map<int, int>, k: int, v: int)
    requires Linked(nodes, slots) && st.Valid() && Represents(nodes, slots, st, index) && k in index
    ensures index[k] in slots && 0 <= index[k] < |nodes|
    ensures var nodes' := nodes[index[k] := nodes[index[k]].(value := v)];
      Linked(nodes', slots) && Represents(nodes', slots, st.Set(k, v), index) && st.Set(k, v).Len() == st.Len()
  {
    var x := index[k];
    assert k in st.order;
    var i :| 0 <= i < |slots| && st.order[i] == k;
    assert slots[i] == x;
    var nodes' := nodes[x := nodes[x].(value := v)];
    Frame(nodes, slots, nodes');
    forall k' | k' in index ensures nodes'[index[k']].value == st.values[k := v][k'] {
      if k' != k {
        assert nodes[index[k']].key != nodes[x].key;
      }
    }
    assert st.values[k := v].Keys == st.values.Keys;
  }

  /** Dropping the least recent node and its key represents `popitem(last=False)`. */
  lemma RepresentsDropFirst(nodes: seq<Node>, slots: seq<int>, st: LruState, index: map<int, int>)
    requires st.Valid() && Represents(nodes, slots, st, index) && |slots| > 0
    ensures Represents(nodes, slots[1..], st.PopFirst(), index - {st.order[0]})
  {
    var k := st.order[0];
    forall j | 1 <= j < |slots| ensures st.order[j] != k {
      assert st.order[0] != st.order[j];
    }
  }

  /** Adding a node for a new key at the most recent end represents setting that key. */
  lemma RepresentsAppend(nodes: seq<Node>, slots: seq<int>, st: LruState, index: map<int, int>, x: int, k: int, v: int)
    requires st.Valid() && Represents(nodes, slots, st, index) && k !in st.values
    requires 0 <= x < |nodes| && nodes[x].key == k && nodes[x].value == v
    ensures Represents(nodes, slots + [x], st.Set(k, v), index[k := x])
  {
    var st' := st.Set(k, v);
    assert st'.order == st.order + [k];
    forall j | 0 <= j < |slots| ensures st.order[j] != k {
      assert st.order[j] in st.values;
    }
  }

  /** The node `j` steps along `next` from the head is the `j`-th most recent. */
  lemma ListKeyAt(nodes: seq<Node>, slots: seq<int>, st: LruState, index: map<int, int>, j: nat)
    requires Linked(nodes, slots) && Represents(nodes, slots, st, index) && 1 <= j <= |slots|
    ensures 0 <= FollowNext(nodes, HEAD, j) < |nodes| && nodes[FollowNext(nodes, HEAD, j)].key == st.order[|slots| - j]
  {
    var n := |slots|;
    WalkFromHead(nodes, slots, j);
    assert Walk(slots)[n + 1 - j] == slots[n - j];
    assert index[st.order[n - j]] == slots[n - j];
  }

  /**
   * Walking `next` from the head meets the keys of the cache most recent first, each once
   * (the keys are distinct), and the tail right after the least recent.
   */
  lemma ListOrder(nodes: seq<Node>, slots: seq<int>, st: LruState, index: map<int, int>)
    requires Linked(nodes, slots) && Represents(nodes, slots, st, index)
    ensures FollowNext(nodes, HEAD, |slots| + 1) == TAIL
    ensures forall j :: 1 <= j <= |slots| ==>
      0 <= FollowNext(nodes, HEAD, j) < |nodes| && nodes[FollowNext(nodes, HEAD, j)].key == st.order[|slots| - j]
  {
    WalkFromHead(nodes, slots, |slots| + 1);
    forall j | 1 <= j <= |slots| ensures
      0 <= FollowNext(nodes, HEAD, j) < |nodes| && nodes[FollowNext(nodes, HEAD, j)].key == st.order[|slots| - j]
    {
      ListKeyAt(nodes, slots, st, index, j);
    }
  }
}
