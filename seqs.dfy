/** Facts about sequences shared by the caches and the load balancer. */
module Seqs {

  /** No element occurs twice in `s`. */
  ghost predicate NoDups<T>(s: seq<T>)
  {
    forall i, j :: 0 <= i < j < |s| ==> s[i] != s[j]
  }

  /** Python's `list.remove(x)`: drops the first occurrence of `x`; here a no-op when `x` is absent. */
  function RemoveFirst<T(==)>(s: seq<T>, x: T): (r: seq<T>)
    ensures x !in s ==> r == s
    ensures x in s ==> |r| == |s| - 1
    ensures forall y :: y in r ==> y in s
    ensures forall y :: y in s && y != x ==> y in r
    ensures NoDups(s) ==> NoDups(r) && x !in r
  {
    if s == [] then []
    else if s[0] == x then s[1..]
    else
      NoDupsTail(s);
      [s[0]] + RemoveFirst(s[1..], x)
  }

  /** Dropping the first element keeps a sequence duplicate-free, and that element does not reappear. */
  lemma NoDupsTail<T>(s: seq<T>)
    requires |s| > 0
    ensures NoDups(s) ==> NoDups(s[1..]) && s[0] !in s[1..]
  {
    if NoDups(s) {
      forall i, j | 0 <= i < j < |s| - 1 ensures s[1..][i] != s[1..][j] { assert s[i + 1] != s[j + 1]; }
      forall j | 0 <= j < |s| - 1 ensures s[1..][j] != s[0] { assert s[j + 1] != s[0]; }
    }
  }

  /** Where `x` sits at index `i` and occurs nowhere before it, removing it splices the sequence at `i`. */
  lemma {:induction false} RemoveFirstAt<T>(s: seq<T>, x: T, i: int)
    requires 0 <= i < |s| && s[i] == x && x !in s[..i]
    ensures RemoveFirst(s, x) == s[..i] + s[i + 1..]
  {
    if i > 0 {
      assert s[1..][..i - 1] == s[1..i];
      RemoveFirstAt(s[1..], x, i - 1);
      assert s[1..][i..] == s[i + 1..];
    }
  }

  /** In a duplicate-free sequence every occurrence is the first one. */
  lemma RemoveFirstAtNoDups<T>(s: seq<T>, x: T, i: int)
    requires NoDups(s) && 0 <= i < |s| && s[i] == x
    ensures RemoveFirst(s, x) == s[..i] + s[i + 1..]
  {
    assert x !in s[..i] by {
      forall j | 0 <= j < i ensures s[..i][j] != x { assert s[j] != s[i]; }
    }
    RemoveFirstAt(s, x, i);
  }

  /** A duplicate-free sequence has as many elements as the set of its elements. */
  lemma {:induction false} CardOfNoDups<T>(s: seq<T>)
    requires NoDups(s)
    ensures |set x | x in s| == |s|
  {
    if s != [] {
      var rest := s[1..];
      NoDupsTail(s);
      CardOfNoDups(rest);
      assert (set x | x in s) == (set x | x in rest) + {s[0]};
    }
  }

  /** A map whose keys are exactly the elements of a duplicate-free sequence has that many entries. */
  lemma MapSizeOfKeys<K, V>(order: seq<K>, m: map<K, V>)
    requires NoDups(order)
    requires forall k :: k in order <==> k in m
    ensures |m| == |order|
  {
    CardOfNoDups(order);
    assert m.Keys == set x | x in order;
  }

  /** Moving the element at `i` to the end keeps the same elements. */
  lemma MovedToEndSameElements<T>(s: seq<T>, i: int)
    requires 0 <= i < |s|
    ensures forall y :: y in s[..i] + s[i + 1..] + [s[i]] <==> y in s
  {
    assert s == s[..i] + [s[i]] + s[i + 1..];
  }

  /** Where each element of `s` lands when element `i` is moved to the end. */
  lemma MovedToEndAt<T>(s: seq<T>, i: int, j: int)
    requires 0 <= i < |s| && 0 <= j < |s|
    ensures |s[..i] + s[i + 1..] + [s[i]]| == |s|
    ensures (s[..i] + s[i + 1..] + [s[i]])[j] == s[if j < i then j else if j < |s| - 1 then j + 1 else i]
  {
    var t := s[..i] + s[i + 1..];
    if j < i {
      assert t[j] == s[j];
    } else if j < |s| - 1 {
      assert t[j] == s[i + 1..][j - i];
    }
  }

  /** Dropping the first element loses only that element. */
  lemma DropFirstElements<T>(s: seq<T>)
    requires |s| > 0
    ensures forall y :: y in s <==> y == s[0] || y in s[1..]
  {
    assert s == [s[0]] + s[1..];
  }
}
