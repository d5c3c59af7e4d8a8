/** Ordering a list by a numeric key, largest key first: the shape of an
    `ORDER BY column DESC` clause, independent of what the rows are. */
module Ordering {

  /** The key never increases along `xs`. */
  predicate Descending<T>(key: T -> int, xs: seq<T>) {
    forall i, j :: 0 <= i < j < |xs| ==> key(xs[i]) >= key(xs[j])
  }

  /** No key in `xs` exceeds `bound`. */
  predicate AtMost<T>(key: T -> int, xs: seq<T>, bound: int) {
    forall i :: 0 <= i < |xs| ==> key(xs[i]) <= bound
  }

  /** Places `x` in front of the first element whose key is not larger than its own. */
  function Insert<T>(key: T -> int, x: T, xs: seq<T>): (r: seq<T>)
    ensures multiset(r) == multiset(xs) + multiset{x}
    ensures |r| == |xs| + 1
  {
    if |xs| == 0 then [x]
    else if key(x) >= key(xs[0]) then [x] + xs
    else
      assert xs == [xs[0]] + xs[1..];
      [xs[0]] + Insert(key, x, xs[1..])
  }

  /** Inserting an element under a bound keeps a list under it. */
  lemma {:induction false} InsertAtMost<T>(key: T -> int, x: T, xs: seq<T>, bound: int)
    requires AtMost(key, xs, bound) && key(x) <= bound
    ensures AtMost(key, Insert(key, x, xs), bound)
  {
    if |xs| > 0 && key(x) < key(xs[0]) {
      InsertAtMost(key, x, xs[1..], bound);
    }
  }

  /** A head no smaller than anything after it extends a descending list. */
  lemma ConsDescending<T>(key: T -> int, head: T, tail: seq<T>)
    requires Descending(key, tail) && AtMost(key, tail, key(head))
    ensures Descending(key, [head] + tail)
  {
  }

  /** Inserting into a descending list keeps it descending. */
  lemma {:induction false} InsertKeepsOrder<T>(key: T -> int, x: T, xs: seq<T>)
    requires Descending(key, xs)
    ensures Descending(key, Insert(key, x, xs))
  {
    if |xs| > 0 {
      if key(x) >= key(xs[0]) {
        ConsDescending(key, x, xs);
      } else {
        InsertKeepsOrder(key, x, xs[1..]);
        InsertAtMost(key, x, xs[1..], key(xs[0]));
        ConsDescending(key, xs[0], Insert(key, x, xs[1..]));
      }
    }
  }

  /** A permutation of `xs` in descending key order (insertion sort). Elements
      with equal keys keep their relative order. */
  function SortDescending<T>(key: T -> int, xs: seq<T>): (r: seq<T>)
    ensures Descending(key, r)
    ensures multiset(r) == multiset(xs)
    ensures |r| == |xs|
  {
    if |xs| == 0 then []
    else
      assert xs == [xs[0]] + xs[1..];
      var rest := SortDescending(key, xs[1..]);
      InsertKeepsOrder(key, xs[0], rest);
      Insert(key, xs[0], rest)
  }

  /** In a descending list, whatever lies past a cut has a key no larger than
      whatever lies before it. */
  lemma CutIsOrdered<T>(key: T -> int, xs: seq<T>, e: nat, x: T, y: T)
    requires Descending(key, xs)
    requires e <= |xs|
    requires x in xs[..e]
    requires y in xs && y !in xs[..e]
    ensures key(x) >= key(y)
  {
    var i :| 0 <= i < e && xs[..e][i] == x;
    var j :| 0 <= j < |xs| && xs[j] == y;
    assert forall k | 0 <= k < e :: xs[k] in xs[..e] by {
      forall k | 0 <= k < e ensures xs[k] in xs[..e] {
        assert xs[..e][k] == xs[k];
      }
    }
  }

  /** Any window of a descending list is descending, and holds only members of the list. */
  lemma WindowOfDescending<T>(key: T -> int, xs: seq<T>, lo: nat, hi: nat)
    requires Descending(key, xs)
    requires lo <= hi <= |xs|
    ensures Descending(key, xs[lo..hi])
    ensures forall x :: x in xs[lo..hi] ==> x in xs
  {
    forall k | 0 <= k < hi - lo ensures xs[lo..hi][k] == xs[lo + k] {
    }
  }

  /** A window holds each element at most as often as the whole list does. */
  lemma WindowMultiset<T>(xs: seq<T>, lo: nat, hi: nat)
    requires lo <= hi <= |xs|
    ensures multiset(xs[lo..hi]) <= multiset(xs)
  {
    assert xs == xs[..lo] + xs[lo..hi] + xs[hi..];
  }
}
