/**
  Sorting a sequence by an integer key, ascending or descending: the model of
  both a SQL `ORDER BY ... DESC` and a JavaScript `Array.prototype.sort` whose
  comparator subtracts keys.
 */
module Ordering {

  /** `a` may come before `b` in the requested direction. */
  predicate InOrder(a: int, b: int, descending: bool)
  {
    if descending then a >= b else a <= b
  }

  /** Every earlier element's key is in order with every later one's. */
  predicate Sorted<T>(xs: seq<T>, key: T -> int, descending: bool)
  {
    forall i, j :: 0 <= i < j < |xs| ==> InOrder(key(xs[i]), key(xs[j]), descending)
  }

  /** `a` must come strictly before `b`: its key is in order and differs. */
  predicate StrictlyBefore(a: int, b: int, descending: bool)
  {
    InOrder(a, b, descending) && a != b
  }

  /** Insert `x` in front of the first element of `xs` that does not belong strictly before it. */
  function Insert<T>(x: T, xs: seq<T>, key: T -> int, descending: bool): (r: seq<T>)
    ensures |r| == |xs| + 1
    ensures multiset(r) == multiset(xs) + multiset{x}
    ensures forall i :: 0 <= i < |r| ==> r[i] == x || r[i] in xs
  {
    if |xs| == 0 || !StrictlyBefore(key(xs[0]), key(x), descending) then
      [x] + xs
    else
      assert xs == [xs[0]] + xs[1..];
      [xs[0]] + Insert(x, xs[1..], key, descending)
  }

  /** Inserting into a sorted sequence keeps it sorted. */
  lemma {:induction false} InsertSorted<T>(x: T, xs: seq<T>, key: T -> int, descending: bool)
    requires Sorted(xs, key, descending)
    ensures Sorted(Insert(x, xs, key, descending), key, descending)
  {
    var r := Insert(x, xs, key, descending);
    if |xs| == 0 {
    } else if !StrictlyBefore(key(xs[0]), key(x), descending) {
      assert InOrder(key(x), key(xs[0]), descending);
      forall i, j | 0 <= i < j < |r|
        ensures InOrder(key(r[i]), key(r[j]), descending)
      {
        if i > 0 {
          assert r[i] == xs[i - 1] && r[j] == xs[j - 1];
        } else {
          assert r[j] == xs[j - 1];
          assert InOrder(key(xs[0]), key(xs[j - 1]), descending) || j == 1;
        }
      }
    } else {
      var rest := Insert(x, xs[1..], key, descending);
      InsertSorted(x, xs[1..], key, descending);
      assert r == [xs[0]] + rest;
      forall i | 0 <= i < |rest|
        ensures InOrder(key(xs[0]), key(rest[i]), descending)
      {
        if rest[i] != x {
          var j :| 0 <= j < |xs[1..]| && xs[1..][j] == rest[i];
          assert xs[j + 1] == rest[i];
        }
      }
      forall i, j | 0 <= i < j < |r|
        ensures InOrder(key(r[i]), key(r[j]), descending)
      {
        if i > 0 {
          assert r[i] == rest[i - 1] && r[j] == rest[j - 1];
        } else {
          assert r[j] == rest[j - 1];
        }
      }
    }
  }

  /** Insertion sort: a sorted permutation of `xs`. */
  function Sort<T>(xs: seq<T>, key: T -> int, descending: bool): (r: seq<T>)
    ensures Sorted(r, key, descending)
    ensures multiset(r) == multiset(xs)
    ensures |r| == |xs|
  {
    if |xs| == 0 then []
    else
      assert xs == [xs[0]] + xs[1..];
      InsertSorted(xs[0], Sort(xs[1..], key, descending), key, descending);
      Insert(xs[0], Sort(xs[1..], key, descending), key, descending)
  }

  /** Dropping the first element of a sorted sequence leaves it sorted. */
  lemma SortedTail<T>(xs: seq<T>, key: T -> int, descending: bool)
    requires |xs| > 0 && Sorted(xs, key, descending)
    ensures Sorted(xs[1..], key, descending)
  {
    var tail := xs[1..];
    forall i, j | 0 <= i < j < |tail|
      ensures InOrder(key(tail[i]), key(tail[j]), descending)
    {
      assert tail[i] == xs[i + 1] && tail[j] == xs[j + 1];
    }
  }

  /** A sequence that is already sorted is left as it is. */
  lemma {:induction false} SortSorted<T>(xs: seq<T>, key: T -> int, descending: bool)
    requires Sorted(xs, key, descending)
    ensures Sort(xs, key, descending) == xs
  {
    if |xs| > 0 {
      var tail := xs[1..];
      SortedTail(xs, key, descending);
      SortSorted(tail, key, descending);
      assert Sort(xs, key, descending) == Insert(xs[0], tail, key, descending);
      if |tail| > 0 {
        assert tail[0] == xs[1];
        assert InOrder(key(xs[0]), key(tail[0]), descending);
      }
      assert xs == [xs[0]] + tail;
    }
  }
}
