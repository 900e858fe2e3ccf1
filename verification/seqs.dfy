/** Order-preserving filtering of sequences, the model of JavaScript's `Array.prototype.filter`. */
module Seqs {

  /** The elements of `xs` that satisfy `keep`, in their original order. */
  function Filter<T>(xs: seq<T>, keep: T -> bool): (r: seq<T>)
    ensures |r| <= |xs|
    ensures forall i :: 0 <= i < |r| ==> keep(r[i]) && r[i] in xs
  {
    if |xs| == 0 then []
    else if keep(xs[0]) then [xs[0]] + Filter(xs[1..], keep)
    else Filter(xs[1..], keep)
  }

  /** Filtering distributes over concatenation: relative order is kept and nothing moves across the seam. */
  lemma {:induction false} FilterAppend<T>(a: seq<T>, b: seq<T>, keep: T -> bool)
    ensures Filter(a + b, keep) == Filter(a, keep) + Filter(b, keep)
  {
    if |a| == 0 {
      assert a + b == b;
    } else {
      assert (a + b)[1..] == a[1..] + b;
      FilterAppend(a[1..], b, keep);
    }
  }

  /** Filtering keeps every occurrence of a kept value and no occurrence of a dropped one. */
  lemma {:induction false} FilterCounts<T>(xs: seq<T>, keep: T -> bool)
    ensures forall x :: multiset(Filter(xs, keep))[x] == if keep(x) then multiset(xs)[x] else 0
  {
    if |xs| > 0 {
      FilterCounts(xs[1..], keep);
      assert xs == [xs[0]] + xs[1..];
    }
  }

  /** A filter that keeps everything returns its input. */
  lemma {:induction false} FilterKeepsAll<T>(xs: seq<T>, keep: T -> bool)
    requires forall i :: 0 <= i < |xs| ==> keep(xs[i])
    ensures Filter(xs, keep) == xs
  {
    if |xs| > 0 {
      FilterKeepsAll(xs[1..], keep);
    }
  }

  /** Splitting by a predicate and by its negation partitions the sequence. */
  lemma {:induction false} FilterComplement<T>(xs: seq<T>, keep: T -> bool, drop: T -> bool)
    requires forall x :: drop(x) == !keep(x)
    ensures |Filter(xs, keep)| + |Filter(xs, drop)| == |xs|
  {
    if |xs| > 0 {
      FilterComplement(xs[1..], keep, drop);
    }
  }

  /** No two positions of `xs` share a key. */
  predicate DistinctBy<T>(xs: seq<T>, key: T -> int)
  {
    forall i, j :: 0 <= i < j < |xs| ==> key(xs[i]) != key(xs[j])
  }

  /** An element whose key no later element has can be put in front of a key-distinct sequence. */
  lemma ConsDistinct<T>(x: T, tail: seq<T>, key: T -> int)
    requires DistinctBy(tail, key)
    requires forall k :: 0 <= k < |tail| ==> key(tail[k]) != key(x)
    ensures DistinctBy([x] + tail, key)
  {
    var r := [x] + tail;
    forall i, j | 0 <= i < j < |r|
      ensures key(r[i]) != key(r[j])
    {
      assert r[j] == tail[j - 1];
      if i > 0 {
        assert r[i] == tail[i - 1];
      }
    }
  }

  /** Filtering keeps keys distinct. */
  lemma {:induction false} FilterDistinct<T>(xs: seq<T>, keep: T -> bool, key: T -> int)
    requires DistinctBy(xs, key)
    ensures DistinctBy(Filter(xs, keep), key)
  {
    if |xs| > 0 {
      var rest := xs[1..];
      assert DistinctBy(rest, key) by {
        forall i, j | 0 <= i < j < |rest|
          ensures key(rest[i]) != key(rest[j])
        {
          assert rest[i] == xs[i + 1] && rest[j] == xs[j + 1];
        }
      }
      FilterDistinct(rest, keep, key);
      if keep(xs[0]) {
        var tail := Filter(rest, keep);
        forall k | 0 <= k < |tail|
          ensures key(tail[k]) != key(xs[0])
        {
          var j :| 0 <= j < |rest| && rest[j] == tail[k];
          assert xs[j + 1] == tail[k];
        }
        ConsDistinct(xs[0], tail, key);
      }
    }
  }
}
