/** Ordering helpers: Python's lexicographic string order, and a stable insertion sort under a
    total preorder, used for the `ORDER BY` and `sorted(...)` calls of the handlers. */
module Sorting {

  /** Python `a <= b` on strings: lexicographic by code point. */
  predicate StrLeq(a: string, b: string)
    decreases |a|
  {
    |a| == 0 || (|b| > 0 && (a[0] < b[0] || (a[0] == b[0] && StrLeq(a[1..], b[1..]))))
  }

  lemma {:induction false} StrLeqTotal(a: string, b: string)
    ensures StrLeq(a, b) || StrLeq(b, a)
    decreases |a|
  {
    if |a| > 0 && |b| > 0 && a[0] == b[0] {
      StrLeqTotal(a[1..], b[1..]);
    }
  }

  lemma {:induction false} StrLeqTransitive(a: string, b: string, c: string)
    requires StrLeq(a, b) && StrLeq(b, c)
    ensures StrLeq(a, c)
    decreases |a|
  {
    if |a| > 0 && a[0] == b[0] && b[0] == c[0] {
      StrLeqTransitive(a[1..], b[1..], c[1..]);
    }
  }

  lemma {:induction false} StrLeqAntisymmetric(a: string, b: string)
    requires StrLeq(a, b) && StrLeq(b, a)
    ensures a == b
    decreases |a|
  {
    if |a| > 0 {
      StrLeqAntisymmetric(a[1..], b[1..]);
      assert a == [a[0]] + a[1..] && b == [b[0]] + b[1..];
    }
  }

  ghost predicate TotalPreorder<T(!new)>(leq: (T, T) -> bool) {
    (forall a, b :: leq(a, b) || leq(b, a))
    && (forall a, b, c :: leq(a, b) && leq(b, c) ==> leq(a, c))
  }

  predicate SortedBy<T>(xs: seq<T>, leq: (T, T) -> bool) {
    forall i, j :: 0 <= i < j < |xs| ==> leq(xs[i], xs[j])
  }

  /** Inserts `x` before the first element it does not exceed, so that `SortBy` keeps equal
      elements in their original order. */
  function Insert<T(!new)>(x: T, xs: seq<T>, leq: (T, T) -> bool): (r: seq<T>)
    requires TotalPreorder(leq) && SortedBy(xs, leq)
    ensures SortedBy(r, leq)
    ensures multiset(r) == multiset(xs) + multiset{x}
    ensures |r| == |xs| + 1
  {
    if |xs| == 0 then [x]
    else if leq(x, xs[0]) then
      PrependSorted(x, xs, leq);
      [x] + xs
    else
      var rest := Insert(x, xs[1..], leq);
      assert xs == [xs[0]] + xs[1..];
      InsertLowerBound(x, xs, rest, leq);
      PrependSorted(xs[0], rest, leq);
      [xs[0]] + rest
  }

  lemma InsertLowerBound<T(!new)>(x: T, xs: seq<T>, rest: seq<T>, leq: (T, T) -> bool)
    requires TotalPreorder(leq) && SortedBy(xs, leq) && |xs| > 0 && !leq(x, xs[0])
    requires multiset(rest) == multiset(xs[1..]) + multiset{x}
    ensures forall k :: 0 <= k < |rest| ==> leq(xs[0], rest[k])
  {
    forall k | 0 <= k < |rest| ensures leq(xs[0], rest[k]) {
      var y := rest[k];
      assert y in multiset(rest);
      if y != x {
        assert y in multiset(xs[1..]);
        var j :| 0 <= j < |xs[1..]| && xs[1..][j] == y;
        assert xs[j + 1] == y;
      }
    }
  }

  lemma PrependSorted<T(!new)>(b: T, rest: seq<T>, leq: (T, T) -> bool)
    requires TotalPreorder(leq) && SortedBy(rest, leq)
    requires |rest| > 0 ==> leq(b, rest[0])
    ensures SortedBy([b] + rest, leq)
  {
    var s := [b] + rest;
    forall i, j | 0 <= i < j < |s| ensures leq(s[i], s[j]) {
      if i == 0 && j > 1 {
        assert leq(b, rest[0]) && leq(rest[0], rest[j - 1]);
      }
    }
  }

  /** `sorted(xs, key=...)`: a sorted permutation of `xs`. */
  function SortBy<T(!new)>(xs: seq<T>, leq: (T, T) -> bool): (r: seq<T>)
    requires TotalPreorder(leq)
    ensures SortedBy(r, leq)
    ensures multiset(r) == multiset(xs)
    ensures |r| == |xs|
  {
    if |xs| == 0 then []
    else
      assert xs == [xs[0]] + xs[1..];
      Insert(xs[0], SortBy(xs[1..], leq), leq)
  }

  /** Sorting an already sorted sequence returns it unchanged. */
  lemma {:induction false} SortBySorted<T(!new)>(xs: seq<T>, leq: (T, T) -> bool)
    requires TotalPreorder(leq) && SortedBy(xs, leq)
    ensures SortBy(xs, leq) == xs
  {
    if |xs| > 0 {
      SortBySorted(xs[1..], leq);
      assert SortBy(xs[1..], leq) == xs[1..];
      if |xs| > 1 {
        assert leq(xs[0], xs[1]);
      }
    }
  }
}
