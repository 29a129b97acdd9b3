/** Ordering for the `ORDER BY` clauses. SQL fixes only that the output is a
    reordering of its input sorted by the key; among equal keys any order is
    allowed. The model sorts by insertion, which picks one admissible order,
    and its contracts promise no more than SQL does. */
module Sorting {

  /** `before` can serve as an ORDER BY key: any two rows compare, and the
      comparison chains. */
  ghost predicate TotalPreorder<T(!new)>(before: (T, T) -> bool)
  {
    && (forall a, b :: before(a, b) || before(b, a))
    && (forall a, b, c :: before(a, b) && before(b, c) ==> before(a, c))
  }

  predicate Sorted<T>(s: seq<T>, before: (T, T) -> bool)
  {
    forall i, j :: 0 <= i < j < |s| ==> before(s[i], s[j])
  }

  /** No two elements share the projection `f` (GROUP BY output keys). */
  predicate DistinctBy<T, K(==)>(s: seq<T>, f: T -> K)
  {
    forall i, j :: 0 <= i < j < |s| ==> f(s[i]) != f(s[j])
  }

  /** Places `x` into the sorted `s` ahead of the first element it may precede. */
  function Insert<T(!new)>(x: T, s: seq<T>, before: (T, T) -> bool): (r: seq<T>)
    requires TotalPreorder(before)
    requires Sorted(s, before)
    ensures Sorted(r, before)
    ensures multiset(r) == multiset(s) + multiset{x}
    ensures forall y :: y in r <==> y == x || y in s
    decreases |s|
  {
    if |s| == 0 then [x]
    else if before(x, s[0]) then [x] + s
    else
      assert s == [s[0]] + s[1..];
      var t := Insert(x, s[1..], before);
      HeadPrecedesTail(s, before);
      PrecedesAll(s[0], x, s[1..], t, before);
      [s[0]] + t
  }

  /** In a sorted sequence the first element may precede every later one. */
  lemma HeadPrecedesTail<T>(s: seq<T>, before: (T, T) -> bool)
    requires |s| > 0 && Sorted(s, before)
    ensures forall k :: 0 <= k < |s[1..]| ==> before(s[0], s[1..][k])
  {
    forall k | 0 <= k < |s[1..]|
      ensures before(s[0], s[1..][k])
    {
      assert s[1..][k] == s[k + 1];
    }
  }

  /** An element that may precede `x` and everything in `u` may precede
      everything in `t`, when `t` holds just `x` and the elements of `u`. */
  lemma PrecedesAll<T>(h: T, x: T, u: seq<T>, t: seq<T>, before: (T, T) -> bool)
    requires before(h, x)
    requires forall k :: 0 <= k < |u| ==> before(h, u[k])
    requires forall y :: y in t <==> y == x || y in u
    ensures forall j :: 0 <= j < |t| ==> before(h, t[j])
  {
    forall j | 0 <= j < |t|
      ensures before(h, t[j])
    {
      assert t[j] in t;
      if t[j] != x {
        var k :| 0 <= k < |u| && u[k] == t[j];
      }
    }
  }

  /** Insertion sort: a reordering of `s` that is sorted by `before`. */
  function SortBy<T(!new)>(s: seq<T>, before: (T, T) -> bool): (r: seq<T>)
    requires TotalPreorder(before)
    ensures Sorted(r, before)
    ensures multiset(r) == multiset(s)
    ensures |r| == |s|
    ensures forall y :: y in r <==> y in s
    decreases |s|
  {
    if |s| == 0 then []
    else
      assert s == [s[0]] + s[1..];
      Insert(s[0], SortBy(s[1..], before), before)
  }

  lemma {:induction false} InsertDistinctBy<T(!new), K>(x: T, s: seq<T>, before: (T, T) -> bool, f: T -> K)
    requires TotalPreorder(before) && Sorted(s, before)
    requires DistinctBy(s, f)
    requires forall y :: y in s ==> f(y) != f(x)
    ensures DistinctBy(Insert(x, s, before), f)
    decreases |s|
  {
    if |s| > 0 && !before(x, s[0]) {
      assert s == [s[0]] + s[1..];
      InsertDistinctBy(x, s[1..], before, f);
      var t := Insert(x, s[1..], before);
      assert forall j :: 0 <= j < |t| ==> t[j] in t;
    }
  }

  /** Sorting keeps group keys distinct. */
  lemma {:induction false} SortDistinctBy<T(!new), K>(s: seq<T>, before: (T, T) -> bool, f: T -> K)
    requires TotalPreorder(before)
    requires DistinctBy(s, f)
    ensures DistinctBy(SortBy(s, before), f)
    decreases |s|
  {
    if |s| > 0 {
      SortDistinctBy(s[1..], before, f);
      var t := SortBy(s[1..], before);
      forall y | y in t
        ensures f(y) != f(s[0])
      {
        var j :| 0 <= j < |s[1..]| && s[1..][j] == y;
        assert s[j + 1] == y;
      }
      InsertDistinctBy(s[0], t, before, f);
    }
  }
}
