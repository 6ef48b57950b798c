/** Sorting rows by a comparison (`sort_values`, the key order of `groupby`
    and of an index union), written as a stable insertion sort. The contracts
    promise only what pandas promises: a permutation in the requested order,
    with no particular order among rows that compare equal. */
module Sorting {
  import opened Series

  /** `before(a, b)`: `a` may be listed ahead of `b`. */
  ghost predicate TotalPreorder<T(!new)>(before: (T, T) -> bool)
  {
    && (forall a, b :: before(a, b) || before(b, a))
    && (forall a, b, c :: before(a, b) && before(b, c) ==> before(a, c))
  }

  ghost predicate SortedBy<T>(s: seq<T>, before: (T, T) -> bool)
  {
    forall i, j :: 0 <= i < j < |s| ==> before(s[i], s[j])
  }

  /** Places `x` ahead of the first row it may precede. */
  function Insert<T(==)>(x: T, s: seq<T>, before: (T, T) -> bool): (r: seq<T>)
    ensures |r| == |s| + 1
    ensures multiset(r) == multiset(s) + multiset{x}
    ensures NoDup(s) && x !in s ==> NoDup(r)
    decreases |s|
  {
    if s == [] || before(x, s[0]) then [x] + s
    else
      var r := [s[0]] + Insert(x, s[1..], before);
      assert s == [s[0]] + s[1..];
      assert NoDup(s) && x !in s ==> s[0] !in multiset(Insert(x, s[1..], before));
      r
  }

  lemma {:induction false} InsertSorted<T(!new)>(x: T, s: seq<T>, before: (T, T) -> bool)
    requires TotalPreorder(before) && SortedBy(s, before)
    ensures SortedBy(Insert(x, s, before), before)
    decreases |s|
  {
    if s == [] || before(x, s[0]) {
      forall j | 0 <= j < |s| ensures before(x, s[j]) {
        if j > 0 { assert before(s[0], s[j]); }
      }
    } else {
      var tail := Insert(x, s[1..], before);
      InsertSorted(x, s[1..], before);
      assert before(s[0], x);
      forall k | 0 <= k < |tail| ensures before(s[0], tail[k]) {
        assert tail[k] in multiset(tail);
        if tail[k] != x {
          assert tail[k] in multiset(s[1..]);
          var m :| 0 <= m < |s[1..]| && s[1..][m] == tail[k];
          assert s[m + 1] == tail[k];
        }
      }
      SortedCons(s[0], tail, before);
    }
  }

  /** A row that may precede every row of a sorted sequence can head it. */
  lemma {:induction false} SortedCons<T>(a: T, t: seq<T>, before: (T, T) -> bool)
    requires SortedBy(t, before)
    requires forall k :: 0 <= k < |t| ==> before(a, t[k])
    ensures SortedBy([a] + t, before)
  {
    var r := [a] + t;
    forall i, j | 0 <= i < j < |r| ensures before(r[i], r[j]) {
      assert r[j] == t[j - 1];
      if i > 0 {
        assert r[i] == t[i - 1];
      }
    }
  }

  /** Rows of `s` rearranged so that each may precede every later one. */
  function SortBy<T(==)>(s: seq<T>, before: (T, T) -> bool): (r: seq<T>)
    ensures |r| == |s|
    ensures multiset(r) == multiset(s)
    ensures NoDup(s) ==> NoDup(r)
    decreases |s|
  {
    if s == [] then []
    else
      assert s == [s[0]] + s[1..];
      var rest := SortBy(s[1..], before);
      assert NoDup(s) ==> s[0] !in multiset(rest);
      Insert(s[0], rest, before)
  }

  lemma {:induction false} SortBySorted<T(!new)>(s: seq<T>, before: (T, T) -> bool)
    requires TotalPreorder(before)
    ensures SortedBy(SortBy(s, before), before)
    decreases |s|
  {
    if s != [] {
      SortBySorted(s[1..], before);
      InsertSorted(s[0], SortBy(s[1..], before), before);
    }
  }

  /** The same values occur in a permutation. */
  lemma {:induction false} SameElements<T>(a: seq<T>, b: seq<T>)
    requires multiset(a) == multiset(b)
    ensures forall x :: x in a <==> x in b
  {
    forall x ensures x in a <==> x in b {
      assert x in a <==> x in multiset(a);
      assert x in b <==> x in multiset(b);
    }
  }
}
