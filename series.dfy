/** Order-preserving operations on a column of values, as pandas applies them
    to a Series or to the rows of a DataFrame: counting, boolean-mask
    filtering, `dropna`, `drop_duplicates(keep='first')`, `first` and `head`. */
module Series {
  import opened Outcomes

  /** Number of positions of `s` that hold `x`. */
  function Occ<T(==)>(s: seq<T>, x: T): (n: nat)
    ensures n <= |s|
    ensures n > 0 <==> x in s
    decreases |s|
  {
    if s == [] then 0
    else
      assert s == s[..|s| - 1] + [s[|s| - 1]];
      Occ(s[..|s| - 1], x) + (if s[|s| - 1] == x then 1 else 0)
  }

  lemma {:induction false} OccSnoc<T>(s: seq<T>, y: T, x: T)
    ensures Occ(s + [y], x) == Occ(s, x) + (if y == x then 1 else 0)
  {
    assert (s + [y])[..|s|] == s;
  }

  lemma {:induction false} OccCons<T>(y: T, s: seq<T>, x: T)
    ensures Occ([y] + s, x) == (if y == x then 1 else 0) + Occ(s, x)
  {
    OccConcat([y], s, x);
    assert [y][..0] == [];
  }

  /** Occurrences in a concatenation add up (pandas `concat`). */
  lemma {:induction false} OccConcat<T>(a: seq<T>, b: seq<T>, x: T)
    ensures Occ(a + b, x) == Occ(a, x) + Occ(b, x)
    decreases |b|
  {
    if b != [] {
      assert (a + b)[..|a + b| - 1] == a + b[..|b| - 1];
      OccConcat(a, b[..|b| - 1], x);
    } else {
      assert a + b == a;
    }
  }

  /** A sequence holding only `x` holds it `|s|` times. */
  lemma {:induction false} OccConstant<T>(s: seq<T>, x: T)
    requires forall i :: 0 <= i < |s| ==> s[i] == x
    ensures Occ(s, x) == |s|
    decreases |s|
  {
    if s != [] {
      OccConstant(s[..|s| - 1], x);
    }
  }

  /** No value appears at two positions. */
  ghost predicate NoDup<T>(s: seq<T>)
  {
    forall i, j :: 0 <= i < j < |s| ==> s[i] != s[j]
  }

  /** A value that appears in a duplicate-free sequence appears exactly once. */
  lemma {:induction false} OccNoDup<T>(s: seq<T>, x: T)
    requires NoDup(s) && x in s
    ensures Occ(s, x) == 1
    decreases |s|
  {
    var init := s[..|s| - 1];
    assert NoDup(init);
    if s[|s| - 1] == x {
      assert x !in init;
    } else {
      assert x in init;
      OccNoDup(init, x);
    }
  }

  /** `a` can be obtained from `b` by deleting positions: the kept values keep
      their relative order and are otherwise unchanged. */
  ghost predicate IsSubseq<T>(a: seq<T>, b: seq<T>)
    decreases |b|
  {
    a == [] ||
    (b != [] &&
     ((a[|a| - 1] == b[|b| - 1] && IsSubseq(a[..|a| - 1], b[..|b| - 1])) ||
      IsSubseq(a, b[..|b| - 1])))
  }

  lemma {:induction false} IsSubseqEmpty<T>(a: seq<T>)
    requires IsSubseq(a, [])
    ensures a == []
  {
  }

  /** Deleting positions twice is deleting positions once. */
  lemma {:induction false} IsSubseqTransitive<T>(a: seq<T>, b: seq<T>, c: seq<T>)
    requires IsSubseq(a, b) && IsSubseq(b, c)
    ensures IsSubseq(a, c)
    decreases |c|
  {
    if a == [] {
    } else if b == [] {
      IsSubseqEmpty(a);
    } else {
      assert c != [];
      var b', c' := b[..|b| - 1], c[..|c| - 1];
      if IsSubseq(b, c') {
        IsSubseqTransitive(a, b, c');
      } else {
        assert b[|b| - 1] == c[|c| - 1] && IsSubseq(b', c');
        if a[|a| - 1] == b[|b| - 1] && IsSubseq(a[..|a| - 1], b') {
          IsSubseqTransitive(a[..|a| - 1], b', c');
        } else {
          IsSubseqTransitive(a, b', c');
        }
      }
    }
  }

  /** The rows of `s` for which `keep` holds, in their original order: the
      boolean-mask selection `s[mask]`, `dropna(subset=...)` and the like. */
  function Filter<T(==)>(s: seq<T>, keep: T -> bool): (r: seq<T>)
    ensures |r| <= |s|
    ensures forall i :: 0 <= i < |r| ==> r[i] in s && keep(r[i])
    ensures forall i :: 0 <= i < |s| && keep(s[i]) ==> s[i] in r
    decreases |s|
  {
    if s == [] then []
    else
      assert s == s[..|s| - 1] + [s[|s| - 1]];
      Filter(s[..|s| - 1], keep) + (if keep(s[|s| - 1]) then [s[|s| - 1]] else [])
  }

  lemma {:induction false} FilterIsSubseq<T>(s: seq<T>, keep: T -> bool)
    ensures IsSubseq(Filter(s, keep), s)
    decreases |s|
  {
    if s != [] {
      var init := s[..|s| - 1];
      FilterIsSubseq(init, keep);
      var r := Filter(s, keep);
      if keep(s[|s| - 1]) {
        assert r[..|r| - 1] == Filter(init, keep);
      } else {
        assert r == Filter(init, keep);
      }
      assert s[..|s| - 1] == init;
    }
  }

  /** Filtering a row followed by more rows: the row, if kept, comes first. */
  lemma {:induction false} FilterCons<T>(x: T, s: seq<T>, keep: T -> bool)
    ensures Filter([x] + s, keep) == (if keep(x) then [x] else []) + Filter(s, keep)
    decreases |s|
  {
    if s == [] {
      assert [x] + s == [x];
      assert [x][..0] == [];
    } else {
      var init := s[..|s| - 1];
      assert ([x] + s)[..|[x] + s| - 1] == [x] + init;
      assert ([x] + s)[|[x] + s| - 1] == s[|s| - 1];
      FilterCons(x, init, keep);
    }
  }

  /** A kept value is counted as often as in the input; a dropped one not at all. */
  lemma {:induction false} OccFilter<T>(s: seq<T>, keep: T -> bool, x: T)
    ensures Occ(Filter(s, keep), x) == if keep(x) then Occ(s, x) else 0
    decreases |s|
  {
    if s != [] {
      var init := s[..|s| - 1];
      var last := s[|s| - 1];
      OccFilter(init, keep, x);
      OccConcat(Filter(init, keep), if keep(last) then [last] else [], x);
      assert Occ([last], x) == if last == x then 1 else 0 by {
        assert [last][..0] == [];
      }
    }
  }

  /** `Series.dropna()`: the non-null values in order. */
  function NonNull<T(==)>(s: seq<Option<T>>): (r: seq<T>)
    ensures |r| <= |s|
    ensures forall i :: 0 <= i < |r| ==> Some(r[i]) in s
    ensures forall i :: 0 <= i < |s| && s[i].Some? ==> s[i].value in r
    decreases |s|
  {
    if s == [] then []
    else
      assert s == s[..|s| - 1] + [s[|s| - 1]];
      NonNull(s[..|s| - 1]) + (match s[|s| - 1] case Some(v) => [v] case None => [])
  }

  /** `dropna` of a cell followed by more cells: the cell's value, if any, comes first. */
  lemma {:induction false} NonNullCons<T>(x: Option<T>, s: seq<Option<T>>)
    ensures NonNull([x] + s) == (match x case Some(v) => [v] case None => []) + NonNull(s)
    decreases |s|
  {
    if s == [] {
      assert [x] + s == [x];
      assert [x][..0] == [];
    } else {
      var init := s[..|s| - 1];
      assert ([x] + s)[..|[x] + s| - 1] == [x] + init;
      assert ([x] + s)[|[x] + s| - 1] == s[|s| - 1];
      NonNullCons(x, init);
    }
  }

  /** Counting after `dropna` counts the matching cells; nulls count for nothing. */
  lemma {:induction false} OccNonNull<T>(s: seq<Option<T>>, x: T)
    ensures Occ(NonNull(s), x) == Occ(s, Some(x))
    decreases |s|
  {
    if s != [] {
      var init := s[..|s| - 1];
      var last := s[|s| - 1];
      OccNonNull(init, x);
      var tail := match last case Some(v) => [v] case None => [];
      OccConcat(NonNull(init), tail, x);
      assert [x][..0] == [];
      if last.Some? { assert [last.value][..0] == []; }
    }
  }

  /** `groupby(...).first()` on one column, for the group of rows where
      `inGroup` holds: the value of `col` in the first row of the group where
      it is not null, or null when it is null in every row of the group. */
  function FirstWhere<R, V(==)>(rows: seq<R>, inGroup: R -> bool, col: R -> Option<V>): (r: Option<V>)
    ensures r.None? <==> forall i :: 0 <= i < |rows| && inGroup(rows[i]) ==> col(rows[i]).None?
    ensures r.Some? ==> exists i :: (0 <= i < |rows| && inGroup(rows[i]) && col(rows[i]) == r &&
              forall j :: 0 <= j < i && inGroup(rows[j]) ==> col(rows[j]).None?)
    decreases |rows|
  {
    if rows == [] then None
    else if inGroup(rows[0]) && col(rows[0]).Some? then col(rows[0])
    else
      var r := FirstWhere(rows[1..], inGroup, col);
      assert forall i :: 1 <= i < |rows| ==> rows[i] == rows[1..][i - 1];
      assert r.Some? ==> exists i :: (1 <= i < |rows| && inGroup(rows[i]) && col(rows[i]) == r &&
              forall j :: 0 <= j < i && inGroup(rows[j]) ==> col(rows[j]).None?) by {
        if r.Some? {
          var i :| 0 <= i < |rows[1..]| && inGroup(rows[1..][i]) && col(rows[1..][i]) == r &&
              forall j :: 0 <= j < i && inGroup(rows[1..][j]) ==> col(rows[1..][j]).None?;
          assert forall j :: 0 <= j < i + 1 && inGroup(rows[j]) ==> col(rows[j]).None? by {
            forall j | 0 <= j < i + 1 && inGroup(rows[j]) ensures col(rows[j]).None? {
              if j > 0 { assert rows[j] == rows[1..][j - 1]; }
            }
          }
        }
      }
      r
  }

  /** One column of a table: `col[i]` is `f` of row i. */
  function Project<R, V>(rows: seq<R>, f: R -> V): (col: seq<V>)
    ensures |col| == |rows|
    ensures forall i :: 0 <= i < |rows| ==> col[i] == f(rows[i])
  {
    seq(|rows|, i requires 0 <= i < |rows| => f(rows[i]))
  }

  /** Projecting a row followed by more rows. */
  lemma {:induction false} ProjectCons<R, V>(x: R, rows: seq<R>, f: R -> V)
    ensures Project([x] + rows, f) == [f(x)] + Project(rows, f)
  {
    var lhs, rhs := Project([x] + rows, f), [f(x)] + Project(rows, f);
    assert |lhs| == |rhs|;
    forall i | 0 <= i < |lhs| ensures lhs[i] == rhs[i] {
      if i > 0 {
        assert ([x] + rows)[i] == rows[i - 1];
      }
    }
  }

  /** `drop_duplicates(keep='first')`: position i is kept exactly when its value
      does not already occur before i. */
  function DropDuplicates<T(==)>(s: seq<T>): (r: seq<T>)
    ensures NoDup(r)
    ensures forall i :: 0 <= i < |r| ==> r[i] in s
    ensures forall i :: 0 <= i < |s| ==> s[i] in r
    ensures |r| <= |s|
    decreases |s|
  {
    if s == [] then []
    else
      var init := s[..|s| - 1];
      assert s == init + [s[|s| - 1]];
      var rest := DropDuplicates(init);
      if s[|s| - 1] in init then rest else rest + [s[|s| - 1]]
  }

  lemma {:induction false} DropDuplicatesIsSubseq<T>(s: seq<T>)
    ensures IsSubseq(DropDuplicates(s), s)
    decreases |s|
  {
    if s != [] {
      var init := s[..|s| - 1];
      DropDuplicatesIsSubseq(init);
      if s[|s| - 1] !in init {
        var r := DropDuplicates(s);
        assert r[..|r| - 1] == DropDuplicates(init);
      }
    }
  }

  /** Position of the first occurrence of `x` in `s`. */
  function FirstIndex<T(==)>(s: seq<T>, x: T): (i: nat)
    requires x in s
    ensures i < |s| && s[i] == x && x !in s[..i]
    decreases |s|
  {
    var init := s[..|s| - 1];
    if x in init then FirstIndex(init, x) else |s| - 1
  }

  /** The kept rows are the first occurrences: they appear in the order in
      which their values first occur in the input. */
  lemma {:induction false} DropDuplicatesKeepsFirst<T>(s: seq<T>)
    ensures forall i, j :: 0 <= i < j < |DropDuplicates(s)| ==>
              FirstIndex(s, DropDuplicates(s)[i]) < FirstIndex(s, DropDuplicates(s)[j])
    decreases |s|
  {
    if s != [] {
      var init := s[..|s| - 1];
      var last := s[|s| - 1];
      DropDuplicatesKeepsFirst(init);
      var rest := DropDuplicates(init);
      forall x | x in rest ensures FirstIndex(s, x) == FirstIndex(init, x) < |init| { }
      if last !in init {
        assert DropDuplicates(s) == rest + [last];
      }
    }
  }

  /** The first `n` rows (`head(n)`); all of them when there are fewer. */
  function Head<T>(s: seq<T>, n: nat): (r: seq<T>)
    ensures |r| == if |s| < n then |s| else n
    ensures r == s[..|r|]
  {
    if |s| < n then s else s[..n]
  }

  /** The first `n` values are some of the values. */
  lemma {:induction false} HeadMultiset<T>(s: seq<T>, n: nat)
    ensures multiset(Head(s, n)) <= multiset(s)
  {
    var r := Head(s, n);
    assert s == r + s[|r|..];
    assert multiset(s) == multiset(r) + multiset(s[|r|..]);
  }
}
