/** Frequency tables: `value_counts()`, `groupby(...).size()` and
    `value_counts().head(n)`, as sequences of (value, count) tallies. */
module Counting {
  import opened Outcomes
  import opened Series
  import opened Sorting

  /** One row of a frequency table: a value and how often it occurs. */
  datatype Tally<T> = Tally(key: T, count: nat)

  /** The value column of a frequency table (its index in pandas). */
  function Keys<T>(t: seq<Tally<T>>): (ks: seq<T>)
    ensures |ks| == |t|
    ensures forall i :: 0 <= i < |t| ==> ks[i] == t[i].key
    decreases |t|
  {
    if t == [] then [] else [t[0].key] + Keys(t[1..])
  }

  /** The sum of the count column. */
  function Total<T>(t: seq<Tally<T>>): nat
    decreases |t|
  {
    if t == [] then 0 else t[0].count + Total(t[1..])
  }

  /** One tally per value of `keys`, counting its occurrences in `s`. */
  function TalliesOf<T(==)>(keys: seq<T>, s: seq<T>): (t: seq<Tally<T>>)
    ensures |t| == |keys|
    ensures forall i :: 0 <= i < |t| ==> t[i] == Tally(keys[i], Occ(s, keys[i]))
    decreases |keys|
  {
    if keys == [] then [] else [Tally(keys[0], Occ(s, keys[0]))] + TalliesOf(keys[1..], s)
  }

  /** Appending `y` to the counted column adds one for each key equal to `y`. */
  lemma {:induction false} TalliesOfSnoc<T>(keys: seq<T>, s: seq<T>, y: T)
    ensures Total(TalliesOf(keys, s + [y])) == Total(TalliesOf(keys, s)) + Occ(keys, y)
    decreases |keys|
  {
    if keys != [] {
      var k, rest := keys[0], keys[1..];
      TalliesOfSnoc(rest, s, y);
      assert keys == [k] + rest;
      OccCons(k, rest, y);
      OccSnoc(s, y, k);
      TotalTalliesOfCons(keys, s + [y]);
      TotalTalliesOfCons(keys, s);
    }
  }

  /** The total of the tallies of some keys splits off the first key. */
  lemma {:induction false} TotalTalliesOfCons<T>(keys: seq<T>, s: seq<T>)
    requires keys != []
    ensures Total(TalliesOf(keys, s)) == Occ(s, keys[0]) + Total(TalliesOf(keys[1..], s))
  {
    var t := TalliesOf(keys, s);
    assert t[1..] == TalliesOf(keys[1..], s);
  }

  /** Tallies of the distinct values of `s` in first-seen order. */
  function Tallies<T(==)>(s: seq<T>): (t: seq<Tally<T>>)
    ensures Keys(t) == DropDuplicates(s)
    ensures forall i :: 0 <= i < |t| ==> t[i].count == Occ(s, t[i].key)
  {
    TalliesOf(DropDuplicates(s), s)
  }

  /** Every row of `s` is counted exactly once. */
  lemma {:induction false} TalliesTotal<T>(s: seq<T>)
    ensures Total(Tallies(s)) == |s|
    decreases |s|
  {
    if s != [] {
      var init := s[..|s| - 1];
      assert s == init + [s[|s| - 1]];
      TalliesTotal(init);
      TalliesSnoc(init, s[|s| - 1]);
    }
  }

  /** One more row adds one to the total of the tallies. */
  lemma {:induction false} TalliesSnoc<T>(init: seq<T>, y: T)
    ensures Total(Tallies(init + [y])) == Total(Tallies(init)) + 1
  {
    var s := init + [y];
    var d := DropDuplicates(init);
    TalliesOfSnoc(d, init, y);
    if y in init {
      assert DropDuplicates(s) == d;
      OccNoDup(d, y);
    } else {
      assert DropDuplicates(s) == d + [y];
      assert Occ(d, y) == 0;
      TalliesOfNewKey(d, y, s);
      OccSnoc(init, y, y);
    }
  }

  /** Adding a new last key adds its own tally. */
  lemma {:induction false} TalliesOfNewKey<T>(keys: seq<T>, y: T, s: seq<T>)
    ensures Total(TalliesOf(keys + [y], s)) == Total(TalliesOf(keys, s)) + Occ(s, y)
    decreases |keys|
  {
    if keys == [] {
      assert TalliesOf([y], s) == [Tally(y, Occ(s, y))];
    } else {
      assert (keys + [y])[1..] == keys[1..] + [y];
      TalliesOfNewKey(keys[1..], y, s);
    }
  }

  /** What every ordering of the tallies of `s` satisfies: one row per
      distinct value of `s`, each holding that value's number of occurrences,
      and the counts adding up to the number of rows. */
  ghost predicate CountsOf<T>(t: seq<Tally<T>>, s: seq<T>)
  {
    && NoDup(Keys(t))
    && (forall i :: 0 <= i < |t| ==> t[i].key in s && t[i].count == Occ(s, t[i].key) && t[i].count >= 1)
    && (forall i :: 0 <= i < |s| ==> s[i] in Keys(t))
    && Total(t) == |s|
  }

  lemma {:induction false} TotalInsert<T>(x: Tally<T>, t: seq<Tally<T>>, before: (Tally<T>, Tally<T>) -> bool)
    ensures Total(Insert(x, t, before)) == x.count + Total(t)
    decreases |t|
  {
    if t != [] && !before(x, t[0]) {
      TotalInsert(x, t[1..], before);
      assert ([t[0]] + Insert(x, t[1..], before))[1..] == Insert(x, t[1..], before);
    }
  }

  lemma {:induction false} TotalSortBy<T>(t: seq<Tally<T>>, before: (Tally<T>, Tally<T>) -> bool)
    ensures Total(SortBy(t, before)) == Total(t)
    decreases |t|
  {
    if t != [] {
      TotalSortBy(t[1..], before);
      TotalInsert(t[0], SortBy(t[1..], before), before);
    }
  }

  /** Sorting the tallies of `s`, in any order, keeps them a frequency table of `s`. */
  lemma {:induction false} SortedTalliesCount<T>(s: seq<T>, before: (Tally<T>, Tally<T>) -> bool)
    ensures CountsOf(SortBy(Tallies(s), before), s)
  {
    var r := SortBy(Tallies(s), before);
    SortedTalliesRows(s, before);
    PermutedTalliesCover(s, r);
    TotalSortBy(Tallies(s), before);
    TalliesTotal(s);
  }

  /** Each row of the sorted tallies of `s` counts a distinct value of `s`. */
  lemma {:induction false} SortedTalliesRows<T>(s: seq<T>, before: (Tally<T>, Tally<T>) -> bool)
    ensures var r := SortBy(Tallies(s), before);
            && NoDup(Keys(r))
            && forall i :: 0 <= i < |r| ==> r[i].key in s && r[i].count == Occ(s, r[i].key) && r[i].count >= 1
  {
    var t := Tallies(s);
    var r := SortBy(t, before);
    var d := DropDuplicates(s);
    assert Keys(t) == d;
    assert NoDup(t) by {
      forall i, j | 0 <= i < j < |t| ensures t[i] != t[j] {
        assert t[i].key == d[i] && t[j].key == d[j];
      }
    }
    forall i | 0 <= i < |r| ensures r[i].key in s && r[i].count == Occ(s, r[i].key) && r[i].count >= 1 {
      assert r[i] in multiset(t);
      var k :| 0 <= k < |t| && t[k] == r[i];
      assert d[k] in s;
    }
    forall i, j | 0 <= i < j < |r| ensures Keys(r)[i] != Keys(r)[j] {
      assert r[i] != r[j];
    }
  }

  /** Every value of `s` has a row in any rearrangement of its tallies. */
  lemma {:induction false} PermutedTalliesCover<T>(s: seq<T>, r: seq<Tally<T>>)
    requires multiset(r) == multiset(Tallies(s))
    ensures forall i :: 0 <= i < |s| ==> s[i] in Keys(r)
  {
    var t := Tallies(s);
    var d := DropDuplicates(s);
    assert Keys(t) == d;
    forall i | 0 <= i < |s| ensures s[i] in Keys(r) {
      assert s[i] in d;
      var k :| 0 <= k < |d| && d[k] == s[i];
      assert t[k] in multiset(r);
      var m :| 0 <= m < |r| && r[m] == t[k];
      assert Keys(r)[m] == s[i];
    }
  }

  /** `value_counts`' order: higher counts first. */
  predicate MoreFrequent<T>(a: Tally<T>, b: Tally<T>)
  {
    a.count >= b.count
  }

  lemma MoreFrequentIsPreorder<T(!new)>()
    ensures TotalPreorder(MoreFrequent<T>)
  {
  }

  /** `value_counts()` of a column without nulls: each distinct value once,
      with its number of occurrences, most frequent first. Equal counts come
      in no promised order. */
  function ValueCounts<T(==,!new)>(s: seq<T>): (r: seq<Tally<T>>)
    ensures CountsOf(r, s)
    ensures forall i, j :: 0 <= i < j < |r| ==> r[i].count >= r[j].count
  {
    SortedTalliesCount(s, MoreFrequent<T>);
    MoreFrequentIsPreorder<T>();
    SortBySorted(Tallies(s), MoreFrequent<T>);
    SortBy(Tallies(s), MoreFrequent<T>)
  }

  /** The first `n` rows of a frequency table keep its distinct values and
      its order. */
  lemma {:induction false} HeadOfCountsOrder<T>(all: seq<Tally<T>>, n: nat)
    requires NoDup(Keys(all))
    requires forall i, j :: 0 <= i < j < |all| ==> all[i].count >= all[j].count
    ensures var r := Head(all, n);
            && NoDup(Keys(r))
            && (forall i, j :: 0 <= i < j < |r| ==> r[i].count >= r[j].count)
  {
    var r := Head(all, n);
    forall i, j | 0 <= i < j < |r| ensures r[i].key != r[j].key && r[i].count >= r[j].count {
      assert r[i] == all[i] && r[j] == all[j];
      assert Keys(all)[i] != Keys(all)[j];
    }
  }

  /** The first `n` rows of a frequency table of `values` that lists higher
      counts first: no value left out is more frequent than the last one kept. */
  lemma {:induction false} HeadOfCounts<T>(values: seq<T>, all: seq<Tally<T>>, n: nat)
    requires forall i :: 0 <= i < |all| ==> all[i].count == Occ(values, all[i].key)
    requires forall i :: 0 <= i < |values| ==> values[i] in Keys(all)
    requires forall i, j :: 0 <= i < j < |all| ==> all[i].count >= all[j].count
    ensures var r := Head(all, n);
            forall x :: x in values && x !in Keys(r) ==>
              |r| == n && (n > 0 ==> Occ(values, x) <= r[n - 1].count)
  {
    var r := Head(all, n);
    assert forall m :: 0 <= m < |r| ==> Keys(r)[m] == Keys(all)[m];
    forall x | x in values && x !in Keys(r)
      ensures |r| == n && (n > 0 ==> Occ(values, x) <= r[n - 1].count)
    {
      var q :| 0 <= q < |values| && values[q] == x;
      var k :| 0 <= k < |all| && Keys(all)[k] == x;
      if n > 0 {
        assert r[n - 1] == all[n - 1];
      }
    }
  }

  /** `value_counts().head(n)` on a column that may hold nulls: at most `n`
      values, non-increasing counts that equal each value's occurrences in the
      column (nulls are not counted), and no value left out occurs more often
      than the least frequent one reported. */
  function TopCounts<T(==,!new)>(column: seq<Option<T>>, n: nat): (r: seq<Tally<T>>)
    ensures |r| <= n
    ensures NoDup(Keys(r))
    ensures forall i :: 0 <= i < |r| ==> r[i].count == Occ(column, Some(r[i].key)) && r[i].count >= 1
    ensures forall i, j :: 0 <= i < j < |r| ==> r[i].count >= r[j].count
    ensures forall x :: Some(x) in column && x !in Keys(r) ==>
              |r| == n && (n > 0 ==> Occ(column, Some(x)) <= r[n - 1].count)
  {
    ColumnCountsOccur(column, n);
    ColumnCountsLeaveOut(column, n);
    Head(ValueCounts(NonNull(column)), n)
  }

  /** The reported counts are occurrences in the column, nulls not counted. */
  lemma {:induction false} ColumnCountsOccur<T(!new)>(column: seq<Option<T>>, n: nat)
    ensures var r := Head(ValueCounts(NonNull(column)), n);
            forall i :: 0 <= i < |r| ==> r[i].count == Occ(column, Some(r[i].key)) && r[i].count >= 1
  {
    var r := Head(ValueCounts(NonNull(column)), n);
    forall i | 0 <= i < |r| ensures r[i].count == Occ(column, Some(r[i].key)) && r[i].count >= 1 {
      OccNonNull(column, r[i].key);
    }
  }

  /** HeadOfCounts restated for the non-null values of a column: most
      frequent first, and nothing left out is more frequent than the last
      value kept. */
  lemma {:induction false} ColumnCountsLeaveOut<T(!new)>(column: seq<Option<T>>, n: nat)
    ensures var r := Head(ValueCounts(NonNull(column)), n);
            && NoDup(Keys(r))
            && (forall i, j :: 0 <= i < j < |r| ==> r[i].count >= r[j].count)
            && (forall x :: Some(x) in column && x !in Keys(r) ==>
                  |r| == n && (n > 0 ==> Occ(column, Some(x)) <= r[n - 1].count))
  {
    var values := NonNull(column);
    var all := ValueCounts(values);
    var r := Head(all, n);
    HeadOfCountsOrder(all, n);
    HeadOfCounts(values, all, n);
    forall x | Some(x) in column && x !in Keys(r)
      ensures |r| == n && (n > 0 ==> Occ(column, Some(x)) <= r[n - 1].count)
    {
      var i :| 0 <= i < |column| && column[i] == Some(x);
      assert x in values;
      OccNonNull(column, x);
    }
  }
}
