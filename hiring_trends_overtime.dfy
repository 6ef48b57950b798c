/** hiring_trends_overtime.py without its plot: the number of postings per
    calendar month. */
module HiringTrends {
  import opened Series
  import opened Sorting
  import opened Counting
  import opened Calendar

  /** The `year_month` column: `datePosted.dt.to_period('M')`. */
  function YearMonths(dates: seq<Date>): (months: seq<Month>)
    ensures |months| == |dates|
    ensures forall i :: 0 <= i < |dates| ==> months[i] == MonthOf(dates[i])
  {
    seq(|dates|, i requires 0 <= i < |dates| => MonthOf(dates[i]))
  }

  /** `groupby` order of the period keys: chronological. */
  predicate EarlierMonth(a: Tally<Month>, b: Tally<Month>)
  {
    !MonthBefore(b.key, a.key)
  }

  lemma EarlierMonthIsPreorder()
    ensures TotalPreorder(EarlierMonth)
  {
  }

  /** `groupby('year_month').size()`: one row per month with at least one
      posting, holding the number of postings in it; the counts add up to the
      number of postings and the months ascend. */
  function PostingsPerMonth(dates: seq<Date>): (r: seq<Tally<Month>>)
    ensures CountsOf(r, YearMonths(dates))
    ensures forall i, j :: 0 <= i < j < |r| ==> MonthBefore(r[i].key, r[j].key)
  {
    var months := YearMonths(dates);
    SortedTalliesCount(months, EarlierMonth);
    EarlierMonthIsPreorder();
    SortBySorted(Tallies(months), EarlierMonth);
    var r := SortBy(Tallies(months), EarlierMonth);
    DistinctSortedAscend(r);
    r
  }

  /** Distinct months in chronological order ascend strictly. */
  lemma {:induction false} DistinctSortedAscend(r: seq<Tally<Month>>)
    requires NoDup(Keys(r))
    requires SortedBy(r, EarlierMonth)
    ensures forall i, j :: 0 <= i < j < |r| ==> MonthBefore(r[i].key, r[j].key)
  {
    forall i, j | 0 <= i < j < |r| ensures MonthBefore(r[i].key, r[j].key) {
      var a, b := r[i].key, r[j].key;
      assert a != b by {
        assert Keys(r)[i] == a && Keys(r)[j] == b;
      }
      assert !MonthBefore(b, a) by {
        assert EarlierMonth(r[i], r[j]);
      }
      assert a.year != b.year || a.month != b.month;
    }
  }

  /** Each month's count is the number of postings dated in that month. */
  lemma {:induction false} MonthCount(dates: seq<Date>, m: Month)
    ensures Occ(YearMonths(dates), m) == |Filter(dates, (d: Date) => MonthOf(d) == m)|
    decreases |dates|
  {
    if dates != [] {
      var init := dates[..|dates| - 1];
      var last := dates[|dates| - 1];
      MonthCount(init, m);
      assert YearMonths(dates) == YearMonths(init) + [MonthOf(last)];
      OccSnoc(YearMonths(init), MonthOf(last), m);
    }
  }

  /** The script: the series it plots. */
  method HiringTrendsOverTime(datePosted: seq<Date>) returns (jobTrends: seq<Tally<Month>>)
    ensures CountsOf(jobTrends, YearMonths(datePosted))
    ensures Total(jobTrends) == |datePosted|
    ensures forall i, j :: 0 <= i < j < |jobTrends| ==> MonthBefore(jobTrends[i].key, jobTrends[j].key)
  {
    jobTrends := PostingsPerMonth(datePosted);
  }
}
