/** forecast_job_postings.py without the ARIMA fit and the plots: the
    monthly series the model is fitted on, and the dates of the six forecast
    months. The six forecast values are an input. */
module ForecastJobPostings {
  import opened Outcomes
  import opened Series
  import opened Counting
  import opened Calendar
  import opened HiringTrends

  /** A row of `job_trends[['ds', 'job_postings']]`. */
  datatype MonthlyPoint = MonthlyPoint(ds: Date, jobPostings: nat)

  /** The `ds` column. */
  function Days(points: seq<MonthlyPoint>): (ds: seq<Date>)
    ensures |ds| == |points|
    ensures forall i :: 0 <= i < |points| ==> ds[i] == points[i].ds
  {
    seq(|points|, i requires 0 <= i < |points| => points[i].ds)
  }

  /** Each count's period becomes its first day. */
  function PointsOf(counts: seq<Tally<Month>>): (r: seq<MonthlyPoint>)
    requires forall i :: 0 <= i < |counts| ==> ValidMonth(counts[i].key)
    ensures |r| == |counts|
    ensures forall i :: 0 <= i < |counts| ==> r[i] == MonthlyPoint(FirstDay(counts[i].key), counts[i].count)
  {
    seq(|counts|, i requires 0 <= i < |counts| => MonthlyPoint(FirstDay(counts[i].key), counts[i].count))
  }

  lemma {:induction false} PostingMonthsValid(dates: seq<Date>)
    requires forall i :: 0 <= i < |dates| ==> ValidDate(dates[i])
    ensures forall i :: 0 <= i < |PostingsPerMonth(dates)| ==> ValidMonth(PostingsPerMonth(dates)[i].key)
  {
    var counts := PostingsPerMonth(dates);
    var months := YearMonths(dates);
    forall i | 0 <= i < |counts| ensures ValidMonth(counts[i].key) {
      var k :| 0 <= k < |months| && months[k] == counts[i].key;
    }
  }

  /** `groupby('year_month').size()` with each period turned into its first
      day (`job_trends['ds']`). */
  function MonthlyPoints(dates: seq<Date>): (r: seq<MonthlyPoint>)
    requires forall i :: 0 <= i < |dates| ==> ValidDate(dates[i])
    ensures |r| == |PostingsPerMonth(dates)|
  {
    PostingMonthsValid(dates);
    PointsOf(PostingsPerMonth(dates))
  }

  /** One point per month with postings, dated the 1st of that month and
      counting its postings; the points ascend. */
  lemma {:induction false} MonthlyPointsSpec(dates: seq<Date>)
    requires forall i :: 0 <= i < |dates| ==> ValidDate(dates[i])
    ensures var r := MonthlyPoints(dates);
            && (forall i :: 0 <= i < |r| ==>
                  && ValidDate(r[i].ds) && r[i].ds.day == 1
                  && r[i].jobPostings == Occ(YearMonths(dates), MonthOf(r[i].ds))
                  && r[i].jobPostings >= 1)
            && (forall i, j :: 0 <= i < j < |r| ==> DateBefore(r[i].ds, r[j].ds))
  {
    var counts := PostingsPerMonth(dates);
    PostingMonthsValid(dates);
    var r := MonthlyPoints(dates);
    forall i | 0 <= i < |r|
      ensures ValidDate(r[i].ds) && r[i].ds.day == 1
      ensures r[i].jobPostings == Occ(YearMonths(dates), MonthOf(r[i].ds)) && r[i].jobPostings >= 1
    {
      assert r[i] == MonthlyPoint(FirstDay(counts[i].key), counts[i].count);
    }
    forall i, j | 0 <= i < j < |r| ensures DateBefore(r[i].ds, r[j].ds) {
      assert r[i] == MonthlyPoint(FirstDay(counts[i].key), counts[i].count);
      assert r[j] == MonthlyPoint(FirstDay(counts[j].key), counts[j].count);
    }
  }

  /** Every posting's month has its point. */
  lemma {:induction false} MonthlyPointsCover(dates: seq<Date>)
    requires forall i :: 0 <= i < |dates| ==> ValidDate(dates[i])
    ensures forall k :: 0 <= k < |dates| ==> FirstDay(MonthOf(dates[k])) in Days(MonthlyPoints(dates))
  {
    var counts := PostingsPerMonth(dates);
    var months := YearMonths(dates);
    PostingMonthsValid(dates);
    var r := MonthlyPoints(dates);
    forall k | 0 <= k < |dates| ensures FirstDay(MonthOf(dates[k])) in Days(r) {
      assert months[k] in Keys(counts);
      var i :| 0 <= i < |counts| && Keys(counts)[i] == months[k];
      assert r[i] == MonthlyPoint(FirstDay(counts[i].key), counts[i].count);
      assert Days(r)[i] == FirstDay(MonthOf(dates[k]));
    }
  }

  /** `Series.max()` of a date column. */
  function MaxDate(ds: seq<Date>): (m: Date)
    requires ds != []
    ensures m in ds
    ensures forall i :: 0 <= i < |ds| ==> !DateBefore(m, ds[i])
    decreases |ds|
  {
    if |ds| == 1 then ds[0]
    else
      var rest := MaxDate(ds[1..]);
      assert forall i :: 1 <= i < |ds| ==> ds[i] == ds[1..][i - 1];
      if DateBefore(rest, ds[0]) then ds[0] else rest
  }

  /** `pd.date_range(start, periods=n, freq='M')`: the first `n` month ends
      from `start` on. */
  function MonthEnds(start: Date, periods: nat): (r: seq<Date>)
    requires ValidDate(start)
    ensures |r| == periods
    ensures forall i :: 0 <= i < periods ==> r[i] == LastDay(AddMonths(MonthOf(start), i))
    ensures periods > 0 ==>
              && !DateBefore(r[0], start)
              && forall e :: ValidDate(e) && e.day == DaysInMonth(e.year, e.month) && !DateBefore(e, start) ==>
                   !DateBefore(e, r[0])
  {
    seq(periods, i requires 0 <= i < periods => LastDay(AddMonths(MonthOf(start), i)))
  }

  const ForecastSteps: nat := 6

  /** `date_range(start=latest, periods=7, freq='M')[1:]`: six month ends,
      the first in the month after `latest`, each in the month after the one
      before, so strictly increasing. */
  function FutureDates(latest: Date): (r: seq<Date>)
    requires ValidDate(latest)
    ensures |r| == ForecastSteps
    ensures forall i :: 0 <= i < |r| ==> ValidDate(r[i]) && r[i].day == DaysInMonth(r[i].year, r[i].month)
    ensures MonthOf(r[0]) == NextMonth(MonthOf(latest))
    ensures forall i :: 0 <= i < |r| - 1 ==> MonthOf(r[i + 1]) == NextMonth(MonthOf(r[i]))
    ensures forall i, j :: 0 <= i < j < |r| ==> DateBefore(r[i], r[j])
  {
    var ends := MonthEnds(latest, ForecastSteps + 1);
    var r := ends[1..];
    var m := MonthOf(latest);
    forall i | 0 <= i < |r| ensures MonthOf(r[i]) == AddMonths(m, i + 1) {
      assert r[i] == ends[i + 1];
    }
    forall i | 0 <= i < |r| - 1 ensures MonthOf(r[i + 1]) == NextMonth(MonthOf(r[i])) {
      MonthIndexInjective(AddMonths(m, i + 2), NextMonth(AddMonths(m, i + 1)));
    }
    MonthIndexInjective(AddMonths(m, 1), NextMonth(m));
    forall i, j | 0 <= i < j < |r| ensures DateBefore(r[i], r[j]) {
      MonthBeforeIndex(AddMonths(m, i + 1), AddMonths(m, j + 1));
    }
    r
  }

  /** A row of the saved forecast table. */
  datatype ForecastRow = ForecastRow(ds: Date, jobPostings: real)

  /** `pd.DataFrame({'ds': future_dates, 'job_postings': forecast})`. */
  function ForecastTable(dates: seq<Date>, forecast: seq<real>): (r: seq<ForecastRow>)
    requires |dates| == |forecast|
    ensures |r| == |dates|
    ensures forall i :: 0 <= i < |r| ==> r[i].ds == dates[i] && r[i].jobPostings == forecast[i]
  {
    seq(|dates|, i requires 0 <= i < |dates| => ForecastRow(dates[i], forecast[i]))
  }

  /** The script fails when there are no postings: the ARIMA fit needs data. */
  datatype ForecastError = NoPostings

  /** The script. `datePosted` is the parsed date column and `forecast` the
      six values the fitted model returns. */
  method Forecast(datePosted: seq<Date>, forecast: seq<real>) returns (r: Result<seq<ForecastRow>, ForecastError>)
    requires forall i :: 0 <= i < |datePosted| ==> ValidDate(datePosted[i])
    requires |forecast| == ForecastSteps
    ensures r.Err? <==> datePosted == []
    ensures r.Ok? ==>
              && |r.value| == ForecastSteps
              && (forall i :: 0 <= i < ForecastSteps ==> r.value[i].jobPostings == forecast[i])
              && (forall i :: 0 <= i < ForecastSteps ==>
                    (ValidDate(r.value[i].ds) &&
                     r.value[i].ds.day == DaysInMonth(r.value[i].ds.year, r.value[i].ds.month)))
              && (forall i :: 0 <= i < ForecastSteps - 1 ==> MonthOf(r.value[i + 1].ds) == NextMonth(MonthOf(r.value[i].ds)))
              && (forall i, j :: 0 <= i < j < ForecastSteps ==> DateBefore(r.value[i].ds, r.value[j].ds))
              && (forall k :: 0 <= k < |datePosted| ==> MonthBefore(MonthOf(datePosted[k]), MonthOf(r.value[0].ds)))
              && (exists k :: 0 <= k < |datePosted| && NextMonth(MonthOf(datePosted[k])) == MonthOf(r.value[0].ds))
  {
    var jobTrends := MonthlyPoints(datePosted);            // lines 20-26
    if jobTrends == [] {
      assert Total(PostingsPerMonth(datePosted)) == |datePosted|;
      return Err(NoPostings);                              // lines 40-41 raise
    }
    var latest := MaxDate(Days(jobTrends));
    var future := FutureDates(latest);                     // line 47
    var table := ForecastTable(future, forecast);          // line 48
    LatestMonth(datePosted, jobTrends, latest, future);
    assert table[0].ds == future[0];
    forall i | 0 <= i < ForecastSteps
      ensures table[i].jobPostings == forecast[i]
      ensures ValidDate(table[i].ds) && table[i].ds.day == DaysInMonth(table[i].ds.year, table[i].ds.month)
    {
      assert table[i].ds == future[i];
    }
    forall i | 0 <= i < ForecastSteps - 1 ensures MonthOf(table[i + 1].ds) == NextMonth(MonthOf(table[i].ds)) {
      assert table[i].ds == future[i] && table[i + 1].ds == future[i + 1];
    }
    forall i, j | 0 <= i < j < ForecastSteps ensures DateBefore(table[i].ds, table[j].ds) {
      assert table[i].ds == future[i] && table[j].ds == future[j];
    }
    r := Ok(table);
  }

  /** The month of the latest point is the latest month with a posting, so
      every posting falls before the first forecast month and one falls in
      the month just before it. */
  lemma {:induction false} LatestMonth(dates: seq<Date>, points: seq<MonthlyPoint>, latest: Date, future: seq<Date>)
    requires forall i :: 0 <= i < |dates| ==> ValidDate(dates[i])
    requires points == MonthlyPoints(dates) && points != []
    requires latest == MaxDate(Days(points))
    requires future == FutureDates(latest)
    ensures forall k :: 0 <= k < |dates| ==> MonthBefore(MonthOf(dates[k]), MonthOf(future[0]))
    ensures exists k :: 0 <= k < |dates| && NextMonth(MonthOf(dates[k])) == MonthOf(future[0])
  {
    MonthlyPointsSpec(dates);
    MonthlyPointsCover(dates);
    var p :| 0 <= p < |points| && Days(points)[p] == latest;
    assert points[p].jobPostings >= 1;
    var months := YearMonths(dates);
    assert MonthOf(latest) in months;
    var k :| 0 <= k < |months| && months[k] == MonthOf(latest);
    assert NextMonth(MonthOf(dates[k])) == MonthOf(future[0]);
    forall j | 0 <= j < |dates| ensures MonthBefore(MonthOf(dates[j]), MonthOf(future[0])) {
      var d := FirstDay(MonthOf(dates[j]));
      assert d in Days(points);
      assert !DateBefore(latest, d);
      MonthBeforeIndex(MonthOf(dates[j]), MonthOf(future[0]));
      MonthBeforeIndex(MonthOf(latest), MonthOf(dates[j]));
    }
  }
}
