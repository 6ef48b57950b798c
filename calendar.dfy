/** The proleptic Gregorian calendar as pandas uses it: dates, monthly
    periods (`to_period('M')`), the first day of a period (`to_datetime` of
    its string form) and month ends (the `'M'` frequency). */
module Calendar {

  datatype Date = Date(year: int, month: int, day: int)

  /** A monthly period, such as 2021-03. */
  datatype Month = Month(year: int, month: int)

  predicate IsLeapYear(year: int)
  {
    year % 4 == 0 && (year % 100 != 0 || year % 400 == 0)
  }

  function DaysInMonth(year: int, month: int): (n: int)
    requires 1 <= month <= 12
    ensures 28 <= n <= 31
    ensures month == 2 ==> (n == 29 <==> IsLeapYear(year))
  {
    if month == 2 then (if IsLeapYear(year) then 29 else 28)
    else if month == 4 || month == 6 || month == 9 || month == 11 then 30
    else 31
  }

  predicate ValidMonth(m: Month)
  {
    1 <= m.month <= 12
  }

  predicate ValidDate(d: Date)
  {
    1 <= d.month <= 12 && 1 <= d.day <= DaysInMonth(d.year, d.month)
  }

  /** `dt.to_period('M')`. */
  function MonthOf(d: Date): (m: Month)
    ensures ValidDate(d) ==> ValidMonth(m)
    ensures m.year == d.year && m.month == d.month
  {
    Month(d.year, d.month)
  }

  /** The months since the start of year 0; it numbers months consecutively. */
  function MonthIndex(m: Month): int
  {
    m.year * 12 + (m.month - 1)
  }

  lemma {:induction false} MonthIndexInjective(a: Month, b: Month)
    requires ValidMonth(a) && ValidMonth(b)
    requires MonthIndex(a) == MonthIndex(b)
    ensures a == b
  {
    assert (a.year - b.year) * 12 == b.month - a.month;
  }

  function NextMonth(m: Month): (n: Month)
    requires ValidMonth(m)
    ensures ValidMonth(n)
    ensures MonthIndex(n) == MonthIndex(m) + 1
  {
    if m.month == 12 then Month(m.year + 1, 1) else Month(m.year, m.month + 1)
  }

  function AddMonths(m: Month, k: nat): (n: Month)
    requires ValidMonth(m)
    ensures ValidMonth(n)
    ensures MonthIndex(n) == MonthIndex(m) + k
    decreases k
  {
    if k == 0 then m else NextMonth(AddMonths(m, k - 1))
  }

  /** Chronological order of periods. */
  predicate MonthBefore(a: Month, b: Month)
  {
    a.year < b.year || (a.year == b.year && a.month < b.month)
  }

  lemma {:induction false} MonthBeforeIndex(a: Month, b: Month)
    requires ValidMonth(a) && ValidMonth(b)
    ensures MonthBefore(a, b) <==> MonthIndex(a) < MonthIndex(b)
  {
    if a.year < b.year {
      assert MonthIndex(a) < MonthIndex(b);
    } else if a.year > b.year {
      assert MonthIndex(a) > MonthIndex(b);
    }
  }

  /** Chronological order of dates. */
  predicate DateBefore(a: Date, b: Date)
  {
    MonthBefore(MonthOf(a), MonthOf(b)) || (MonthOf(a) == MonthOf(b) && a.day < b.day)
  }

  /** The first day of a period: `pd.to_datetime(str(period))`. */
  function FirstDay(m: Month): (d: Date)
    requires ValidMonth(m)
    ensures ValidDate(d) && MonthOf(d) == m
    ensures forall e :: ValidDate(e) && MonthOf(e) == m ==> !DateBefore(e, d)
  {
    Date(m.year, m.month, 1)
  }

  /** The end of a period, the dates the `'M'` frequency produces. */
  function LastDay(m: Month): (d: Date)
    requires ValidMonth(m)
    ensures ValidDate(d) && MonthOf(d) == m
    ensures d.day == DaysInMonth(m.year, m.month)
    ensures forall e :: ValidDate(e) && MonthOf(e) == m ==> !DateBefore(d, e)
  {
    Date(m.year, m.month, DaysInMonth(m.year, m.month))
  }
}
