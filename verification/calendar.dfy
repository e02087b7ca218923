/**
 The part of a JavaScript `Date` the schedule uses: a year and a zero-based
 month (`getMonth()` returns 0 for January). `setMonth` with an out-of-range
 month carries into the year, which is floor division by 12.
 */
module Calendar {

  datatype YearMonth = YearMonth(year: int, month: int)

  /** A month as `getMonth()` returns it. */
  predicate Valid(d: YearMonth)
  {
    0 <= d.month < 12
  }

  /** Months elapsed since January of year 0. */
  function MonthIndex(d: YearMonth): int
  {
    d.year * 12 + d.month
  }

  /** `date.setMonth(date.getMonth() + k)`, ignoring the day of the month. */
  function AddMonths(d: YearMonth, k: int): (r: YearMonth)
    ensures Valid(r)
    ensures MonthIndex(r) == MonthIndex(d) + k
  {
    var t := MonthIndex(d) + k;
    YearMonth(t / 12, t % 12)
  }

  /** A valid year/month is determined by its month index. */
  lemma IndexDetermines(a: YearMonth, b: YearMonth)
    requires Valid(a) && Valid(b)
    requires MonthIndex(a) == MonthIndex(b)
    ensures a == b
  {
  }

  /** Advancing by `a` and then by `b` months is advancing by `a + b`. */
  lemma AddMonthsCompose(d: YearMonth, a: int, b: int)
    ensures AddMonths(AddMonths(d, a), b) == AddMonths(d, a + b)
  {
    IndexDetermines(AddMonths(AddMonths(d, a), b), AddMonths(d, a + b));
  }
}
