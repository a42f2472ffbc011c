/**
 * Calendar months as the JavaScript `Date` constructor computes them: `new Date(y, mo + m, 1)`
 * rolls a month index past December over into the following years.
 */
module Calendar {

  /** A month index as `Date.prototype.getMonth` returns it: 0 is January, 11 is December. */
  type Month = m: int | 0 <= m < 12

  /** The first day of a calendar month. */
  datatype MonthStart = MonthStart(year: int, month: Month)

  /** The reference instant: epoch milliseconds and the local year and month it falls in. */
  datatype Instant = Instant(ms: int, year: int, month: Month)

  /** Months counted from January of year 0; consecutive months have consecutive ordinals. */
  function Ordinal(d: MonthStart): int {
    d.year * 12 + d.month
  }

  /** The month in which `now` falls, as `new Date(now.getFullYear(), now.getMonth(), 1)`. */
  function CurrentMonth(now: Instant): MonthStart {
    MonthStart(now.year, now.month)
  }

  /**
   * `new Date(d.year, d.month + m, 1)`: the month `m` months after `d`, with the year carry.
   * Years are taken as four-digit years; JavaScript reads a year 0 to 99 as 1900 to 1999.
   */
  function AddMonths(d: MonthStart, m: nat): (r: MonthStart)
    ensures Ordinal(r) == Ordinal(d) + m
    ensures m < 12 - d.month ==> r.year == d.year
  {
    MonthStart(d.year + (d.month + m) / 12, (d.month + m) % 12)
  }

  /** The calendar month after `d`. */
  function Next(d: MonthStart): MonthStart {
    if d.month == 11 then MonthStart(d.year + 1, 0) else MonthStart(d.year, d.month + 1)
  }

  /** A month start is determined by its ordinal. */
  lemma OrdinalInjective(d: MonthStart, e: MonthStart)
    requires Ordinal(d) == Ordinal(e)
    ensures d == e
  {
  }

  /** Adding one more month is stepping to the next calendar month, December rolling over. */
  lemma AddMonthsStep(d: MonthStart, m: nat)
    ensures AddMonths(d, m + 1) == Next(AddMonths(d, m))
  {
    OrdinalInjective(AddMonths(d, m + 1), Next(AddMonths(d, m)));
  }
}
