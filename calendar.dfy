/**
 * Calendar arithmetic used by the depreciation board: dates of the proleptic
 * Gregorian calendar (as Python's `datetime` holds them), the month addition
 * of `relativedelta(months=+n)`, the ordinal day of `strftime('%j')`, and the
 * simplified year length the board uses for its prorata fraction.
 */
module Calendar {

  datatype Date = Date(year: int, month: int, day: int)

  /** The Gregorian leap-year rule, which `calendar.monthrange` and `%j` follow. */
  predicate IsLeapYear(y: int) {
    y % 4 == 0 && (y % 100 != 0 || y % 400 == 0)
  }

  function YearLength(y: int): int {
    if IsLeapYear(y) then 366 else 365
  }

  function DaysInMonth(y: int, m: int): (n: int)
    requires 1 <= m <= 12
    ensures 28 <= n <= 31
  {
    if m == 2 then (if IsLeapYear(y) then 29 else 28)
    else if m == 4 || m == 6 || m == 9 || m == 11 then 30
    else 31
  }

  predicate ValidDate(d: Date) {
    1 <= d.month <= 12 && 1 <= d.day <= DaysInMonth(d.year, d.month)
  }

  /** Months elapsed since month 0 of year 0: one more for each later month. */
  function MonthIndex(d: Date): int {
    d.year * 12 + (d.month - 1)
  }

  function Min(a: int, b: int): int {
    if a <= b then a else b
  }

  /**
   * `d + relativedelta(months=+n)`: move n calendar months and keep the day of
   * month, clipped to the last day of the target month when it is shorter.
   */
  function AddMonths(d: Date, n: int): (r: Date)
    ensures 1 <= r.month <= 12
    ensures MonthIndex(r) == MonthIndex(d) + n
    ensures r.day <= d.day
    ensures r.day == d.day || r.day == DaysInMonth(r.year, r.month)
    ensures d.day >= 1 ==> ValidDate(r)
  {
    var index := MonthIndex(d) + n;
    var y := index / 12;
    var m := index % 12 + 1;
    Date(y, m, Min(d.day, DaysInMonth(y, m)))
  }

  /** The date reached after k successive additions of `period` months. */
  function StepMonths(d: Date, period: int, k: nat): Date
    decreases k
  {
    if k == 0 then d else StepMonths(AddMonths(d, period), period, k - 1)
  }

  /**
   * Stepping k times moves the month by exactly k periods, never raises the
   * day of month, and keeps a valid date valid.
   */
  lemma {:induction false} StepMonthsAdvance(d: Date, period: int, k: nat)
    requires ValidDate(d)
    ensures ValidDate(StepMonths(d, period, k))
    ensures MonthIndex(StepMonths(d, period, k)) == MonthIndex(d) + k * period
    ensures StepMonths(d, period, k).day <= d.day
    decreases k
  {
    if k > 0 {
      var next := AddMonths(d, period);
      StepMonthsAdvance(next, period, k - 1);
      assert MonthIndex(StepMonths(d, period, k)) == MonthIndex(next) + (k - 1) * period;
      assert (k - 1) * period + period == k * period;
    }
  }

  /** Days of the months before month m in year y. */
  function DaysBeforeMonth(y: int, m: int): (n: int)
    requires 1 <= m <= 12
  {
    var common :=
      if m == 1 then 0 else if m == 2 then 31 else if m == 3 then 59
      else if m == 4 then 90 else if m == 5 then 120 else if m == 6 then 151
      else if m == 7 then 181 else if m == 8 then 212 else if m == 9 then 243
      else if m == 10 then 273 else if m == 11 then 304 else 334;
    common + (if m > 2 && IsLeapYear(y) then 1 else 0)
  }

  /** `int(d.strftime('%j'))`: the 1-based ordinal day of d within its year. */
  function DayOfYear(d: Date): (n: int)
    requires ValidDate(d)
    ensures 1 <= n <= YearLength(d.year)
    ensures d.month == 1 ==> n == d.day
    ensures d.month == 12 && d.day == 31 ==> n == YearLength(d.year)
  {
    DaysBeforeMonth(d.year, d.month) + d.day
  }

  /** The day after d in the same year (d is not December 31). */
  function NextDay(d: Date): (r: Date)
    requires ValidDate(d) && !(d.month == 12 && d.day == 31)
    ensures ValidDate(r) && r.year == d.year
  {
    if d.day < DaysInMonth(d.year, d.month) then Date(d.year, d.month, d.day + 1)
    else Date(d.year, d.month + 1, 1)
  }

  /**
   * `%j` counts the days of the year: January 1 is day 1, and the next day
   * of the same year, within a month or across a month's end, is one more.
   */
  lemma {:induction false} DayOfYearCounts(d: Date)
    requires ValidDate(d) && !(d.month == 12 && d.day == 31)
    ensures DayOfYear(Date(d.year, 1, 1)) == 1
    ensures DayOfYear(NextDay(d)) == DayOfYear(d) + 1
  {
    if d.day == DaysInMonth(d.year, d.month) {
      assert DaysBeforeMonth(d.year, d.month + 1) == DaysBeforeMonth(d.year, d.month) + DaysInMonth(d.year, d.month);
    }
  }

  /**
   * The board's `total_days`: 366 when the year is a multiple of 4, else 365.
   * It is never shorter than the Gregorian year and differs from it exactly
   * in the century years that are not multiples of 400.
   */
  function TotalDays(y: int): (n: int)
    ensures n == 365 || n == 366
    ensures n >= YearLength(y)
    ensures n != YearLength(y) <==> (y % 100 == 0 && y % 400 != 0)
  {
    CenturyDivisibility(y);
    if y % 4 != 0 then 365 else 366
  }

  /** A multiple of 400 is a multiple of 100, and a multiple of 100 is a multiple of 4. */
  lemma {:induction false} CenturyDivisibility(y: int)
    ensures y % 400 == 0 ==> y % 100 == 0
    ensures y % 100 == 0 ==> y % 4 == 0
  {
    if y % 400 == 0 {
      QuadCenturyIsCentury(y / 400);
    }
    if y % 100 == 0 {
      CenturyIsMultipleOfFour(y / 100);
    }
  }

  lemma {:induction false} QuadCenturyIsCentury(q: int)
    ensures (400 * q) % 100 == 0
  {
    assert 400 * q == 100 * (4 * q) + 0;
  }

  lemma {:induction false} CenturyIsMultipleOfFour(q: int)
    ensures (100 * q) % 4 == 0
  {
    assert 100 * q == 4 * (25 * q) + 0;
  }

  /**
   * `total_days - float(date.strftime('%j'))`: the days of the year left after
   * d. When totalDays is the board's length of d's own year it is a proper
   * fraction numerator: at least 0 and below totalDays.
   */
  function RemainingDays(totalDays: int, d: Date): (days: int)
    requires ValidDate(d)
    ensures days + DayOfYear(d) == totalDays
    ensures totalDays == TotalDays(d.year) ==> 0 <= days < totalDays
  {
    totalDays - DayOfYear(d)
  }

  /** The order of `datetime` values: by year, then month, then day. */
  predicate DateLe(a: Date, b: Date) {
    a.year < b.year
    || (a.year == b.year && (a.month < b.month || (a.month == b.month && a.day <= b.day)))
  }

  lemma {:induction false} DateLeMonthIndex(a: Date, b: Date)
    requires 1 <= a.month <= 12 && 1 <= b.month <= 12
    requires DateLe(a, b)
    ensures MonthIndex(a) <= MonthIndex(b)
  {
  }
}
