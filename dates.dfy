/**
 * Calendar dates of the proleptic ISO calendar, with the arithmetic of
 * java.time.LocalDate that the reporting queries use to compute their
 * start dates.
 */
module Dates {

  /** A date as LocalDate holds it: a year, a month 1..12 and a day of month. */
  datatype Date = Date(year: int, month: int, day: int)

  /** ISO leap-year rule (IsoChronology.isLeapYear). */
  predicate IsLeapYear(year: int) {
    year % 4 == 0 && (year % 100 != 0 || year % 400 == 0)
  }

  /** Number of days in the given month of the given year. */
  function MonthLength(year: int, month: int): (n: int)
    requires 1 <= month <= 12
    ensures 28 <= n <= 31
    ensures n == 29 <==> month == 2 && IsLeapYear(year)
  {
    if month == 2 then (if IsLeapYear(year) then 29 else 28)
    else if month == 4 || month == 6 || month == 9 || month == 11 then 30
    else 31
  }

  /** The dates a LocalDate can hold (the year range of LocalDate is not modelled). */
  predicate Valid(d: Date) {
    1 <= d.month <= 12 && 1 <= d.day <= MonthLength(d.year, d.month)
  }

  /** Chronological order, as SQL compares two DATE values: a is strictly earlier than b. */
  predicate Before(a: Date, b: Date) {
    a.year < b.year || (a.year == b.year && (a.month < b.month || (a.month == b.month && a.day < b.day)))
  }

  function Min(a: int, b: int): int {
    if a <= b then a else b
  }

  /** Months since the start of year 0: the position of a date's month on a month line. */
  function MonthIndex(d: Date): int {
    d.year * 12 + (d.month - 1)
  }

  /**
   * LocalDate.minusYears: the same month and day so many years earlier; a day
   * that does not exist in that month (29 February outside a leap year) is
   * moved back to the last day of the month.
   */
  function MinusYears(d: Date, years: int): (r: Date)
    requires Valid(d)
    ensures Valid(r)
    ensures r.year == d.year - years && r.month == d.month
    ensures r.day == if d.month == 2 && d.day == 29 && !IsLeapYear(d.year - years) then 28 else d.day
  {
    var y := d.year - years;
    Date(y, d.month, Min(d.day, MonthLength(y, d.month)))
  }

  /**
   * LocalDate.minusMonths: move so many months back on the month line
   * (floorDiv / floorMod by 12, which are Dafny's / and % for a positive
   * divisor), keeping the day of month unless the target month is shorter,
   * in which case its last day is taken.
   */
  function MinusMonths(d: Date, months: int): (r: Date)
    requires Valid(d)
    ensures Valid(r)
    ensures MonthIndex(r) == MonthIndex(d) - months
    ensures r.day <= d.day
    ensures r.day == d.day || r.day == MonthLength(r.year, r.month)
  {
    var count := MonthIndex(d) - months;
    var y := count / 12;
    var m := count % 12 + 1;
    Date(y, m, Min(d.day, MonthLength(y, m)))
  }

  /** LocalDate.withDayOfMonth, whose argument must be a day of the date's month. */
  function WithDayOfMonth(d: Date, dayOfMonth: int): (r: Date)
    requires Valid(d) && 1 <= dayOfMonth <= MonthLength(d.year, d.month)
    ensures Valid(r) && r.year == d.year && r.month == d.month && r.day == dayOfMonth
  {
    Date(d.year, d.month, dayOfMonth)
  }

  /** Dates that are not Before each other coincide: the order is total. */
  lemma BeforeIsTotal(a: Date, b: Date)
    ensures a == b || Before(a, b) || Before(b, a)
    ensures !(Before(a, b) && Before(b, a))
  {
  }

  /** Two dates in different months are ordered as their month indices are. */
  lemma MonthIndexOrder(a: Date, b: Date)
    requires Valid(a) && Valid(b)
    requires MonthIndex(a) < MonthIndex(b)
    ensures Before(a, b)
  {
  }
}
