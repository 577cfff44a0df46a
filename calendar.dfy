/** Calendar dates and instants. Clock reads of the modelled system (`DateTime.Now`,
    `DateTime.UtcNow`, `DateTime.Today`) are parameters of the operations that make them;
    an instant is an opaque tick count and a date is a proleptic Gregorian year, month and day. */
module Calendar {

  /** An instant, as a tick count. The default value (`default(DateTime)`) is 0. */
  type Time = int

  datatype Date = Date(year: int, month: int, day: int)

  predicate IsLeapYear(y: int) {
    y % 4 == 0 && (y % 100 != 0 || y % 400 == 0)
  }

  function DaysInMonth(y: int, m: int): (n: int)
    requires 1 <= m <= 12
    ensures 28 <= n <= 31
    ensures m == 2 ==> (n == 29 <==> IsLeapYear(y))
  {
    if m == 2 then (if IsLeapYear(y) then 29 else 28)
    else if m == 4 || m == 6 || m == 9 || m == 11 then 30
    else 31
  }

  predicate ValidDate(d: Date) {
    1 <= d.month <= 12 && 1 <= d.day <= DaysInMonth(d.year, d.month)
  }

  /** Chronological order on dates (lexicographic on year, month, day). */
  predicate Before(a: Date, b: Date) {
    a.year < b.year
    || (a.year == b.year && (a.month < b.month || (a.month == b.month && a.day < b.day)))
  }

  /** Month-and-day order within a year, ignoring the year. */
  predicate MonthDayAfter(a: Date, b: Date) {
    a.month > b.month || (a.month == b.month && a.day > b.day)
  }

  /** `DateTime.AddYears(n)`: moves the year by `n` and, when the result would be 29 February
      of a common year, clamps it to 28 February. */
  function AddYears(d: Date, n: int): (r: Date)
    requires ValidDate(d)
    ensures ValidDate(r)
    ensures r.year == d.year + n && r.month == d.month
    ensures r.day == d.day || (d.month == 2 && d.day == 29 && r.day == 28 && !IsLeapYear(r.year))
  {
    if d.month == 2 && d.day == 29 && !IsLeapYear(d.year + n) then Date(d.year + n, 2, 28)
    else Date(d.year + n, d.month, d.day)
  }
}
