/** The part of .NET's `DateTime` the model needs: proleptic Gregorian dates
    in the years 1..9999, a time of day counted in 100-nanosecond ticks,
    chronological comparison, `AddYears` and the calendar successor of a
    date. */
module Calendar {

  datatype Date = Date(year: int, month: int, day: int)

  /** A `DateTime`: a date plus the ticks elapsed since its midnight. */
  datatype DateTime = DateTime(date: Date, ticks: int)

  const TicksPerDay: int := 864_000_000_000

  /** `default(DateTime)`: 0001-01-01 00:00:00. */
  const DefaultDateTime: ValidDateTime := DateTime(Date(1, 1, 1), 0)

  predicate IsLeapYear(year: int) {
    year % 4 == 0 && (year % 100 != 0 || year % 400 == 0)
  }

  function DaysInMonth(year: int, month: int): (n: int)
    ensures 28 <= n <= 31
    ensures month == 2 ==> (n == 29 <==> IsLeapYear(year))
  {
    if month == 2 then (if IsLeapYear(year) then 29 else 28)
    else if month == 4 || month == 6 || month == 9 || month == 11 then 30
    else 31
  }

  /** A date `DateTime` can represent. */
  predicate IsValidDate(d: Date) {
    && 1 <= d.year <= 9999
    && 1 <= d.month <= 12
    && 1 <= d.day <= DaysInMonth(d.year, d.month)
  }

  predicate IsValidDateTime(t: DateTime) {
    IsValidDate(t.date) && 0 <= t.ticks < TicksPerDay
  }

  /** The dates and instants a `DateTime` value can hold. */
  type ValidDate = d: Date | IsValidDate(d) witness Date(1, 1, 1)

  type ValidDateTime = t: DateTime | IsValidDateTime(t) witness DateTime(Date(1, 1, 1), 0)

  /** Month and day of `a` come strictly before those of `b` within a year. */
  predicate MonthDayBefore(a: Date, b: Date) {
    a.month < b.month || (a.month == b.month && a.day < b.day)
  }

  /** Chronological order on dates. */
  predicate DateBefore(a: Date, b: Date) {
    a.year < b.year || (a.year == b.year && MonthDayBefore(a, b))
  }

  /** Chronological order on date-times, as `DateTime`'s `<` on ticks. */
  predicate Before(a: DateTime, b: DateTime) {
    DateBefore(a.date, b.date) || (a.date == b.date && a.ticks < b.ticks)
  }

  /** Midnight of `d`, as `DateTime.Today` and `DateTime.Date` give it. */
  function Midnight(d: ValidDate): ValidDateTime {
    DateTime(d, 0)
  }

  /** `DateTime.AddYears`: same month and day `years` later, except that
      February 29 becomes February 28 when the target year is not a leap
      year. .NET throws when the target year leaves 1..9999; here that is a
      precondition. */
  function AddYears(d: Date, years: int): (r: Date)
    requires IsValidDate(d)
    requires 1 <= d.year + years <= 9999
    ensures IsValidDate(r)
    ensures r.year == d.year + years && r.month == d.month
    ensures r.day == d.day || (d.month == 2 && d.day == 29 && r.day == 28 && !IsLeapYear(r.year))
  {
    var year := d.year + years;
    var last := DaysInMonth(year, d.month);
    Date(year, d.month, if d.day > last then last else d.day)
  }

  /** The following calendar day. */
  function NextDay(d: Date): (r: Date)
    requires IsValidDate(d)
    ensures DateBefore(d, r)
    ensures d.year < 9999 || d.month < 12 || d.day < 31 ==> IsValidDate(r)
  {
    if d.day < DaysInMonth(d.year, d.month) then Date(d.year, d.month, d.day + 1)
    else if d.month < 12 then Date(d.year, d.month + 1, 1)
    else Date(d.year + 1, 1, 1)
  }

  /** No valid date lies strictly between a date and its successor. */
  lemma NextDayIsImmediate(d: Date, e: Date)
    requires IsValidDate(d) && IsValidDate(e)
    ensures !(DateBefore(d, e) && DateBefore(e, NextDay(d)))
  {
  }
}
