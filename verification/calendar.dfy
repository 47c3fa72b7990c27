/**
 Civil Gregorian dates as Python's `datetime` holds them (years 1 to 9999), the
 one-day step back the client takes with `timedelta(days=1)`, and the ordinal
 day number (`date.toordinal()`) that serves as the reference for that step.
 */
module Calendar {
  import opened Py

  datatype Date = Date(year: int, month: int, day: int)

  const MinYear := 1
  const MaxYear := 9999

  predicate IsLeapYear(y: int) {
    y % 4 == 0 && (y % 100 != 0 || y % 400 == 0)
  }

  function DaysInMonth(y: int, m: int): (n: int)
    requires 1 <= m <= 12
    ensures 28 <= n <= 31
  {
    if m == 2 then (if IsLeapYear(y) then 29 else 28)
    else if m == 4 || m == 6 || m == 9 || m == 11 then 30
    else 31
  }

  /** A date `datetime` can represent. */
  predicate Valid(d: Date) {
    && MinYear <= d.year <= MaxYear
    && 1 <= d.month <= 12
    && 1 <= d.day <= DaysInMonth(d.year, d.month)
  }

  function YearLength(y: int): int {
    if IsLeapYear(y) then 366 else 365
  }

  /** Days in the years before `y`, counted from year 1. */
  function DaysBeforeYear(y: int): nat
    decreases y
  {
    if y <= MinYear then 0 else DaysBeforeYear(y - 1) + YearLength(y - 1)
  }

  /** Days in the months of year `y` before month `m`. */
  function DaysBeforeMonth(y: int, m: int): nat
    requires 1 <= m <= 12
  {
    [0, 31, 59, 90, 120, 151, 181, 212, 243, 273, 304, 334][m - 1]
    + (if m > 2 && IsLeapYear(y) then 1 else 0)
  }

  /** `date.toordinal()`: 0001-01-01 is day 1. */
  function DayNumber(d: Date): int
    requires Valid(d)
  {
    DaysBeforeYear(d.year) + DaysBeforeMonth(d.year, d.month) + d.day
  }

  /** Month `m` starts where month `m - 1` ends, and the year ends after December. */
  lemma MonthBoundaries(y: int, m: int)
    requires 1 <= m <= 12
    ensures m > 1 ==> DaysBeforeMonth(y, m) == DaysBeforeMonth(y, m - 1) + DaysInMonth(y, m - 1)
    ensures DaysBeforeMonth(y, m) + DaysInMonth(y, m) <= YearLength(y)
    ensures m == 12 ==> DaysBeforeMonth(y, m) + DaysInMonth(y, m) == YearLength(y)
  {
  }

  /** `d - timedelta(days=1)`: the civil day before `d`; from 0001-01-01 Python
      raises OverflowError, which is `None` here. */
  function PrevDay(d: Date): (r: Option<Date>)
    requires Valid(d)
    ensures r.None? <==> d == Date(MinYear, 1, 1)
    ensures r.Some? ==> Valid(r.value) && DayNumber(r.value) + 1 == DayNumber(d)
  {
    if d.day > 1 then Some(d.(day := d.day - 1))
    else if d.month > 1 then
      MonthBoundaries(d.year, d.month);
      Some(Date(d.year, d.month - 1, DaysInMonth(d.year, d.month - 1)))
    else if d.year > MinYear then
      MonthBoundaries(d.year - 1, 12);
      Some(Date(d.year - 1, 12, 31))
    else None
  }

  /** The first and last ordinals of year `y`. */
  lemma YearSpan(d: Date)
    requires Valid(d)
    ensures DaysBeforeYear(d.year) < DayNumber(d) <= DaysBeforeYear(d.year) + YearLength(d.year)
  {
    MonthBoundaries(d.year, d.month);
  }

  /** Every year before `b` ends before year `b` starts. */
  lemma {:induction false} YearsInOrder(a: int, b: int)
    requires MinYear <= a < b
    ensures DaysBeforeYear(a) + YearLength(a) <= DaysBeforeYear(b)
    decreases b - a
  {
    if a + 1 < b {
      YearsInOrder(a, b - 1);
    }
  }

  /** Every month before `m2` ends before month `m2` starts. */
  lemma {:induction false} MonthsInOrder(y: int, m1: int, m2: int)
    requires 1 <= m1 < m2 <= 12
    ensures DaysBeforeMonth(y, m1) + DaysInMonth(y, m1) <= DaysBeforeMonth(y, m2)
    decreases m2 - m1
  {
    MonthBoundaries(y, m2);
    if m1 + 1 < m2 {
      MonthsInOrder(y, m1, m2 - 1);
    }
  }

  /** Distinct valid dates have distinct ordinals. */
  lemma DayNumberInjective(d1: Date, d2: Date)
    requires Valid(d1) && Valid(d2)
    requires DayNumber(d1) == DayNumber(d2)
    ensures d1 == d2
  {
    YearSpan(d1);
    YearSpan(d2);
    if d1.year < d2.year {
      YearsInOrder(d1.year, d2.year);
    } else if d2.year < d1.year {
      YearsInOrder(d2.year, d1.year);
    } else if d1.month < d2.month {
      MonthsInOrder(d1.year, d1.month, d2.month);
    } else if d2.month < d1.month {
      MonthsInOrder(d1.year, d2.month, d1.month);
    }
  }

  /** `PrevDay` is exactly the ordinal predecessor among valid dates. */
  lemma PrevDayIsOrdinalPredecessor(d: Date, e: Date)
    requires Valid(d) && Valid(e)
    ensures PrevDay(d) == Some(e) <==> DayNumber(e) + 1 == DayNumber(d)
  {
    if DayNumber(e) + 1 == DayNumber(d) {
      YearSpan(e);
      assert d != Date(MinYear, 1, 1);
      DayNumberInjective(PrevDay(d).value, e);
    }
  }

  /** `today.replace(day=1) - timedelta(days=1)`: the last day of the month before `today`'s. */
  function LastDayOfPreviousMonth(today: Date): (r: Option<Date>)
    requires Valid(today)
    ensures r.None? <==> today.year == MinYear && today.month == 1
    ensures r.Some? ==> Valid(r.value) && r.value.day == DaysInMonth(r.value.year, r.value.month)
    ensures r.Some? && today.month > 1 ==> r.value.year == today.year && r.value.month == today.month - 1
    ensures r.Some? && today.month == 1 ==> r.value.year == today.year - 1 && r.value.month == 12
  {
    PrevDay(today.(day := 1))
  }

  /** Yesterday lies in another month exactly when today is the first; it is
      then the last day of the previous month. */
  lemma YesterdayChangesMonth(today: Date)
    requires Valid(today) && PrevDay(today).Some?
    ensures PrevDay(today).value.month != today.month <==> today.day == 1
    ensures today.day == 1 ==> PrevDay(today) == LastDayOfPreviousMonth(today)
  {
  }
}
