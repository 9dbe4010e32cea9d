/**
 * The calendar arithmetic of Python's `datetime` and `calendar` modules that the
 * utilities rely on: the proleptic Gregorian calendar over years 1..9999, the
 * naive (wall-clock) date-time value, its field-by-field ordering, the ordinal day
 * count behind it, and adding a span of less than one day.
 */
module Calendar {
  import opened Wrappers

  const MinYear: int := 1
  const MaxYear: int := 9999
  const SecondsPerDay: int := 86400
  const MicrosPerSecond: int := 1000000

  /** The Gregorian leap-year rule. */
  predicate IsLeapYear(year: int) {
    year % 4 == 0 && (year % 100 != 0 || year % 400 == 0)
  }

  function DaysInYear(year: int): int {
    if IsLeapYear(year) then 366 else 365
  }

  /** `calendar.monthrange(year, month)[1]`: the number of days of the month. */
  function DaysInMonth(year: int, month: int): (n: int)
    requires 1 <= month <= 12
    ensures 28 <= n <= 31
    ensures month == 2 ==> (n == 29 <==> IsLeapYear(year)) && (n == 28 <==> !IsLeapYear(year))
    ensures month == 4 || month == 6 || month == 9 || month == 11 ==> n == 30
    ensures month != 2 && month != 4 && month != 6 && month != 9 && month != 11 ==> n == 31
  {
    if month == 2 && IsLeapYear(year) then 29
    else [31, 28, 31, 30, 31, 30, 31, 31, 30, 31, 30, 31][month - 1]
  }

  /** A calendar date (year, month, day). */
  datatype Date = Date(year: int, month: int, day: int)

  predicate ValidDate(d: Date) {
    MinYear <= d.year <= MaxYear && 1 <= d.month <= 12 && 1 <= d.day <= DaysInMonth(d.year, d.month)
  }

  /** A date that Python's `date` type can hold. */
  type CalendarDay = d: Date | ValidDate(d) witness Date(1, 1, 1)

  /** The wall-clock fields of a Python `datetime`, without its time zone. */
  datatype DateTime = DateTime(year: int, month: int, day: int,
                               hour: int, minute: int, second: int, microsecond: int)

  predicate ValidDateTime(t: DateTime) {
    && ValidDate(Date(t.year, t.month, t.day))
    && 0 <= t.hour < 24 && 0 <= t.minute < 60 && 0 <= t.second < 60
    && 0 <= t.microsecond < MicrosPerSecond
  }

  /** A naive `datetime`: every constructed `datetime` satisfies these range checks. */
  type Naive = t: DateTime | ValidDateTime(t) witness DateTime(1, 1, 1, 0, 0, 0, 0)

  function DateOf(t: Naive): CalendarDay {
    Date(t.year, t.month, t.day)
  }

  /** Python's `_days_before_year`: days in the years before `year`. */
  function DaysBeforeYear(year: int): int
    requires year >= 1
  {
    var y := year - 1;
    y * 365 + y / 4 - y / 100 + y / 400
  }

  /** Python's `_days_before_month`: days in the months of `year` before `month`. */
  function DaysBeforeMonth(year: int, month: int): int
    requires 1 <= month <= 12
  {
    [0, 31, 59, 90, 120, 151, 181, 212, 243, 273, 304, 334][month - 1]
      + (if month > 2 && IsLeapYear(year) then 1 else 0)
  }

  /** `date.toordinal()`: 0001-01-01 is day 1. */
  function DayOrdinal(d: CalendarDay): int {
    DaysBeforeYear(d.year) + DaysBeforeMonth(d.year, d.month) + d.day
  }

  /** Counting the multiples of `d` up to `x + 1` adds one exactly when `x + 1` is one. */
  lemma MultiplesStep(x: int, d: int)
    requires x >= 0 && (d == 4 || d == 100 || d == 400)
    ensures (x + 1) / d == x / d + (if (x + 1) % d == 0 then 1 else 0)
  {
    if d == 4 {
      assert (x + 1) / 4 == x / 4 + (if (x + 1) % 4 == 0 then 1 else 0);
    } else if d == 100 {
      assert (x + 1) / 100 == x / 100 + (if (x + 1) % 100 == 0 then 1 else 0);
    } else {
      assert (x + 1) / 400 == x / 400 + (if (x + 1) % 400 == 0 then 1 else 0);
    }
  }

  lemma DaysBeforeYearStep(year: int)
    requires year >= 1
    ensures DaysBeforeYear(year + 1) == DaysBeforeYear(year) + DaysInYear(year)
  {
    MultiplesStep(year - 1, 4);
    MultiplesStep(year - 1, 100);
    MultiplesStep(year - 1, 400);
    DivisorsOfCenturies(year);
    assert DaysBeforeYear(year + 1) - DaysBeforeYear(year)
        == 365 + (year / 4 - (year - 1) / 4) - (year / 100 - (year - 1) / 100) + (year / 400 - (year - 1) / 400);
  }

  /** A multiple of 400 is a multiple of 100, and a multiple of 100 one of 4. */
  lemma DivisorsOfCenturies(x: int)
    ensures x % 400 == 0 ==> x % 100 == 0
    ensures x % 100 == 0 ==> x % 4 == 0
  {
    MultipleOfMultiple(x, 400, 100);
    MultipleOfMultiple(x, 100, 4);
  }

  /** When `d` divides `e`, a multiple of `e` is a multiple of `d`. */
  lemma MultipleOfMultiple(x: int, e: int, d: int)
    requires (e == 400 && d == 100) || (e == 100 && d == 4)
    ensures x % e == 0 ==> x % d == 0
  {
    if x % e == 0 && e == 400 {
      assert x == 100 * (4 * (x / 400));
      QuotientOfMultiple(x, 100, 4 * (x / 400));
    } else if x % e == 0 {
      assert x == 4 * (25 * (x / 100));
      QuotientOfMultiple(x, 4, 25 * (x / 100));
    }
  }

  lemma QuotientOfMultiple(x: int, d: int, k: int)
    requires (d == 100 || d == 4) && x == d * k
    ensures x % d == 0
  {
    if d == 100 {
      assert (100 * k) % 100 == 0;
    } else {
      assert (4 * k) % 4 == 0;
    }
  }

  /** The year count is monotone: a whole year lies between the start of `a` and of any later year. */
  lemma {:induction false} DaysBeforeYearGrows(a: int, b: int)
    requires 1 <= a < b
    ensures DaysBeforeYear(a) + DaysInYear(a) <= DaysBeforeYear(b)
    decreases b - a
  {
    DaysBeforeYearStep(a);
    if a + 1 < b {
      DaysBeforeYearGrows(a + 1, b);
    }
  }

  lemma DaysBeforeMonthStep(year: int, month: int)
    requires 1 <= month < 12
    ensures DaysBeforeMonth(year, month + 1) == DaysBeforeMonth(year, month) + DaysInMonth(year, month)
  {
  }

  lemma DecemberEndsYear(year: int)
    ensures DaysBeforeMonth(year, 12) + DaysInMonth(year, 12) == DaysInYear(year)
  {
  }

  /** Earlier months of the same year end before later months start. */
  lemma MonthsInOrder(year: int, m1: int, m2: int)
    requires 1 <= m1 < m2 <= 12
    ensures DaysBeforeMonth(year, m1) + DaysInMonth(year, m1) <= DaysBeforeMonth(year, m2)
  {
  }

  lemma MonthWithinYear(year: int, month: int)
    requires 1 <= month <= 12
    ensures DaysBeforeMonth(year, month) + DaysInMonth(year, month) <= DaysInYear(year)
  {
    if month < 12 {
      MonthsInOrder(year, month, 12);
    }
  }

  /** The field-by-field order of dates agrees with their ordinals. */
  predicate DateBefore(a: Date, b: Date) {
    a.year < b.year
    || (a.year == b.year && (a.month < b.month || (a.month == b.month && a.day < b.day)))
  }

  lemma DateBeforeOrdinal(a: CalendarDay, b: CalendarDay)
    requires DateBefore(a, b)
    ensures DayOrdinal(a) < DayOrdinal(b)
  {
    if a.year < b.year {
      MonthWithinYear(a.year, a.month);
      DaysBeforeYearGrows(a.year, b.year);
    } else if a.month < b.month {
      MonthsInOrder(a.year, a.month, b.month);
    }
  }

  /** The next calendar day, or None past 9999-12-31 (Python raises OverflowError). */
  function NextDay(d: CalendarDay): (r: Option<CalendarDay>)
    ensures r.None? <==> d == Date(MaxYear, 12, 31)
    ensures r.Some? ==> DayOrdinal(r.value) == DayOrdinal(d) + 1
  {
    if d.day < DaysInMonth(d.year, d.month) then Some(Date(d.year, d.month, d.day + 1))
    else if d.month < 12 then
      DaysBeforeMonthStep(d.year, d.month);
      Some(Date(d.year, d.month + 1, 1))
    else if d.year < MaxYear then
      DecemberEndsYear(d.year);
      DaysBeforeYearStep(d.year);
      Some(Date(d.year + 1, 1, 1))
    else None
  }

  /** The previous calendar day, or None before 0001-01-01. */
  function PreviousDay(d: CalendarDay): (r: Option<CalendarDay>)
    ensures r.None? <==> d == Date(MinYear, 1, 1)
    ensures r.Some? ==> DayOrdinal(r.value) + 1 == DayOrdinal(d)
  {
    if d.day > 1 then Some(Date(d.year, d.month, d.day - 1))
    else if d.month > 1 then
      DaysBeforeMonthStep(d.year, d.month - 1);
      Some(Date(d.year, d.month - 1, DaysInMonth(d.year, d.month - 1)))
    else if d.year > MinYear then
      DecemberEndsYear(d.year - 1);
      DaysBeforeYearStep(d.year - 1);
      Some(Date(d.year - 1, 12, 31))
    else None
  }

  function SecondsOfDay(t: Naive): (s: int)
    ensures 0 <= s < SecondsPerDay
  {
    t.hour * 3600 + t.minute * 60 + t.second
  }

  /** Microseconds since 0001-01-01 00:00:00 on the naive time line (`toordinal` scaled). */
  function Micros(t: Naive): int {
    ((DayOrdinal(DateOf(t)) - 1) * SecondsPerDay + SecondsOfDay(t)) * MicrosPerSecond + t.microsecond
  }

  /** Python's comparison of two naive datetimes: field by field, year first. */
  predicate Before(a: DateTime, b: DateTime) {
    a.year < b.year
    || (a.year == b.year && (a.month < b.month
    || (a.month == b.month && (a.day < b.day
    || (a.day == b.day && (a.hour < b.hour
    || (a.hour == b.hour && (a.minute < b.minute
    || (a.minute == b.minute && (a.second < b.second
    || (a.second == b.second && a.microsecond < b.microsecond)))))))))))
  }

  predicate NotAfter(a: DateTime, b: DateTime) {
    !Before(b, a)
  }

  lemma {:induction false} BeforeMeansEarlierMicros(a: Naive, b: Naive)
    requires Before(a, b)
    ensures Micros(a) < Micros(b)
  {
    if DateBefore(DateOf(a), DateOf(b)) {
      DateBeforeOrdinal(DateOf(a), DateOf(b));
    }
  }

  /**
   * The field-by-field order that Python uses is the order of the time line:
   * the naive comparison is sound and complete for the instants it names.
   */
  lemma {:induction false} BeforeIffEarlier(a: Naive, b: Naive)
    ensures Before(a, b) <==> Micros(a) < Micros(b)
  {
    if Before(a, b) {
      BeforeMeansEarlierMicros(a, b);
    } else if Before(b, a) {
      BeforeMeansEarlierMicros(b, a);
    } else {
      assert a == b;
    }
  }

  /** The datetime on day `d` at `seconds` past midnight, with the given microsecond. */
  function At(d: CalendarDay, seconds: int, microsecond: int): (r: Naive)
    requires 0 <= seconds < SecondsPerDay && 0 <= microsecond < MicrosPerSecond
    ensures DateOf(r) == d && SecondsOfDay(r) == seconds && r.microsecond == microsecond
  {
    DateTime(d.year, d.month, d.day, seconds / 3600, seconds % 3600 / 60, seconds % 60, microsecond)
  }

  /**
   * `t + timedelta(seconds=delta)` for a span shorter than a day, as Python computes
   * it: the time of day is renormalised and the date moves by at most one day;
   * leaving years 1..9999 is Python's OverflowError, here None.
   */
  function AddSeconds(t: Naive, delta: int): (r: Option<Naive>)
    requires -SecondsPerDay < delta < SecondsPerDay
    ensures r.Some? ==> Micros(r.value) == Micros(t) + delta * MicrosPerSecond
    ensures r.Some? ==> r.value.microsecond == t.microsecond
    ensures r.None? <==>
      (SecondsOfDay(t) + delta >= SecondsPerDay && DateOf(t) == Date(MaxYear, 12, 31))
      || (SecondsOfDay(t) + delta < 0 && DateOf(t) == Date(MinYear, 1, 1))
  {
    var s := SecondsOfDay(t) + delta;
    if s >= SecondsPerDay then
      match NextDay(DateOf(t))
      case None => None
      case Some(d) => Some(At(d, s - SecondsPerDay, t.microsecond))
    else if s < 0 then
      match PreviousDay(DateOf(t))
      case None => None
      case Some(d) => Some(At(d, s + SecondsPerDay, t.microsecond))
    else
      Some(At(DateOf(t), s, t.microsecond))
  }
}
