/**
 * Proleptic Gregorian dates and date-times, as Python's `datetime` and
 * `calendar` modules define them: month lengths, leap years, the ordinal day
 * number (0001-01-01 is day 1), the Monday-first weekday, the field-by-field
 * comparison of date-times, and a linear time line in microseconds.
 */
module Calendar {

  const MinYear: int := 1
  const MaxYear: int := 9999

  const MinutesPerDay: int := 1440
  const MicrosPerMinute: int := 60_000_000

  predicate IsLeap(y: int) {
    y % 4 == 0 && (y % 100 != 0 || y % 400 == 0)
  }

  /** `calendar.monthrange(y, m)[1]`. */
  function DaysInMonth(y: int, m: int): (n: int)
    requires 1 <= m <= 12
    ensures 28 <= n <= 31
    ensures n == 29 <==> m == 2 && IsLeap(y)
  {
    if m == 2 then (if IsLeap(y) then 29 else 28)
    else if m == 4 || m == 6 || m == 9 || m == 11 then 30
    else 31
  }

  function DaysInYear(y: int): int {
    if IsLeap(y) then 366 else 365
  }

  datatype Date = Date(year: int, month: int, day: int)

  /** A naive `datetime` at minute precision (seconds and microseconds are zero). */
  datatype DateTime = DateTime(year: int, month: int, day: int, hour: int, minute: int) {

    /** `dt.date()` */
    function DateOf(): Date {
      Date(year, month, day)
    }

    /** `dt.replace(year=d.year, month=d.month, day=d.day)` */
    function WithDate(d: Date): DateTime {
      DateTime(d.year, d.month, d.day, hour, minute)
    }

    /** `dt.replace(day=d)` */
    function WithDay(d: int): DateTime {
      DateTime(year, month, d, hour, minute)
    }
  }

  /** A date `datetime.date` accepts. */
  predicate ValidDate(d: Date) {
    && MinYear <= d.year <= MaxYear
    && 1 <= d.month <= 12
    && 1 <= d.day <= DaysInMonth(d.year, d.month)
  }

  /** A date-time `datetime.datetime` accepts. */
  predicate Valid(dt: DateTime) {
    && ValidDate(dt.DateOf())
    && 0 <= dt.hour < 24
    && 0 <= dt.minute < 60
  }

  /** Days in the years before `y`, the closed form Python's `datetime` uses. */
  function DaysBeforeYear(y: int): int
    requires y >= 1
  {
    var p := y - 1;
    p * 365 + p / 4 - p / 100 + p / 400
  }

  /** Days in the months of year `y` before month `m`. */
  function DaysBeforeMonth(y: int, m: int): int
    requires 1 <= m <= 12
  {
    var table := [0, 31, 59, 90, 120, 151, 181, 212, 243, 273, 304, 334];
    table[m - 1] + (if m > 2 && IsLeap(y) then 1 else 0)
  }

  /** `date.toordinal()`: 0001-01-01 is day 1. */
  function Ordinal(d: Date): int
    requires ValidDate(d)
  {
    DaysBeforeYear(d.year) + DaysBeforeMonth(d.year, d.month) + d.day
  }

  /** `date.weekday()`: Monday is 0 and Sunday is 6. */
  function Weekday(d: Date): (w: int)
    requires ValidDate(d)
    ensures 0 <= w < 7
  {
    (Ordinal(d) + 6) % 7
  }

  /** Shifting before or after taking the remainder by 7 gives the same remainder. */
  lemma ModSevenShift(x: int, k: int)
    ensures (x % 7 + k) % 7 == (x + k) % 7
  {
  }

  /** The day after a date falls on the next weekday, Sunday wrapping round to Monday. */
  lemma WeekdayCycle(a: Date, b: Date)
    requires ValidDate(a) && ValidDate(b) && Ordinal(b) == Ordinal(a) + 1
    ensures Weekday(b) == (Weekday(a) + 1) % 7
  {
    ModSevenShift(Ordinal(a) + 6, 1);
  }

  /** Day d of a month falls d - 1 weekdays after the first of the month. */
  lemma WeekdayInMonth(y: int, m: int, d: int)
    requires ValidDate(Date(y, m, 1)) && ValidDate(Date(y, m, d))
    ensures Weekday(Date(y, m, d)) == (Weekday(Date(y, m, 1)) + d - 1) % 7
  {
    ModSevenShift(Ordinal(Date(y, m, 1)) + 6, d - 1);
  }

  /** 1 January 2024 was a Monday, the weekday numbered 0. */
  lemma KnownMonday()
    ensures Weekday(Date(2024, 1, 1)) == 0
  {
  }

  /** Minutes since 0001-01-01 00:00 (the day before day 1 counts as day 0). */
  function MinuteIndex(dt: DateTime): int
    requires Valid(dt)
  {
    (Ordinal(dt.DateOf()) * 24 + dt.hour) * 60 + dt.minute
  }

  /** The point of the time line, in microseconds, that a date-time denotes. */
  function InstantOf(dt: DateTime): int
    requires Valid(dt)
  {
    MinuteIndex(dt) * MicrosPerMinute
  }

  /** `a < b` on dates: year, then month, then day. */
  predicate DateBefore(a: Date, b: Date) {
    || a.year < b.year
    || (a.year == b.year && a.month < b.month)
    || (a.year == b.year && a.month == b.month && a.day < b.day)
  }

  /** `a < b` on date-times: the date, then the hour, then the minute. */
  predicate Before(a: DateTime, b: DateTime) {
    || DateBefore(a.DateOf(), b.DateOf())
    || (a.DateOf() == b.DateOf() && a.hour < b.hour)
    || (a.DateOf() == b.DateOf() && a.hour == b.hour && a.minute < b.minute)
  }

  /** `a <= b` on date-times. */
  predicate AtOrBefore(a: DateTime, b: DateTime) {
    Before(a, b) || a == b
  }

  /** The comparison is a total order: exactly one of a < b, a == b, b < a. */
  lemma BeforeTrichotomy(a: DateTime, b: DateTime)
    ensures Before(a, b) || a == b || Before(b, a)
    ensures !(Before(a, b) && Before(b, a))
    ensures !Before(a, a)
  {
  }

  lemma BeforeTransitive(a: DateTime, b: DateTime, c: DateTime)
    requires Before(a, b) && Before(b, c)
    ensures Before(a, c)
  {
  }

  /** Adding one year to the closed form adds that year's length. */
  lemma DaysBeforeNextYear(y: int)
    requires y >= 1
    ensures DaysBeforeYear(y + 1) == DaysBeforeYear(y) + DaysInYear(y)
  {
    var p := y - 1;
    DivSucc(p, 4);
    DivSucc(p, 100);
    DivSucc(p, 400);
    LeapCount(y);
  }

  /** The three counts of the closed form add up to one extra day exactly in a leap year. */
  lemma LeapCount(y: int)
    ensures (if y % 4 == 0 then 1 else 0) - (if y % 100 == 0 then 1 else 0) + (if y % 400 == 0 then 1 else 0)
         == (if IsLeap(y) then 1 else 0)
  {
    if y % 400 == 0 {
      assert y == 100 * (4 * (y / 400));
    }
    if y % 100 == 0 {
      assert y == 4 * (25 * (y / 100));
    }
  }

  /** Counting one more year adds one multiple of k exactly when that year is one. */
  lemma DivSucc(p: int, k: int)
    requires p >= 0 && (k == 4 || k == 100 || k == 400)
    ensures (p + 1) / k == p / k + (if (p + 1) % k == 0 then 1 else 0)
  {
    if k == 4 {
      var q, r := p / 4, p % 4;
      assert p == 4 * q + r;
      if r == 3 { assert p + 1 == 4 * (q + 1); } else { assert p + 1 == 4 * q + (r + 1); }
    } else if k == 100 {
      var q, r := p / 100, p % 100;
      assert p == 100 * q + r;
      if r == 99 { assert p + 1 == 100 * (q + 1); } else { assert p + 1 == 100 * q + (r + 1); }
    } else {
      var q, r := p / 400, p % 400;
      assert p == 400 * q + r;
      if r == 399 { assert p + 1 == 400 * (q + 1); } else { assert p + 1 == 400 * q + (r + 1); }
    }
  }

  /** Adding one month to the table adds that month's length. */
  lemma DaysBeforeNextMonth(y: int, m: int)
    requires 1 <= m < 12
    ensures DaysBeforeMonth(y, m + 1) == DaysBeforeMonth(y, m) + DaysInMonth(y, m)
  {
  }

  lemma DaysBeforeMonthBound(y: int, m: int)
    requires 1 <= m <= 12
    ensures DaysBeforeMonth(y, m) + DaysInMonth(y, m) <= DaysInYear(y)
  {
  }

  lemma {:induction false} DaysBeforeYearMonotone(a: int, b: int)
    requires 1 <= a < b
    ensures DaysBeforeYear(a) + DaysInYear(a) <= DaysBeforeYear(b)
    decreases b - a
  {
    DaysBeforeNextYear(a);
    if a + 1 < b {
      DaysBeforeYearMonotone(a + 1, b);
    }
  }

  lemma {:induction false} DaysBeforeMonthMonotone(y: int, a: int, b: int)
    requires 1 <= a < b <= 12
    ensures DaysBeforeMonth(y, a) + DaysInMonth(y, a) <= DaysBeforeMonth(y, b)
  {
  }

  /** The ordinal numbering agrees with the field-by-field order of dates. */
  lemma OrdinalOrder(a: Date, b: Date)
    requires ValidDate(a) && ValidDate(b)
    ensures DateBefore(a, b) <==> Ordinal(a) < Ordinal(b)
    ensures a == b <==> Ordinal(a) == Ordinal(b)
  {
    if a.year < b.year {
      OrdinalYearGap(a, b);
    } else if b.year < a.year {
      OrdinalYearGap(b, a);
    } else if a.month < b.month {
      DaysBeforeMonthMonotone(a.year, a.month, b.month);
    } else if b.month < a.month {
      DaysBeforeMonthMonotone(a.year, b.month, a.month);
    }
  }

  lemma OrdinalYearGap(a: Date, b: Date)
    requires ValidDate(a) && ValidDate(b) && a.year < b.year
    ensures Ordinal(a) < Ordinal(b)
  {
    DaysBeforeMonthBound(a.year, a.month);
    DaysBeforeYearMonotone(a.year, b.year);
  }

  /** The minute index agrees with the field-by-field order of date-times. */
  lemma MinuteIndexOrder(a: DateTime, b: DateTime)
    requires Valid(a) && Valid(b)
    ensures Before(a, b) <==> MinuteIndex(a) < MinuteIndex(b)
    ensures a == b <==> MinuteIndex(a) == MinuteIndex(b)
  {
    OrdinalOrder(a.DateOf(), b.DateOf());
  }

  /** Instants agree with the order of date-times, and distinct date-times are distinct instants. */
  lemma InstantOrder(a: DateTime, b: DateTime)
    requires Valid(a) && Valid(b)
    ensures Before(a, b) <==> InstantOf(a) < InstantOf(b)
    ensures a == b <==> InstantOf(a) == InstantOf(b)
  {
    MinuteIndexOrder(a, b);
  }
}
