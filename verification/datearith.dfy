/**
 * The date arithmetic the picker performs: `dt ± relativedelta(<field>=1)`.
 * Days, hours and minutes move the instant by a fixed amount and carry into
 * the larger fields (`timedelta` semantics); months and years shift the
 * calendar fields and then clamp the day to the length of the new month.
 * Where Python raises (a year outside 1..9999) the result is None.
 */
module DateArith {
  import opened Wrappers
  import opened Calendar

  /** The fields the date-time widget can step. */
  datatype Field = Year | Month | Day | Hour | Minute

  /** `d + timedelta(days=1)` */
  function NextDay(d: Date): (r: Option<Date>)
    requires ValidDate(d)
    ensures r.Some? ==> ValidDate(r.value) && Ordinal(r.value) == Ordinal(d) + 1
    ensures r.None? <==> d == Date(MaxYear, 12, 31)
  {
    if d.day < DaysInMonth(d.year, d.month) then
      Some(Date(d.year, d.month, d.day + 1))
    else if d.month < 12 then
      DaysBeforeNextMonth(d.year, d.month);
      Some(Date(d.year, d.month + 1, 1))
    else if d.year < MaxYear then
      DaysBeforeNextYear(d.year);
      Some(Date(d.year + 1, 1, 1))
    else
      None
  }

  /** `d - timedelta(days=1)` */
  function PrevDay(d: Date): (r: Option<Date>)
    requires ValidDate(d)
    ensures r.Some? ==> ValidDate(r.value) && Ordinal(r.value) == Ordinal(d) - 1
    ensures r.None? <==> d == Date(MinYear, 1, 1)
  {
    if d.day > 1 then
      Some(Date(d.year, d.month, d.day - 1))
    else if d.month > 1 then
      DaysBeforeNextMonth(d.year, d.month - 1);
      Some(Date(d.year, d.month - 1, DaysInMonth(d.year, d.month - 1)))
    else if d.year > MinYear then
      DaysBeforeNextYear(d.year - 1);
      Some(Date(d.year - 1, 12, 31))
    else
      None
  }

  /** `dt ± relativedelta(days=1)` */
  function AddDays(dt: DateTime, forward: bool): (r: Option<DateTime>)
    requires Valid(dt)
    ensures r.Some? ==> Valid(r.value)
    ensures r.Some? ==> MinuteIndex(r.value) == MinuteIndex(dt) + (if forward then MinutesPerDay else -MinutesPerDay)
    ensures r.None? <==> dt.DateOf() == (if forward then Date(MaxYear, 12, 31) else Date(MinYear, 1, 1))
  {
    var next := if forward then NextDay(dt.DateOf()) else PrevDay(dt.DateOf());
    match next
    case Some(d) => Some(dt.WithDate(d))
    case None => None
  }

  /** `dt ± relativedelta(hours=1)` */
  function AddHours(dt: DateTime, forward: bool): (r: Option<DateTime>)
    requires Valid(dt)
    ensures r.Some? ==> Valid(r.value)
    ensures r.Some? ==> MinuteIndex(r.value) == MinuteIndex(dt) + (if forward then 60 else -60)
    ensures r.None? <==>
      if forward then dt.DateOf() == Date(MaxYear, 12, 31) && dt.hour == 23
      else dt.DateOf() == Date(MinYear, 1, 1) && dt.hour == 0
  {
    if forward && dt.hour < 23 then
      Some(dt.(hour := dt.hour + 1))
    else if !forward && dt.hour > 0 then
      Some(dt.(hour := dt.hour - 1))
    else
      match AddDays(dt, forward)
      case Some(d) => Some(d.(hour := if forward then 0 else 23))
      case None => None
  }

  /** `dt ± relativedelta(minutes=1)` */
  function AddMinutes(dt: DateTime, forward: bool): (r: Option<DateTime>)
    requires Valid(dt)
    ensures r.Some? ==> Valid(r.value)
    ensures r.Some? ==> MinuteIndex(r.value) == MinuteIndex(dt) + (if forward then 1 else -1)
    ensures r.None? <==>
      if forward then dt == DateTime(MaxYear, 12, 31, 23, 59)
      else dt == DateTime(MinYear, 1, 1, 0, 0)
  {
    if forward && dt.minute < 59 then
      Some(dt.(minute := dt.minute + 1))
    else if !forward && dt.minute > 0 then
      Some(dt.(minute := dt.minute - 1))
    else
      match AddHours(dt, forward)
      case Some(d) => Some(d.(minute := if forward then 0 else 59))
      case None => None
  }

  /** `dt ± relativedelta(months=1)`: step the month, carry into the year, clamp the day. */
  function AddMonths(dt: DateTime, forward: bool): (r: Option<DateTime>)
    requires Valid(dt)
    ensures r.Some? ==> Valid(r.value)
    ensures r.Some? ==> r.value.year * 12 + r.value.month == dt.year * 12 + dt.month + (if forward then 1 else -1)
    ensures r.Some? ==> r.value.day == Min(dt.day, DaysInMonth(r.value.year, r.value.month))
    ensures r.Some? ==> r.value.hour == dt.hour && r.value.minute == dt.minute
    ensures r.None? <==>
      if forward then dt.year == MaxYear && dt.month == 12
      else dt.year == MinYear && dt.month == 1
  {
    var (y, m) :=
      if forward then (if dt.month == 12 then (dt.year + 1, 1) else (dt.year, dt.month + 1))
      else (if dt.month == 1 then (dt.year - 1, 12) else (dt.year, dt.month - 1));
    if MinYear <= y <= MaxYear then
      Some(DateTime(y, m, Min(dt.day, DaysInMonth(y, m)), dt.hour, dt.minute))
    else
      None
  }

  /** `dt ± relativedelta(years=1)`: step the year and clamp the day (29 February becomes the 28th). */
  function AddYears(dt: DateTime, forward: bool): (r: Option<DateTime>)
    requires Valid(dt)
    ensures r.Some? ==> Valid(r.value)
    ensures r.Some? ==> r.value.year == dt.year + (if forward then 1 else -1) && r.value.month == dt.month
    ensures r.Some? ==> r.value.day == Min(dt.day, DaysInMonth(r.value.year, dt.month))
    ensures r.Some? ==> r.value.hour == dt.hour && r.value.minute == dt.minute
    ensures r.None? <==> dt.year == (if forward then MaxYear else MinYear)
  {
    var y := if forward then dt.year + 1 else dt.year - 1;
    if MinYear <= y <= MaxYear then
      Some(DateTime(y, dt.month, Min(dt.day, DaysInMonth(y, dt.month)), dt.hour, dt.minute))
    else
      None
  }

  function Min(a: int, b: int): int {
    if a <= b then a else b
  }

  /** One step of `field` in the given direction. */
  function Shift(dt: DateTime, field: Field, forward: bool): (r: Option<DateTime>)
    requires Valid(dt)
    ensures r.Some? ==> Valid(r.value)
  {
    match field
    case Year => AddYears(dt, forward)
    case Month => AddMonths(dt, forward)
    case Day => AddDays(dt, forward)
    case Hour => AddHours(dt, forward)
    case Minute => AddMinutes(dt, forward)
  }

  /** Stepping a fixed-length field forward and then back (or back and then forward) returns the start. */
  lemma {:induction false} ShiftInverse(dt: DateTime, field: Field, forward: bool)
    requires Valid(dt)
    requires field in {Day, Hour, Minute}
    requires Shift(dt, field, forward).Some?
    ensures Shift(Shift(dt, field, forward).value, field, !forward) == Some(dt)
  {
    var d2 := Shift(dt, field, forward).value;
    var lo := DateTime(MinYear, 1, 1, 0, 0);
    var hi := DateTime(MaxYear, 12, 31, 23, 59);
    assert Valid(lo) && Valid(hi);
    MinuteIndexOrder(lo, dt);
    MinuteIndexOrder(dt, hi);
    MinuteIndexOrder(lo, d2);
    MinuteIndexOrder(d2, hi);
    var back := Shift(d2, field, !forward);
    assert back.Some? by {
      if field == Minute {
        assert d2 != (if forward then lo else hi);
      } else if field == Hour {
        assert MinuteIndex(lo) + 60 > MinuteIndex(DateTime(MinYear, 1, 1, 0, 59));
        assert !(d2.DateOf() == Date(MinYear, 1, 1) && d2.hour == 0) || !forward;
        assert !(d2.DateOf() == Date(MaxYear, 12, 31) && d2.hour == 23) || forward;
      } else {
        assert MinuteIndex(DateTime(MinYear, 1, 1, 23, 59)) < MinuteIndex(lo) + MinutesPerDay;
        assert d2.DateOf() != (if forward then Date(MinYear, 1, 1) else Date(MaxYear, 12, 31));
      }
    }
    MinuteIndexOrder(back.value, dt);
  }

  /** A month step from the 31st lands on the last day of a shorter month. */
  lemma MonthEndClamp(y: int, h: int, mi: int)
    requires MinYear <= y <= MaxYear && 0 <= h < 24 && 0 <= mi < 60
    ensures AddMonths(DateTime(y, 1, 31, h, mi), true) == Some(DateTime(y, 2, if IsLeap(y) then 29 else 28, h, mi))
  {
  }

  /** Month steps do not undo each other once the day was clamped. */
  lemma MonthStepLosesDay()
    ensures AddMonths(DateTime(2023, 1, 31, 12, 0), true) == Some(DateTime(2023, 2, 28, 12, 0))
    ensures AddMonths(DateTime(2023, 2, 28, 12, 0), false) == Some(DateTime(2023, 1, 28, 12, 0))
  {
  }

  /** Year steps clamp 29 February. */
  lemma LeapDayYearStep()
    ensures AddYears(DateTime(2024, 2, 29, 8, 30), true) == Some(DateTime(2025, 2, 28, 8, 30))
  {
  }

  /** Carrying across month, year and leap-year boundaries. */
  lemma CarryExamples()
    ensures AddMonths(DateTime(2024, 12, 15, 0, 0), true) == Some(DateTime(2025, 1, 15, 0, 0))
    ensures AddDays(DateTime(2024, 3, 1, 0, 0), false) == Some(DateTime(2024, 2, 29, 0, 0))
    ensures AddDays(DateTime(2023, 3, 1, 0, 0), false) == Some(DateTime(2023, 2, 28, 0, 0))
    ensures AddMinutes(DateTime(2023, 12, 31, 23, 59), true) == Some(DateTime(2024, 1, 1, 0, 0))
  {
  }
}
