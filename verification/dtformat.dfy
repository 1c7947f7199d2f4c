/**
 * The date-time texts of keyboard.py, bot.py and taskutils.py.
 * `DT_FORMAT = '%Y.%m.%d.%H.%M'` is written with `strftime` and read back
 * with `strptime`; the reader accepts what CPython's `_strptime` patterns
 * accept for each directive and rejects dates `datetime` refuses.
 */
module DtFormat {
  import opened Wrappers
  import opened Calendar
  import opened Text

  /** `%Y` as the C library's `strftime` writes it: the year in decimal, without padding. */
  function YearText(y: int): string
    requires y >= 1
  {
    NatToString(y)
  }

  /** `dt.strftime(DT_FORMAT)` */
  function Format(dt: DateTime): string
    requires Valid(dt)
  {
    Join([YearText(dt.year), Pad2(dt.month), Pad2(dt.day), Pad2(dt.hour), Pad2(dt.minute)], '.')
  }

  /** `(?P<Y>\d\d\d\d)` */
  function ReadYear(t: string): (r: Option<int>)
    ensures r.Some? ==> 0 <= r.value <= 9999
  {
    if |t| == 4 && AllDigits(t) then
      DigitsValueBound(t);
      assert Pow10(4) == 10000;
      Some(DigitsValue(t))
    else None
  }

  /** `(?P<m>1[0-2]|0[1-9]|[1-9])` */
  function ReadMonth(t: string): (r: Option<int>)
    ensures r.Some? ==> 1 <= r.value <= 12
  {
    if |t| == 1 && IsDigit(t[0]) && t[0] != '0' then Some(DigitValue(t[0]))
    else if |t| == 2 && AllDigits(t) && 1 <= DigitsValue(t) <= 12 then Some(DigitsValue(t))
    else None
  }

  /** `(?P<d>3[01]|[12]\d|0[1-9]|[1-9]| [1-9])` */
  function ReadDay(t: string): (r: Option<int>)
    ensures r.Some? ==> 1 <= r.value <= 31
  {
    if |t| == 1 && IsDigit(t[0]) && t[0] != '0' then Some(DigitValue(t[0]))
    else if |t| == 2 && t[0] == ' ' && IsDigit(t[1]) && t[1] != '0' then Some(DigitValue(t[1]))
    else if |t| == 2 && AllDigits(t) && 1 <= DigitsValue(t) <= 31 then Some(DigitsValue(t))
    else None
  }

  /** `(?P<H>2[0-3]|[0-1]\d|\d)` */
  function ReadHour(t: string): (r: Option<int>)
    ensures r.Some? ==> 0 <= r.value < 24
  {
    if |t| == 1 && IsDigit(t[0]) then Some(DigitValue(t[0]))
    else if |t| == 2 && AllDigits(t) && DigitsValue(t) <= 23 then Some(DigitsValue(t))
    else None
  }

  /** `(?P<M>[0-5]\d|\d)` */
  function ReadMinute(t: string): (r: Option<int>)
    ensures r.Some? ==> 0 <= r.value < 60
  {
    if |t| == 1 && IsDigit(t[0]) then Some(DigitValue(t[0]))
    else if |t| == 2 && AllDigits(t) && DigitsValue(t) <= 59 then Some(DigitsValue(t))
    else None
  }

  /**
   * `datetime.strptime(s, DT_FORMAT)`; None where it raises ValueError.
   * The directives' patterns contain no '.', so the input must consist of
   * exactly five '.'-separated pieces, each matching its directive.
   */
  function Parse(s: string): (r: Option<DateTime>)
    ensures r.Some? ==> Valid(r.value)
  {
    var f := Split(s, '.');
    if |f| != 5 then None
    else
      match (ReadYear(f[0]), ReadMonth(f[1]), ReadDay(f[2]), ReadHour(f[3]), ReadMinute(f[4]))
      case (Some(y), Some(m), Some(d), Some(h), Some(mi)) =>
        if MinYear <= y && d <= DaysInMonth(y, m) then Some(DateTime(y, m, d, h, mi)) else None
      case _ => None
  }

  /** The formatted text holds only digits and the '.' separators; in particular no ':'. */
  lemma FormatAlphabet(dt: DateTime)
    requires Valid(dt)
    ensures forall i :: 0 <= i < |Format(dt)| ==> IsDigit(Format(dt)[i]) || Format(dt)[i] == '.'
    ensures ':' !in Format(dt)
  {
    var p := [YearText(dt.year), Pad2(dt.month), Pad2(dt.day), Pad2(dt.hour), Pad2(dt.minute)];
    JoinAlphabet(p);
  }

  lemma {:induction false} JoinAlphabet(p: seq<string>)
    requires forall k :: 0 <= k < |p| ==> AllDigits(p[k])
    ensures forall i :: 0 <= i < |Join(p, '.')| ==> IsDigit(Join(p, '.')[i]) || Join(p, '.')[i] == '.'
    decreases |p|
  {
    if |p| > 1 {
      JoinAlphabet(p[1..]);
      var s := Join(p, '.');
      var rest := Join(p[1..], '.');
      assert s == p[0] + ['.'] + rest;
      forall i | 0 <= i < |s|
        ensures IsDigit(s[i]) || s[i] == '.'
      {
        if i < |p[0]| {
          assert s[i] == p[0][i];
        } else if i > |p[0]| {
          assert s[i] == rest[i - |p[0]| - 1];
        }
      }
    }
  }

  lemma ReadPad2(n: int)
    requires 0 <= n < 100
    ensures 1 <= n <= 12 ==> ReadMonth(Pad2(n)) == Some(n)
    ensures 1 <= n <= 31 ==> ReadDay(Pad2(n)) == Some(n)
    ensures n < 24 ==> ReadHour(Pad2(n)) == Some(n)
    ensures n < 60 ==> ReadMinute(Pad2(n)) == Some(n)
  {
    Pad2Value(n);
  }

  /** Reading back a formatted date-time gives the date-time, for four-digit years. */
  lemma ParseFormat(dt: DateTime)
    requires Valid(dt)
    requires dt.year >= 1000
    ensures Parse(Format(dt)) == Some(dt)
  {
    var p := [YearText(dt.year), Pad2(dt.month), Pad2(dt.day), Pad2(dt.hour), Pad2(dt.minute)];
    assert Separable(p, '.') by {
      forall k | 0 <= k < |p|
        ensures '.' !in p[k]
      {
        assert AllDigits(p[k]);
      }
    }
    SplitJoin(p, '.');
    NatToStringFourDigits(dt.year);
    NatToStringValue(dt.year);
    ReadPad2(dt.month);
    ReadPad2(dt.day);
    ReadPad2(dt.hour);
    ReadPad2(dt.minute);
  }

  /** A year below 1000 is written with fewer than four digits, which `%Y` does not read back. */
  lemma ShortYearDoesNotParse(dt: DateTime)
    requires Valid(dt)
    requires dt.year < 1000
    ensures Parse(Format(dt)) == None
  {
    var p := [YearText(dt.year), Pad2(dt.month), Pad2(dt.day), Pad2(dt.hour), Pad2(dt.minute)];
    assert Separable(p, '.') by {
      forall k | 0 <= k < |p|
        ensures '.' !in p[k]
      {
        assert AllDigits(p[k]);
      }
    }
    SplitJoin(p, '.');
    NatToStringShort(dt.year);
  }

  /** `dt.strftime('%H:%M')` */
  function ClockText(dt: DateTime): string
    requires Valid(dt)
  {
    Pad2(dt.hour) + ":" + Pad2(dt.minute)
  }

  /** `dt.strftime('%d.%m.%Y %H:%M')` */
  function DayClockText(dt: DateTime): string
    requires Valid(dt)
  {
    Pad2(dt.day) + "." + Pad2(dt.month) + "." + YearText(dt.year) + " " + ClockText(dt)
  }

  /** `%H:%M` is five characters: two hour digits, ':', two minute digits, which read back as the time. */
  lemma ClockTextShape(dt: DateTime)
    requires Valid(dt)
    ensures |ClockText(dt)| == 5
    ensures ClockText(dt)[2] == ':'
    ensures AllDigits(ClockText(dt)[..2]) && DigitsValue(ClockText(dt)[..2]) == dt.hour
    ensures AllDigits(ClockText(dt)[3..]) && DigitsValue(ClockText(dt)[3..]) == dt.minute
  {
    var c := ClockText(dt);
    assert c[..2] == Pad2(dt.hour);
    assert c[3..] == Pad2(dt.minute);
    Pad2Value(dt.hour);
    Pad2Value(dt.minute);
  }
}
