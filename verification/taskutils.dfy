/**
 * taskutils.py: reading a calendar event's start time and rendering events
 * as the one-line strings the bot sends. An event is the dictionary the
 * calendar service returns; only its `summary` key and its `start` object
 * are read, and both may be absent.
 */
module TaskUtils {
  import opened Wrappers
  import opened Calendar
  import opened Text
  import opened DtFormat

  /** The event's `start` object: its `dateTime` and `date` keys, each absent or holding the decoded ISO value. */
  datatype StartField = StartField(dateTime: Option<DateTime>, date: Option<Date>)

  /** A calendar event: the `summary` key and the `start` object, each possibly absent. */
  datatype CalendarEvent = CalendarEvent(summary: Option<string>, start: Option<StartField>)

  /** Every decoded value is one `fromisoformat` can return. */
  predicate WellFormed(e: CalendarEvent) {
    e.start.Some? ==>
      && (e.start.value.dateTime.Some? ==> Valid(e.start.value.dateTime.value))
      && (e.start.value.date.Some? ==> ValidDate(e.start.value.date.value))
  }

  function Midnight(d: Date): DateTime {
    DateTime(d.year, d.month, d.day, 0, 0)
  }

  /**
   * `get_task_start_time`: the `dateTime` value when the key is present,
   * otherwise the `date` value at midnight. None where Python raises: a
   * missing `start` key (KeyError) or neither key (`fromisoformat(None)`,
   * TypeError).
   */
  function StartTime(e: CalendarEvent): (r: Option<DateTime>)
    requires WellFormed(e)
    ensures r.Some? <==> e.start.Some? && (e.start.value.dateTime.Some? || e.start.value.date.Some?)
    ensures r.Some? ==> Valid(r.value)
    ensures e.start.Some? && e.start.value.dateTime.Some? ==> r == e.start.value.dateTime
    ensures r.Some? && e.start.value.dateTime.None? ==>
      r.value.DateOf() == e.start.value.date.value && r.value.hour == 0 && r.value.minute == 0
  {
    match e.start
    case None => None
    case Some(s) =>
      if s.dateTime.Some? then s.dateTime
      else if s.date.Some? then Some(Midnight(s.date.value))
      else None
  }

  /** The `strftime` format `task_to_string` picks: `%d.%m.%Y %H:%M` with the date, `%H:%M` without. */
  function TimeText(dt: DateTime, withDate: bool): string
    requires Valid(dt)
  {
    if withDate then DayClockText(dt) else ClockText(dt)
  }

  /** `task_to_string(task, with_date)`: the start time, one space, the summary; None where it raises. */
  function TaskToString(e: CalendarEvent, withDate: bool): (r: Option<string>)
    requires WellFormed(e)
    ensures r.Some? <==> StartTime(e).Some? && e.summary.Some?
  {
    match StartTime(e)
    case None => None
    case Some(dt) =>
      if e.summary.None? then None else Some(TimeText(dt, withDate) + " " + e.summary.value)
  }

  /** A task string can be rendered: the event has a start time and a summary. */
  predicate Renderable(e: CalendarEvent)
    requires WellFormed(e)
  {
    StartTime(e).Some? && e.summary.Some?
  }

  /**
   * Without the date, a task string is two hour digits, ':', two minute
   * digits, one space and the summary, and the digits read back as the
   * start's hour and minute. With the date, it is the same string behind
   * the day, month and year.
   */
  lemma TaskToStringShape(e: CalendarEvent)
    requires WellFormed(e) && Renderable(e)
    ensures var r, dt := TaskToString(e, false).value, StartTime(e).value;
      && |r| == 6 + |e.summary.value|
      && r[2] == ':' && r[5] == ' '
      && AllDigits(r[..2]) && DigitsValue(r[..2]) == dt.hour
      && AllDigits(r[3..5]) && DigitsValue(r[3..5]) == dt.minute
      && r[6..] == e.summary.value
    ensures var dt := StartTime(e).value;
      TaskToString(e, true).value
      == Pad2(dt.day) + "." + Pad2(dt.month) + "." + YearText(dt.year) + " " + TaskToString(e, false).value
  {
    var dt := StartTime(e).value;
    var c := ClockText(dt);
    var r := TaskToString(e, false).value;
    ClockTextShape(dt);
    assert r == c + " " + e.summary.value;
    assert r[..2] == c[..2];
    assert r[3..5] == c[3..];
  }

  const EmptyListText: string := "Список пуст."
  const ScheduleHeader: string := "Расписание:"

  /** The marker around a listed task: '_' for one that has started before `now`, '*' otherwise. */
  function Mark(e: CalendarEvent, now: int): char
    requires WellFormed(e) && StartTime(e).Some?
  {
    if InstantOf(StartTime(e).value) < now then '_' else '*'
  }

  /** One line of `tasks_to_string`: " - ", the marker, the task string, the marker. */
  function Line(e: CalendarEvent, now: int): (r: Option<string>)
    requires WellFormed(e)
    ensures r.Some? <==> Renderable(e)
  {
    match TaskToString(e, false)
    case None => None
    case Some(t) => var m := Mark(e, now); Some(" - " + [m] + t + [m])
  }

  /** The lines of all events in order; None if any event cannot be rendered. */
  function Lines(es: seq<CalendarEvent>, now: int): (r: Option<seq<string>>)
    requires forall k :: 0 <= k < |es| ==> WellFormed(es[k])
    ensures r.Some? <==> forall k :: 0 <= k < |es| ==> Renderable(es[k])
    ensures r.Some? ==> |r.value| == |es|
    ensures r.Some? ==> forall k :: 0 <= k < |es| ==> Line(es[k], now) == Some(r.value[k])
    decreases |es|
  {
    if |es| == 0 then Some([])
    else
      var head, tail := Line(es[0], now), Lines(es[1..], now);
      assert forall k :: 1 <= k < |es| ==> es[k] == es[1..][k - 1];
      if head.Some? && tail.Some? then Some([head.value] + tail.value) else None
  }

  /**
   * `tasks_to_string(tasks)` with `datetime.now()` given as the instant
   * `now`: "Список пуст." for no events, otherwise the header and one line
   * per event joined by line breaks; None where it raises.
   */
  function TasksToString(es: seq<CalendarEvent>, now: int): (r: Option<string>)
    requires forall k :: 0 <= k < |es| ==> WellFormed(es[k])
    ensures |es| == 0 ==> r == Some(EmptyListText)
    ensures |es| > 0 ==> (r.Some? <==> forall k :: 0 <= k < |es| ==> Renderable(es[k]))
  {
    if |es| == 0 then Some(EmptyListText)
    else match Lines(es, now)
      case None => None
      case Some(ls) => Some(Join([ScheduleHeader] + ls, '\n'))
  }

  /**
   * A line is " - " and the task string wrapped in one marker on each
   * side; the marker is '_' exactly when the start is before `now`.
   */
  lemma LineMark(e: CalendarEvent, now: int)
    requires WellFormed(e) && Renderable(e)
    ensures var l := Line(e, now).value;
      && |l| == |TaskToString(e, false).value| + 5
      && l[..3] == " - "
      && l[4..|l| - 1] == TaskToString(e, false).value
      && l[3] == l[|l| - 1]
      && (l[3] == '_' <==> InstantOf(StartTime(e).value) < now)
      && (l[3] == '*' <==> now <= InstantOf(StartTime(e).value))
  {
    var t := TaskToString(e, false).value;
    var m := Mark(e, now);
    var l := Line(e, now).value;
    assert l == " - " + [m] + t + [m];
    assert l[4..|l| - 1] == t;
  }

  /** A task string without the date, over a summary without line breaks, has no line break. */
  lemma TaskTextOneLine(e: CalendarEvent)
    requires WellFormed(e) && Renderable(e) && '\n' !in e.summary.value
    ensures '\n' !in TaskToString(e, false).value
  {
    var dt := StartTime(e).value;
    var c := ClockText(dt);
    ClockTextShape(dt);
    assert '\n' !in c[..2] && '\n' !in c[3..];
    assert c == c[..2] + [c[2]] + c[3..];
    assert TaskToString(e, false).value == c + " " + e.summary.value;
  }

  lemma LineOneLine(e: CalendarEvent, now: int)
    requires WellFormed(e) && Renderable(e) && '\n' !in e.summary.value
    ensures '\n' !in Line(e, now).value
  {
    TaskTextOneLine(e);
    var m := Mark(e, now);
    assert Line(e, now).value == " - " + [m] + TaskToString(e, false).value + [m];
  }

  /**
   * For events whose summaries have no line break, splitting the schedule
   * on line breaks gives back the header and then exactly one line per
   * event, in order.
   */
  lemma TasksToStringLines(es: seq<CalendarEvent>, now: int)
    requires |es| > 0
    requires forall k :: 0 <= k < |es| ==> WellFormed(es[k]) && Renderable(es[k]) && '\n' !in es[k].summary.value
    ensures Split(TasksToString(es, now).value, '\n') == [ScheduleHeader] + Lines(es, now).value
  {
    var ls := Lines(es, now).value;
    var lines := [ScheduleHeader] + ls;
    forall k | 0 <= k < |lines|
      ensures '\n' !in lines[k]
    {
      if k > 0 {
        assert lines[k] == ls[k - 1];
        LineOneLine(es[k - 1], now);
      }
    }
    SplitJoin(lines, '\n');
  }
}
