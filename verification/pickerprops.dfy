/**
 * What pressing each button of the picker does: every payload the two
 * keyboard builders produce decodes to the action it was built for.
 */
module PickerProperties {
  import opened Wrappers
  import opened Calendar
  import opened DateArith
  import opened Text
  import opened DtFormat
  import opened MonthGrid
  import opened Keyboard

  /** Splitting callback data recovers the arguments it was built from. */
  lemma Decode(reading: FlagReading, args: seq<string>, today: Date)
    requires ValidDate(today)
    requires |args| >= 1 && Separable(args, ':')
    ensures HandleTokens(reading, Split(CallbackData(args), ':'), today) == HandleTokens(reading, args, today)
  {
    SplitJoin(args, ':');
  }

  /** `dt:<s>` clears the keyboard and returns exactly what `strptime` makes of s (raising if it fails). */
  lemma DonePayload(s: string, today: Date)
    requires ValidDate(today)
    requires ':' !in s
    ensures Handle(CallbackData(["dt", s]), today)
         == Reply(ClearMarkup, if Parse(s).Some? then Finalized(Parse(s).value) else Raised)
  {
    Decode(NonEmpty, ["dt", s], today);
  }

  /** The widget's "Готово" button returns the date-time the widget shows. */
  lemma DonePressFinalizes(dt: DateTime, today: Date)
    requires Valid(dt) && dt.year >= 1000 && ValidDate(today)
    ensures Handle(CreateDateTimeWidget(dt)[5][0].data, today) == Reply(ClearMarkup, Finalized(dt))
  {
    FormatAlphabet(dt);
    ParseFormat(dt);
    DonePayload(Format(dt), today);
  }

  /** The reply the widget's step buttons lead to. */
  function StepReply(moved: Option<DateTime>): Reply
    requires moved.Some? ==> Valid(moved.value)
  {
    match moved
    case Some(d) => Reply(SetMarkup(CreateDateTimeWidget(d)), NoResult)
    case None => Reply(NoEffect, Raised)
  }

  /** The "▲" (row 1) and "▼" (row 3) buttons of column i step that column's field by one. */
  lemma StepPress(dt: DateTime, i: int, forward: bool, today: Date)
    requires Valid(dt) && dt.year >= 1000 && ValidDate(today)
    requires 0 <= i < 5
    ensures FieldNamed(Params[i]).Some?
    ensures Handle(CreateDateTimeWidget(dt)[if forward then 1 else 3][i].data, today)
         == StepReply(Shift(dt, FieldNamed(Params[i]).value, forward))
  {
    var option := if forward then "next" else "prev";
    assert CreateDateTimeWidget(dt)[if forward then 1 else 3][i].data == CallbackData(["edit", Params[i], option, Format(dt)]);
    EditPayload(dt, Params[i], option, today);
  }

  /** `edit:<field>:<option>:<dt>` steps the named field by one, or re-renders the same widget when the field or direction is unknown. */
  lemma EditPayload(dt: DateTime, field: string, option: string, today: Date)
    requires Valid(dt) && dt.year >= 1000 && ValidDate(today)
    requires ':' !in field && ':' !in option
    ensures Handle(CallbackData(["edit", field, option, Format(dt)]), today)
         == if (option == "next" || option == "prev") && FieldNamed(field).Some?
            then StepReply(Shift(dt, FieldNamed(field).value, option == "next"))
            else Reply(SetMarkup(CreateDateTimeWidget(dt)), NoResult)
  {
    FormatAlphabet(dt);
    ParseFormat(dt);
    Decode(NonEmpty, ["edit", field, option, Format(dt)], today);
  }

  /** A step that moves the time line forward never lowers the year. */
  lemma ShiftKeepsLongYear(dt: DateTime, field: Field, forward: bool)
    requires Valid(dt) && dt.year >= 1000
    requires field in {Day, Hour, Minute}
    requires forward
    requires Shift(dt, field, forward).Some?
    ensures Shift(dt, field, forward).value.year >= 1000
  {
    MinuteIndexOrder(Shift(dt, field, forward).value, dt);
  }

  /** Pressing "▲" and then, on the new widget, "▼" in the day, hour or minute column gives back the first widget. */
  lemma NextThenPrevRestores(dt: DateTime, i: int, today: Date)
    requires Valid(dt) && dt.year >= 1000 && ValidDate(today)
    requires i == 0 || i == 3 || i == 4
    requires Shift(dt, FieldNamed(Params[i]).value, true).Some?
    ensures var d2 := Shift(dt, FieldNamed(Params[i]).value, true).value;
      && Handle(CreateDateTimeWidget(dt)[1][i].data, today) == Reply(SetMarkup(CreateDateTimeWidget(d2)), NoResult)
      && Handle(CreateDateTimeWidget(d2)[3][i].data, today) == Reply(SetMarkup(CreateDateTimeWidget(dt)), NoResult)
  {
    var f := FieldNamed(Params[i]).value;
    var d2 := Shift(dt, f, true).value;
    StepPress(dt, i, true, today);
    ShiftKeepsLongYear(dt, f, true);
    StepPress(d2, i, false, today);
    ShiftInverse(dt, f, true);
  }

  /** An `edit` press with an unknown field or direction re-renders the same widget and returns nothing. */
  lemma UnknownEditKeepsWidget(dt: DateTime, field: string, option: string, today: Date)
    requires Valid(dt) && dt.year >= 1000 && ValidDate(today)
    requires ':' !in field && ':' !in option
    requires field !in Params || (option != "next" && option != "prev")
    ensures Handle(CallbackData(["edit", field, option, Format(dt)]), today)
         == Reply(SetMarkup(CreateDateTimeWidget(dt)), NoResult)
  {
    EditPayload(dt, field, option, today);
  }

  /** "▲" in the month column on 31 January shows the last day of February. */
  lemma MonthPressClamps(y: int, h: int, mi: int, today: Date)
    requires 1000 <= y <= MaxYear && 0 <= h < 24 && 0 <= mi < 60 && ValidDate(today)
    ensures Handle(CreateDateTimeWidget(DateTime(y, 1, 31, h, mi))[1][1].data, today)
         == Reply(SetMarkup(CreateDateTimeWidget(DateTime(y, 2, if IsLeap(y) then 29 else 28, h, mi))), NoResult)
  {
    StepPress(DateTime(y, 1, 31, h, mi), 1, true, today);
    MonthEndClamp(y, h, mi);
  }

  /** The reply once a date is chosen: close the picker if the flag says date-only, else open the widget. */
  function ChosenReply(reading: FlagReading, flag: string, dt: DateTime): Reply
    requires Valid(dt)
  {
    if DateOnly(reading, flag) then Reply(ClearMarkup, Finalized(dt))
    else Reply(SetMarkup(CreateDateTimeWidget(dt)), NoResult)
  }

  /** `today:<dt>:<flag>` replaces the date by today's and keeps the hour and minute. */
  lemma TodayPayload(reading: FlagReading, dt: DateTime, flag: string, today: Date)
    requires Valid(dt) && dt.year >= 1000 && ValidDate(today)
    requires ':' !in flag
    ensures var picked := DateTime(today.year, today.month, today.day, dt.hour, dt.minute);
      HandleTokens(reading, Split(CallbackData(["today", Format(dt), flag]), ':'), today)
      == ChosenReply(reading, flag, picked)
  {
    FormatAlphabet(dt);
    ParseFormat(dt);
    Decode(reading, ["today", Format(dt), flag], today);
  }

  /** `tomorrow:<dt>:<flag>` replaces the date by the day after today and keeps the hour and minute. */
  lemma TomorrowPayload(reading: FlagReading, dt: DateTime, flag: string, today: Date)
    requires Valid(dt) && dt.year >= 1000 && ValidDate(today)
    requires ':' !in flag
    ensures HandleTokens(reading, Split(CallbackData(["tomorrow", Format(dt), flag]), ':'), today)
         == match NextDay(today)
            case Some(t) => ChosenReply(reading, flag, DateTime(t.year, t.month, t.day, dt.hour, dt.minute))
            case None => Reply(NoEffect, Raised)
  {
    FormatAlphabet(dt);
    ParseFormat(dt);
    Decode(reading, ["tomorrow", Format(dt), flag], today);
  }

  /** Pressing the day button in week w, column j of the calendar chooses that day of the shown month. */
  lemma CalendarDayPress(reading: FlagReading, dt: DateTime, flag: string, w: int, j: int, today: Date)
    requires Valid(dt) && dt.year >= 1000 && ValidDate(today)
    requires ':' !in flag
    requires 0 <= w < |MonthCalendar(dt.year, dt.month)| && 0 <= j < 7
    requires MonthCalendar(dt.year, dt.month)[w][j] != 0
    ensures var d := MonthCalendar(dt.year, dt.month)[w][j];
      && Valid(dt.WithDay(d))
      && HandleTokens(reading, Split(CreateCalendar(dt, flag)[2 + w][j].data, ':'), today)
         == ChosenReply(reading, flag, dt.WithDay(d))
  {
    var d := MonthCalendar(dt.year, dt.month)[w][j];
    CalendarCell(dt, flag, w, j);
    DayPayload(reading, dt.WithDay(d), flag, today);
  }

  /** `calendar_day:<dt>:<flag>` chooses the date-time it carries. */
  lemma DayPayload(reading: FlagReading, picked: DateTime, flag: string, today: Date)
    requires Valid(picked) && picked.year >= 1000 && ValidDate(today)
    requires ':' !in flag
    ensures HandleTokens(reading, Split(CallbackData(["calendar_day", Format(picked), flag]), ':'), today)
         == ChosenReply(reading, flag, picked)
  {
    FormatAlphabet(picked);
    ParseFormat(picked);
    Decode(reading, ["calendar_day", Format(picked), flag], today);
  }

  /** Blank cells, the title and the weekday names only acknowledge the press. */
  lemma InertCellsAcknowledge(dt: DateTime, flag: string, w: int, j: int, today: Date)
    requires Valid(dt) && ValidDate(today)
    requires var g := CreateCalendar(dt, flag);
      (w == 0 && j == 0)
      || (w == 1 && 0 <= j < 7)
      || (2 <= w < |g| - 2 && 0 <= j < 7 && MonthCalendar(dt.year, dt.month)[w - 2][j] == 0)
    ensures Handle(CreateCalendar(dt, flag)[w][j].data, today) == Reply(AnswerCallback, NoResult)
  {
    if w >= 2 {
      CalendarCell(dt, flag, w - 2, j);
    }
    assert CreateCalendar(dt, flag)[w][j].data == EmptyData;
    EmptyPayload(today);
  }

  /** The `empty` payload only acknowledges the press. */
  lemma EmptyPayload(today: Date)
    requires ValidDate(today)
    ensures Handle(EmptyData, today) == Reply(AnswerCallback, NoResult)
  {
    SplitPlain(EmptyData, ':');
  }

  /** The "<" and ">" buttons carry the month's last day and show the calendar one month away. */
  lemma NavPress(dt: DateTime, flag: string, forward: bool, today: Date)
    requires Valid(dt) && dt.year >= 1000 && ValidDate(today)
    requires ':' !in flag
    ensures var g := CreateCalendar(dt, flag);
      Handle(g[|g| - 2][if forward then 1 else 0].data, today)
      == match AddMonths(LastDayOf(dt), forward)
         case Some(d) => Reply(SetMarkup(CreateCalendar(d, flag)), NoResult)
         case None => Reply(NoEffect, Raised)
  {
    var last := LastDayOf(dt);
    var g: Grid := CreateCalendar(dt, flag);
    var option := if forward then "next" else "prev";
    assert g[|g| - 2][if forward then 1 else 0].data == CallbackData(["calendar_month", option, Format(last), flag]);
    MonthPayload(last, option, flag, today);
  }

  /** `calendar_month:<option>:<dt>:<flag>` shows the calendar one month away, keeping the flag. */
  lemma MonthPayload(dt: DateTime, option: string, flag: string, today: Date)
    requires Valid(dt) && dt.year >= 1000 && ValidDate(today)
    requires ':' !in flag && (option == "next" || option == "prev")
    ensures Handle(CallbackData(["calendar_month", option, Format(dt), flag]), today)
      == match AddMonths(dt, option == "next")
         case Some(d) => Reply(SetMarkup(CreateCalendar(d, flag)), NoResult)
         case None => Reply(NoEffect, Raised)
  {
    var args := ["calendar_month", option, Format(dt), flag];
    assert Split(CallbackData(args), ':') == args by {
      FormatAlphabet(dt);
      assert Separable(args, ':');
      SplitJoin(args, ':');
    }
    ParseFormat(dt);
    MonthTokens(NonEmpty, args, today);
  }

  /** The "Сегодня" button chooses today at the shown time. */
  lemma TodayShortcutPress(reading: FlagReading, dt: DateTime, flag: string, today: Date)
    requires Valid(dt) && dt.year >= 1000 && ValidDate(today)
    requires ':' !in flag
    ensures var g := CreateCalendar(dt, flag);
      HandleTokens(reading, Split(g[|g| - 1][0].data, ':'), today)
      == ChosenReply(reading, flag, DateTime(today.year, today.month, today.day, dt.hour, dt.minute))
  {
    TodayPayload(reading, LastDayOf(dt), flag, today);
  }

  /** The "Завтра" button chooses the day after today at the shown time, and raises on 9999-12-31. */
  lemma TomorrowShortcutPress(reading: FlagReading, dt: DateTime, flag: string, today: Date)
    requires Valid(dt) && dt.year >= 1000 && ValidDate(today)
    requires ':' !in flag
    ensures var g := CreateCalendar(dt, flag);
      HandleTokens(reading, Split(g[|g| - 1][1].data, ':'), today)
      == match NextDay(today)
         case Some(t) => ChosenReply(reading, flag, DateTime(t.year, t.month, t.day, dt.hour, dt.minute))
         case None => Reply(NoEffect, Raised)
  {
    TomorrowPayload(reading, LastDayOf(dt), flag, today);
  }

  /** Every calendar the picker builds has a "True" or "False" flag, so every day press closes the picker. */
  lemma ProducedDayPressFinalizes(dt: DateTime, dateOnly: bool, w: int, j: int, today: Date)
    requires Valid(dt) && dt.year >= 1000 && ValidDate(today)
    requires 0 <= w < |MonthCalendar(dt.year, dt.month)| && 0 <= j < 7
    requires MonthCalendar(dt.year, dt.month)[w][j] != 0
    ensures Handle(CreateCalendar(dt, FlagText(dateOnly))[2 + w][j].data, today)
         == Reply(ClearMarkup, Finalized(dt.WithDay(MonthCalendar(dt.year, dt.month)[w][j])))
  {
    CalendarDayPress(NonEmpty, dt, FlagText(dateOnly), w, j, today);
  }

  /** The widget's "Календарь" button shows the calendar of the same month with the flag "False". */
  lemma CalendarButtonPress(dt: DateTime, today: Date)
    requires Valid(dt) && dt.year >= 1000 && ValidDate(today)
    ensures Handle(CreateDateTimeWidget(dt)[4][0].data, today)
         == Reply(SetMarkup(CreateCalendar(dt, FlagText(false))), NoResult)
    ensures HandleIntended(CreateDateTimeWidget(dt)[4][0].data, today)
         == Reply(SetMarkup(CreateCalendar(dt, FlagText(false))), NoResult)
  {
    FormatAlphabet(dt);
    ParseFormat(dt);
    Decode(NonEmpty, ["calendar", Format(dt)], today);
    Decode(TrueText, ["calendar", Format(dt)], today);
  }

  /**
   * As written: after "Календарь" in the widget, pressing a day closes the
   * picker instead of returning to the widget, because the token "False" is
   * a non-empty string.
   */
  lemma WidgetCalendarDayCloses(dt: DateTime, today: Date)
    requires Valid(dt) && dt.year >= 1000 && ValidDate(today)
    ensures Handle(CreateDateTimeWidget(dt)[4][0].data, today)
         == Reply(SetMarkup(CreateCalendar(dt, "False")), NoResult)
    ensures var k := CellOf(dt.year, dt.month, dt.day);
      && 2 + k / 7 < |CreateCalendar(dt, "False")| - 2
      && Handle(CreateCalendar(dt, "False")[2 + k / 7][k % 7].data, today) == Reply(ClearMarkup, Finalized(dt))
  {
    CalendarButtonPress(dt, today);
    OwnDayPress(dt, false, today);
  }

  /**
   * As written: in the calendar opened from the widget, "Сегодня" and
   * "Завтра" also close the picker instead of returning to the widget.
   */
  lemma WidgetCalendarShortcutsClose(dt: DateTime, today: Date)
    requires Valid(dt) && dt.year >= 1000 && ValidDate(today)
    ensures var g := CreateCalendar(dt, FlagText(false));
      && Handle(g[|g| - 1][0].data, today)
         == Reply(ClearMarkup, Finalized(DateTime(today.year, today.month, today.day, dt.hour, dt.minute)))
      && Handle(g[|g| - 1][1].data, today)
         == match NextDay(today)
            case Some(t) => Reply(ClearMarkup, Finalized(DateTime(t.year, t.month, t.day, dt.hour, dt.minute)))
            case None => Reply(NoEffect, Raised)
  {
    TodayShortcutPress(NonEmpty, dt, FlagText(false), today);
    TomorrowShortcutPress(NonEmpty, dt, FlagText(false), today);
  }

  /**
   * Intended: with the flag read as "True"/"False", the shortcuts of the
   * calendar opened from the widget go back to the widget on the chosen
   * day, and those of a date-only calendar close the picker.
   */
  lemma IntendedShortcutPress(dt: DateTime, dateOnly: bool, today: Date)
    requires Valid(dt) && dt.year >= 1000 && ValidDate(today)
    ensures var g, picked := CreateCalendar(dt, FlagText(dateOnly)), DateTime(today.year, today.month, today.day, dt.hour, dt.minute);
      HandleIntended(g[|g| - 1][0].data, today)
      == if dateOnly then Reply(ClearMarkup, Finalized(picked))
         else Reply(SetMarkup(CreateDateTimeWidget(picked)), NoResult)
    ensures var g := CreateCalendar(dt, FlagText(dateOnly));
      HandleIntended(g[|g| - 1][1].data, today)
      == match NextDay(today)
         case Some(t) =>
           var picked := DateTime(t.year, t.month, t.day, dt.hour, dt.minute);
           if dateOnly then Reply(ClearMarkup, Finalized(picked))
           else Reply(SetMarkup(CreateDateTimeWidget(picked)), NoResult)
         case None => Reply(NoEffect, Raised)
  {
    TodayShortcutPress(TrueText, dt, FlagText(dateOnly), today);
    TomorrowShortcutPress(TrueText, dt, FlagText(dateOnly), today);
  }

  /** In any calendar the picker builds, pressing the shown date-time's own day returns that date-time. */
  lemma OwnDayPress(dt: DateTime, dateOnly: bool, today: Date)
    requires Valid(dt) && dt.year >= 1000 && ValidDate(today)
    ensures var k := CellOf(dt.year, dt.month, dt.day);
      && 2 + k / 7 < |CreateCalendar(dt, FlagText(dateOnly))| - 2
      && Handle(CreateCalendar(dt, FlagText(dateOnly))[2 + k / 7][k % 7].data, today) == Reply(ClearMarkup, Finalized(dt))
  {
    var k := CellOf(dt.year, dt.month, dt.day);
    var weeks := MonthCalendar(dt.year, dt.month);
    assert k < 7 * |weeks| && weeks[k / 7][k % 7] == dt.day;
    ProducedDayPressFinalizes(dt, dateOnly, k / 7, k % 7, today);
    assert dt.WithDay(dt.day) == dt;
  }

  /**
   * Intended: with the flag read as "True"/"False", a day chosen in the
   * calendar opened from the widget goes back to the widget on that day,
   * while a date-only calendar still closes the picker.
   */
  lemma IntendedDayPress(dt: DateTime, dateOnly: bool, w: int, j: int, today: Date)
    requires Valid(dt) && dt.year >= 1000 && ValidDate(today)
    requires 0 <= w < |MonthCalendar(dt.year, dt.month)| && 0 <= j < 7
    requires MonthCalendar(dt.year, dt.month)[w][j] != 0
    ensures var picked := dt.WithDay(MonthCalendar(dt.year, dt.month)[w][j]);
      && Valid(picked)
      && HandleIntended(CreateCalendar(dt, FlagText(dateOnly))[2 + w][j].data, today)
         == if dateOnly then Reply(ClearMarkup, Finalized(picked))
            else Reply(SetMarkup(CreateDateTimeWidget(picked)), NoResult)
  {
    CalendarDayPress(TrueText, dt, FlagText(dateOnly), w, j, today);
  }

  /** The inert payload acknowledges; a payload of no known kind does nothing; neither returns a date-time. */
  lemma InertAndUnknown(data: string, today: Date)
    requires ValidDate(today)
    requires Split(data, ':')[0] !in ["dt", "calendar", "calendar_day", "calendar_month", "today", "tomorrow", "edit"]
    ensures Handle(data, today).outcome == NoResult
    ensures !Handle(data, today).effect.SetMarkup? && !Handle(data, today).effect.ClearMarkup?
    ensures Handle(data, today).effect == AnswerCallback <==> Split(data, ':')[0] == EmptyData
  {
  }
}
