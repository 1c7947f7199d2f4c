/**
 * The stateless date-time picker of keyboard.py. Every button carries its
 * whole state in its callback data: an action kind, the action's arguments,
 * the date-time shown (in DT_FORMAT) and, for calendar buttons, the
 * "date only" flag. Handling a press decodes the data and either finalizes a
 * date-time, re-renders a keyboard, acknowledges the press, or does nothing.
 */
module Keyboard {
  import opened Wrappers
  import opened Calendar
  import opened DateArith
  import opened Text
  import opened DtFormat
  import opened MonthGrid

  /** What a button shows; the locale-dependent month and weekday names stay abstract. */
  datatype Label =
    | Caption(text: string)               // fixed text
    | MonthTitle(month: int, year: int)   // `f'{calendar.month_name[month]} {year}'`
    | DayAbbr(weekday: int)               // `calendar.day_abbr[weekday]`
    | Number(n: int)                      // `str(n)`

  datatype Button = Button(face: Label, data: string)

  /** The rows of an inline keyboard. */
  type Grid = seq<seq<Button>>

  /** `create_callback_data(*args)`: the arguments joined with ':'. */
  function CallbackData(args: seq<string>): string {
    Join(args, ':')
  }

  /** `create_callback_data('empty')` */
  const EmptyData: string := "empty"

  /** `str(b)` for the `only_calendar` argument. */
  function FlagText(b: bool): string {
    if b then "True" else "False"
  }

  /** A button that only acknowledges the press. */
  function Inert(face: Label): Button {
    Button(face, EmptyData)
  }

  /** The cell for one entry of the month grid: a blank for 0, else the day's button. */
  function DayButton(dt: DateTime, day: int, flag: string): Button
    requires Valid(dt) && 0 <= day <= DaysInMonth(dt.year, dt.month)
  {
    if day == 0 then Inert(Caption(" "))
    else Button(Number(day), CallbackData(["calendar_day", Format(dt.WithDay(day)), flag]))
  }

  /** The value `dt` holds after the day loop of `create_calendar`: the month's last day. */
  function LastDayOf(dt: DateTime): (r: DateTime)
    requires Valid(dt)
    ensures Valid(r)
  {
    dt.WithDay(DaysInMonth(dt.year, dt.month))
  }

  /** One keyboard row per week of the month grid. */
  function WeekRows(dt: DateTime, flag: string): (rows: Grid)
    requires Valid(dt)
    ensures |rows| == |MonthCalendar(dt.year, dt.month)|
    ensures forall w :: 0 <= w < |rows| ==> |rows[w]| == 7
  {
    var weeks := MonthCalendar(dt.year, dt.month);
    seq(|weeks|, w requires 0 <= w < |weeks| =>
      seq(7, j requires 0 <= j < 7 => DayButton(dt, weeks[w][j], flag)))
  }

  /** The "<" and ">" buttons. */
  function NavRow(dt: DateTime, flag: string): seq<Button>
    requires Valid(dt)
  {
    var last := Format(LastDayOf(dt));
    [Button(Caption("<"), CallbackData(["calendar_month", "prev", last, flag])),
     Button(Caption(">"), CallbackData(["calendar_month", "next", last, flag]))]
  }

  /** The "Сегодня" and "Завтра" buttons. */
  function ShortcutRow(dt: DateTime, flag: string): seq<Button>
    requires Valid(dt)
  {
    var last := Format(LastDayOf(dt));
    [Button(Caption("Сегодня"), CallbackData(["today", last, flag])),
     Button(Caption("Завтра"), CallbackData(["tomorrow", last, flag]))]
  }

  /** `create_calendar(dt, only_calendar)` where `flag` is `str(only_calendar)`. */
  function CreateCalendar(dt: DateTime, flag: string): (g: Grid)
    requires Valid(dt)
    ensures |g| == |MonthCalendar(dt.year, dt.month)| + 4
    ensures |g[0]| == 1 && |g[1]| == 7 && |g[|g| - 2]| == 2 && |g[|g| - 1]| == 2
    ensures forall w :: 2 <= w < |g| - 2 ==> |g[w]| == 7
    ensures g[|g| - 2] == NavRow(dt, flag) && g[|g| - 1] == ShortcutRow(dt, flag)
  {
    [[Inert(MonthTitle(dt.month, dt.year))],
     seq(7, i => Inert(DayAbbr(i)))]
    + WeekRows(dt, flag)
    + [NavRow(dt, flag), ShortcutRow(dt, flag)]
  }

  /** The cell in week w, column j of a calendar is the button for that entry of the month grid. */
  lemma CalendarCell(dt: DateTime, flag: string, w: int, j: int)
    requires Valid(dt)
    requires 0 <= w < |MonthCalendar(dt.year, dt.month)| && 0 <= j < 7
    ensures 0 <= MonthCalendar(dt.year, dt.month)[w][j] <= DaysInMonth(dt.year, dt.month)
    ensures CreateCalendar(dt, flag)[2 + w][j] == DayButton(dt, MonthCalendar(dt.year, dt.month)[w][j], flag)
  {
  }

  /** The fields of the widget's columns, left to right. */
  const Params: seq<string> := ["day", "month", "year", "hour", "minute"]

  const Headers: seq<string> := ["День", "Месяц", "Год", "Час", "Минута"]

  /** The field a widget column (or an `edit` field name) stands for. */
  function FieldNamed(s: string): (r: Option<Field>)
    ensures r.Some? <==> s in Params
  {
    if s == "day" then Some(Day)
    else if s == "month" then Some(Month)
    else if s == "year" then Some(Year)
    else if s == "hour" then Some(Hour)
    else if s == "minute" then Some(Minute)
    else None
  }

  /** `create_date_time_widget(dt)` */
  function CreateDateTimeWidget(dt: DateTime): (g: Grid)
    requires Valid(dt)
    ensures |g| == 6
    ensures |g[0]| == 5 && |g[1]| == 5 && |g[2]| == 5 && |g[3]| == 5 && |g[4]| == 1 && |g[5]| == 1
  {
    var s := Format(dt);
    [seq(5, i requires 0 <= i < 5 => Inert(Caption(Headers[i]))),
     seq(5, i requires 0 <= i < 5 => Button(Caption("▲"), CallbackData(["edit", Params[i], "next", s]))),
     [Inert(Number(dt.day)), Inert(Number(dt.month)), Inert(Number(dt.year)),
      Inert(Number(dt.hour)), Inert(Number(dt.minute))],
     seq(5, i requires 0 <= i < 5 => Button(Caption("▼"), CallbackData(["edit", Params[i], "prev", s]))),
     [Button(Caption("Календарь"), CallbackData(["calendar", s]))],
     [Button(Caption("Готово"), CallbackData(["dt", s]))]]
  }

  /** The transport call a press leads to. */
  datatype Effect =
    | NoEffect
    | ClearMarkup              // `edit_message_reply_markup(..., reply_markup=None)`
    | SetMarkup(grid: Grid)    // `edit_message_reply_markup(..., reply_markup=markup)`
    | AnswerCallback           // `answer_callback_query(call.id)`

  /** What `keyboard_handler` returns: nothing, a date-time, or an exception it lets escape. */
  datatype Outcome = NoResult | Finalized(dt: DateTime) | Raised

  datatype Reply = Reply(effect: Effect, outcome: Outcome)

  /** How the "date only" flag token is read. */
  datatype FlagReading =
    | NonEmpty     // Python truthiness of the token, as keyboard.py does it
    | TrueText     // the token equals `str(True)`

  predicate DateOnly(reading: FlagReading, flag: string) {
    match reading
    case NonEmpty => flag != ""
    case TrueText => flag == "True"
  }

  /** The branch shared by `calendar_day`, `today` and `tomorrow` once the date is chosen. */
  function Choose(reading: FlagReading, t: seq<string>, k: nat, dt: DateTime): (r: Reply)
    requires Valid(dt)
    ensures r.outcome.Finalized? ==> r.outcome.dt == dt && r.effect == ClearMarkup
    ensures r.effect.SetMarkup? ==> r.outcome == NoResult
  {
    if |t| <= k then Reply(NoEffect, Raised)
    else if DateOnly(reading, t[k]) then Reply(ClearMarkup, Finalized(dt))
    else Reply(SetMarkup(CreateDateTimeWidget(dt)), NoResult)
  }

  /** `keyboard_handler` on the tokens of the callback data. */
  function HandleTokens(reading: FlagReading, t: seq<string>, today: Date): (r: Reply)
    requires ValidDate(today)
    ensures r.outcome.Finalized? ==> Valid(r.outcome.dt) && r.effect == ClearMarkup
    ensures r.effect.SetMarkup? ==> r.outcome == NoResult
  {
    if |t| == 0 then Reply(NoEffect, NoResult)
    else if t[0] == "dt" then
      if |t| < 2 then Reply(ClearMarkup, Raised)
      else match Parse(t[1])
        case None => Reply(ClearMarkup, Raised)
        case Some(dt) => Reply(ClearMarkup, Finalized(dt))
    else if t[0] == "calendar" then
      if |t| < 2 then Reply(NoEffect, Raised)
      else match Parse(t[1])
        case None => Reply(NoEffect, Raised)
        case Some(dt) => Reply(SetMarkup(CreateCalendar(dt, FlagText(false))), NoResult)
    else if t[0] == "calendar_day" then
      if |t| < 2 then Reply(NoEffect, Raised)
      else match Parse(t[1])
        case None => Reply(NoEffect, Raised)
        case Some(dt) => Choose(reading, t, 2, dt)
    else if t[0] == "calendar_month" then
      if |t| < 3 then Reply(NoEffect, Raised)
      else match Parse(t[2])
        case None => Reply(NoEffect, Raised)
        case Some(dt) =>
          var moved :=
            if t[1] == "prev" then AddMonths(dt, false)
            else if t[1] == "next" then AddMonths(dt, true)
            else Some(dt);
          if moved.None? || |t| < 4 then Reply(NoEffect, Raised)
          else Reply(SetMarkup(CreateCalendar(moved.value, t[3])), NoResult)
    else if t[0] == "today" then
      if |t| < 2 then Reply(NoEffect, Raised)
      else match Parse(t[1])
        case None => Reply(NoEffect, Raised)
        case Some(dt) => Choose(reading, t, 2, dt.WithDate(today))
    else if t[0] == "tomorrow" then
      if |t| < 2 then Reply(NoEffect, Raised)
      else match (Parse(t[1]), NextDay(today))
        case (Some(dt), Some(tomorrow)) => Choose(reading, t, 2, dt.WithDate(tomorrow))
        case _ => Reply(NoEffect, Raised)
    else if t[0] == "edit" then
      if |t| < 4 then Reply(NoEffect, Raised)
      else match Parse(t[3])
        case None => Reply(NoEffect, Raised)
        case Some(dt) =>
          var field := FieldNamed(t[1]);
          var moved :=
            if (t[2] == "prev" || t[2] == "next") && field.Some? then Shift(dt, field.value, t[2] == "next")
            else Some(dt);
          if moved.None? then Reply(NoEffect, Raised)
          else Reply(SetMarkup(CreateDateTimeWidget(moved.value)), NoResult)
    else if t[0] == "empty" then Reply(AnswerCallback, NoResult)
    else Reply(NoEffect, NoResult)
  }

  /** The `calendar_month` tokens show the calendar one month away from the date-time they carry. */
  lemma MonthTokens(reading: FlagReading, t: seq<string>, today: Date)
    requires ValidDate(today)
    requires |t| == 4 && t[0] == "calendar_month" && (t[1] == "next" || t[1] == "prev") && Parse(t[2]).Some?
    ensures HandleTokens(reading, t, today)
      == match AddMonths(Parse(t[2]).value, t[1] == "next")
         case Some(d) => Reply(SetMarkup(CreateCalendar(d, t[3])), NoResult)
         case None => Reply(NoEffect, Raised)
  {
  }

  /** `keyboard_handler(bot, call)` for callback data `data`, with `today` the date `date.today()` reads. */
  function Handle(data: string, today: Date): Reply
    requires ValidDate(today)
  {
    HandleTokens(NonEmpty, Split(data, ':'), today)
  }

  /** The handler with the flag read as its author evidently meant: only "True" closes the picker on a day. */
  function HandleIntended(data: string, today: Date): Reply
    requires ValidDate(today)
  {
    HandleTokens(TrueText, Split(data, ':'), today)
  }
}
