# Calendar task bot — a Dafny model of its core

The system is a Telegram bot. Each user keeps a list of named tasks with
start times. The bot talks to a user through a small dialog state machine,
and it offers an inline date-time picker whose whole state travels inside
the buttons' callback data. A background thread sends reminders for
calendar events that start inside a short look-ahead window.

This project models four source files.

- **keyboard.py** is the date-time picker: the format `%Y.%m.%d.%H.%M`,
  callback data joined with `:`, the month calendar keyboard, the
  five-column date-time widget, and `keyboard_handler`.
  - The handler is modelled as a pure function from callback data and
    today's date to a `Reply`. A reply is the markup edit it asks for plus
    its outcome: nothing, a finalized date-time, or an exception.
  - `Calendar`, `DateArith`, `DtFormat` and `MonthGrid` model the parts of
    Python's `datetime`, `calendar` and `dateutil.relativedelta` it relies
    on.
    - The proleptic Gregorian calendar and `toordinal`.
    - One-unit steps with carry and month-end clamping.
    - `strptime`/`strftime` for the format.
    - `monthcalendar`.
- **bot.py** is the dialog.
  - The task list: `get_task`, `get_day_tasks`, `get_future_tasks`, and
    sorting by start time.
  - Every message handler, the dispatcher, `tasks_to_string` and
    `get_user_data`. Each handler is a pure step from a user record and a
    message to a new record and a reply.
- **taskutils.py**: reading an event's start time and rendering events as
  text.
- **notify_sender.py**: one iteration of the reminder loop as the pure
  function `Tick`, a loop method `RunTick` proved to compute it, and the
  sequence of cursors over successive ticks.

Time is an integer number of microseconds on the ordinal time line:
`InstantOf(dt)`. Clock readings (`date.today()`, `datetime.now()`) and the
index `random.choice` picks are parameters.

## Model

| member | source | states |
|---|---|---|
| Calendar.DaysInMonth | keyboard.py:114 | A month has 28 to 31 days, and 29 exactly for February of a leap year. |
| Calendar.Weekday | keyboard.py:114 | `date.weekday()` is a column number 0..6. |
| Calendar.WeekdayCycle | keyboard.py:114 | The day after a date is on the next weekday, Sunday (6) wrapping to Monday (0). |
| Calendar.KnownMonday | keyboard.py:114 | 1 January 2024 has weekday 0, so 0 is Monday. |
| Calendar.WeekdayInMonth | keyboard.py:114-117 | Day d of a month falls d - 1 weekdays after the first of the month, modulo 7. |
| Calendar.BeforeTrichotomy | bot.py:122 | The date-time order used as the sort key is total and strict: exactly one of a < b, a == b, b < a. |
| Calendar.BeforeTransitive | bot.py:122 | The date-time order is transitive. |
| Calendar.OrdinalOrder | bot.py:50-52 | Comparing dates field by field agrees with comparing their ordinals; equal dates have equal ordinals and no others do. |
| Calendar.MinuteIndexOrder | bot.py:60 | Comparing date-times field by field agrees with comparing minute counts; distinct date-times have distinct counts. |
| Calendar.InstantOrder | notify_sender.py:24 | Comparing date-times agrees with comparing their instants on the time line; equal instants mean equal date-times. |
| DateArith.NextDay | keyboard.py:53 | The day after has ordinal one more; there is none only after 9999-12-31, where Python raises OverflowError. |
| DateArith.PrevDay | keyboard.py:71 | The day before has ordinal one less; there is none only before 0001-01-01. |
| DateArith.AddDays | keyboard.py:70-82 | A day step moves the time line by exactly 1440 minutes; it fails only on the first or last representable date. |
| DateArith.AddHours | keyboard.py:72-84 | An hour step moves the time line by exactly 60 minutes, carrying into the date; it fails only at the ends of the range. |
| DateArith.AddMinutes | keyboard.py:74-86 | A minute step moves the time line by exactly one minute, carrying into hour and date; it fails only at the ends of the range. |
| DateArith.AddMonths | keyboard.py:68-80 | A month step moves (year, month) by one with carry, keeps the time, and clamps the day to the new month's length; it fails only outside years 1..9999. |
| DateArith.AddYears | keyboard.py:66-78 | A year step keeps the month and time and clamps the day (29 February becomes the 28th); it fails only outside years 1..9999. |
| DateArith.Shift | keyboard.py:65-86 | A step of any widget field yields a valid date-time or fails. |
| DateArith.ShiftInverse | keyboard.py:65-86 | For day, hour and minute, a step forward then back (or back then forward) returns the original date-time. |
| DateArith.MonthEndClamp | keyboard.py:79-80 | 31 January plus one month is the last day of February (28 or 29), at the same time. |
| DateArith.MonthStepLosesDay | keyboard.py:68-80 | Month steps do not undo each other once the day was clamped: 2023-01-31 goes up to 02-28 and back down to 01-28. |
| DateArith.LeapDayYearStep | keyboard.py:77-78 | 2024-02-29 plus one year is 2025-02-28. |
| DateArith.CarryExamples | keyboard.py:65-86 | 2024-12-15 plus a month is 2025-01-15; 2024-03-01 minus a day is 2024-02-29; 2023-03-01 minus a day is 2023-02-28; 23:59 on 31 December plus a minute is midnight of the next year. |
| Text.Split | keyboard.py:13 | `str.split` always returns at least one piece, so the `not calendar_data` branch cannot run. |
| Text.SplitJoin | keyboard.py:95-96 | Splitting data joined by `create_callback_data` (`Keyboard.CallbackData`) gives back its arguments when none contains the separator. |
| Text.JoinSplit | keyboard.py:13 | Joining the pieces of a split gives back the string. |
| Text.SplitHeaded | bot.py:180-187 | A header without line breaks followed by line-free lines splits back into the header and those lines. |
| Text.NatToString | keyboard.py:166-170 | `str(n)` is a non-empty run of digits, one digit exactly when n < 10. |
| Text.NatToStringValue | keyboard.py:166-170 | `str(n)` reads back as n. |
| Text.NatToStringFourDigits | keyboard.py:123 | A year from 1000 to 9999 is written with four digits. |
| Text.Pad2 | keyboard.py:123 | `%m`, `%d`, `%H` and `%M` write two digits. |
| Text.Pad2Value | keyboard.py:123 | The two digits read back as the number. |
| Text.Lower | bot.py:101 | `str.lower` keeps the length and leaves no capital A–Z, А–Я or Ё. Every other character is unchanged, and each capital becomes the small letter that upper-cases back to it. |
| Text.LowerIdempotent | bot.py:137 | Lowering twice equals lowering once, so a stored lower-case name is found again by a lower-cased query. |
| DtFormat.ReadYear | keyboard.py:19 | A year read by `%Y` lies in 0..9999. |
| DtFormat.ReadMonth | keyboard.py:19 | A month read by `%m` lies in 1..12. |
| DtFormat.ReadDay | keyboard.py:19 | A day read by `%d` lies in 1..31. |
| DtFormat.ReadHour | keyboard.py:19 | An hour read by `%H` lies in 0..23. |
| DtFormat.ReadMinute | keyboard.py:19 | A minute read by `%M` lies in 0..59. |
| DtFormat.Parse | keyboard.py:19 | A successful `strptime(s, DT_FORMAT)` is always a valid date-time. |
| DtFormat.FormatAlphabet | keyboard.py:7 | A formatted date-time holds only digits and '.', never ':', so it survives the split of the callback data. |
| DtFormat.ReadPad2 | keyboard.py:7 | Each two-digit field written by `strftime` reads back as its value. |
| DtFormat.ParseFormat | keyboard.py:7 | For years 1000..9999, parsing a date-time written by `strftime(DT_FORMAT)` (`DtFormat.Format`) gives the date-time back. |
| DtFormat.ShortYearDoesNotParse | keyboard.py:7 | For years below 1000 the unpadded `%Y` does not read back, and parsing fails. |
| DtFormat.ClockTextShape | taskutils.py:9 | `%H:%M` is two digits, ':', two digits, and they read back as the hour and minute. |
| MonthGrid.FirstWeekday | keyboard.py:114 | The first of the month falls in column 0..6. |
| MonthGrid.MonthCalendar | keyboard.py:114 | `monthcalendar` has 4 to 6 weeks of 7 cells. Every non-zero cell is a day of the month, and day d sits at the cell its offset from the first weekday gives. |
| MonthGrid.DayColumnIsWeekday | keyboard.py:114-117 | Each day sits in the column of its weekday. |
| MonthGrid.DaysExactlyOnce | keyboard.py:114-125 | Each day of the month appears in exactly one cell. |
| MonthGrid.DaysIncrease | keyboard.py:114-125 | Read row by row, the days increase. |
| MonthGrid.LastDayCell | keyboard.py:113-136 | The last non-zero cell is the month's last day, so after the day loop `dt` is the month's last day. |
| Keyboard.LastDayOf | keyboard.py:121 | The last day of the shown month is a valid date-time. |
| Keyboard.WeekRows | keyboard.py:113-125 | One keyboard row of 7 buttons per week of the month grid. |
| Keyboard.CreateCalendar | keyboard.py:99-147 | A title row of 1 button, a weekday row of 7, one row of 7 for each week of `monthcalendar`, then the "<"/">" row and the "Сегодня"/"Завтра" row. |
| Keyboard.CalendarCell | keyboard.py:113-125 | The cell in week w, column j holds the `monthcalendar` entry there (0 or a day of the month) as its button: blank for 0, that day's button otherwise. |
| Keyboard.FieldNamed | keyboard.py:152 | A field name is recognised exactly when it is one of the five widget columns. |
| Keyboard.CreateDateTimeWidget | keyboard.py:150-185 | The widget has six rows: four of five buttons, one per field, then two rows of one button. |
| Keyboard.HandleTokens | keyboard.py:10-92 | `keyboard_handler` (`Keyboard.Handle`) splits the data on ':' and hands the tokens here. A returned date-time is always valid and always comes with the keyboard removed; a re-rendered keyboard never comes with a result. |
| Keyboard.MonthTokens | keyboard.py:32-40 | `calendar_month` with "next" or "prev" and a readable date shows the calendar one month away with the token's flag, or raises when the month step leaves the range. |
| PickerProperties.Decode | keyboard.py:13 | Handling callback data built from separable arguments is handling those arguments. |
| PickerProperties.DonePayload | keyboard.py:17-19 | `dt:<s>` removes the keyboard and returns what `strptime` makes of s. When it cannot read s it raises, after the keyboard is already removed. |
| PickerProperties.DonePressFinalizes | keyboard.py:181-183 | "Готово" returns exactly the date-time the widget shows. |
| PickerProperties.StepPress | keyboard.py:161-175 | The "▲"/"▼" button of column i re-renders the widget on that field stepped once, or raises when the step leaves the range. |
| PickerProperties.EditPayload | keyboard.py:61-88 | An `edit` payload steps the named field once in the named direction and re-renders, or raises when the step leaves the range. An unknown field or direction re-renders the same date-time. |
| PickerProperties.ShiftKeepsLongYear | keyboard.py:81-86 | Stepping day, hour or minute forward never lowers the year. |
| PickerProperties.NextThenPrevRestores | keyboard.py:61-88 | "▲" then "▼" in the day, hour or minute column gives back the first widget. |
| PickerProperties.UnknownEditKeepsWidget | keyboard.py:61-88 | An `edit` with an unknown field or direction re-renders the same widget and returns nothing. |
| PickerProperties.MonthPressClamps | keyboard.py:79-80 | "▲" in the month column on 31 January shows the last day of February at the same time. |
| PickerProperties.TodayPayload | keyboard.py:41-50 | `today` puts today's date in and keeps the hour and minute. It closes the picker or re-opens the widget as the flag reads, under either reading of the flag (as written or as a boolean). |
| PickerProperties.TomorrowPayload | keyboard.py:51-60 | `tomorrow` does the same with the day after today under either reading, and raises on 9999-12-31. |
| PickerProperties.CalendarDayPress | keyboard.py:24-31 | Pressing the button in week w, column j picks that grid day of the shown month. |
| PickerProperties.DayPayload | keyboard.py:24-31 | A `calendar_day` payload closes the picker with its date or re-opens the widget on it, as its flag reads. |
| PickerProperties.InertCellsAcknowledge | keyboard.py:89-90 | Blank cells, the title and the weekday names only acknowledge the press. |
| PickerProperties.EmptyPayload | keyboard.py:89-92 | The `empty` payload only acknowledges the press, edits nothing and returns nothing. |
| PickerProperties.NavPress | keyboard.py:32-40 | "<" and ">" show the calendar exactly one month away, with the same flag. |
| PickerProperties.MonthPayload | keyboard.py:32-40 | A `calendar_month` payload built by the calendar shows the month one step away with its flag, or raises at the ends of the range. |
| PickerProperties.TodayShortcutPress | keyboard.py:138-141 | "Сегодня" picks today at the time carried by the button, under either reading of the flag. |
| PickerProperties.TomorrowShortcutPress | keyboard.py:142-145 | "Завтра" picks the day after today at the time carried by the button, under either reading of the flag, and raises on 9999-12-31. |
| PickerProperties.WidgetCalendarShortcutsClose | keyboard.py:45-60 | As written: in the calendar opened from the widget (flag "False"), "Сегодня" and "Завтра" close the picker instead of going back to the widget. |
| PickerProperties.IntendedShortcutPress | keyboard.py:41-60 | With the flag read as a boolean, "Сегодня" and "Завтра" in the widget's calendar re-open the widget on the chosen day, and in a date-only calendar close the picker. |
| PickerProperties.ProducedDayPressFinalizes | keyboard.py:122-124 | Every calendar the code builds carries "True" or "False", so every day press closes the picker with that day. |
| PickerProperties.CalendarButtonPress | keyboard.py:20-23 | "Календарь" shows the calendar of the widget's month with the flag "False". |
| PickerProperties.WidgetCalendarDayCloses | keyboard.py:26 | As written: after "Календарь", pressing the shown day closes the picker instead of going back to the widget. |
| PickerProperties.OwnDayPress | keyboard.py:24-28 | In a calendar of dt's month, the cell holding dt's day lies in a week row, and pressing it closes the picker with dt, whichever flag the calendar carries. |
| PickerProperties.IntendedDayPress | keyboard.py:26-31 | With the flag read as a boolean, a day picked in the widget's calendar re-opens the widget on that day, and a date-only calendar closes. |
| PickerProperties.InertAndUnknown | keyboard.py:89-92 | Data of no known kind returns nothing and edits nothing; it only acknowledges, exactly when its kind is "empty". |
| TaskList.FirstNamed | bot.py:40-44 | The position of the first task with the name, or none exactly when no task has it. |
| TaskList.GetTask | bot.py:40-44 | `get_task` returns the first task of the list with that name, and None exactly when there is none. |
| TaskList.RemoveFirstNamed | bot.py:139 | `remove` takes out exactly the first task with the name. The other tasks stay in their order, so the list stays sorted and valid. |
| TaskList.RemoveAt | bot.py:139 | Removing one position takes out exactly that task (as multisets) and keeps a sorted list sorted and valid times valid. |
| TaskList.Insert | bot.py:121-122 | Inserting adds exactly one task (as multisets). |
| TaskList.InsertSorted | bot.py:121-122 | Inserting into a sorted list gives a sorted list. |
| TaskList.SortByDt | bot.py:122 | The sort returns a sorted permutation of the list. |
| TaskList.SortSortedIsIdentity | bot.py:122 | The stable sort leaves an already sorted list unchanged. |
| TaskList.AppendSortIsInsert | bot.py:121-122 | On a sorted list, appending then sorting equals inserting the new task after every task not later than it. |
| TaskList.TasksOnDay | bot.py:46-54 | Reference: the tasks of a day are exactly the list's tasks on that date. |
| TaskList.GetDayTasks | bot.py:46-54 | The backward scan returns only tasks of the list on that day. |
| TaskList.GetDayTasksIsFilter | bot.py:46-54 | On a sorted list the early-stopping scan is exactly the day's tasks, in order. |
| TaskList.TasksFrom | bot.py:56-64 | Reference: the tasks starting at or after now are exactly those with instant ≥ now. |
| TaskList.GetFutureTasks | bot.py:56-64 | The backward scan returns only tasks of the list that have not started. |
| TaskList.GetFutureTasksIsFilter | bot.py:56-64 | On a sorted list the early-stopping scan is exactly the tasks not yet started, in order. |
| Bot.BulletLines | bot.py:185-186 | One line per task, in order, and none contains a line break when no name does. |
| Bot.TasksToStringLines | bot.py:180-187 | `tasks_to_string` (`Bot.TasksToString`) prints "Список пуст" for an empty list. Otherwise splitting on line breaks gives "Задачи:" and then one " - name: dd.mm.YYYY HH:MM" line per task. |
| Bot.CommandHandler | bot.py:91-95 | /add (like /delete at bot.py:127-131 and /tasks at bot.py:146-152) sends its prompt and sets its state, and changes nothing else. |
| Bot.NameHandler | bot.py:98-107 | A name already in the list is refused with no change. Otherwise the lower-cased name becomes the current task and the state asks for its date. |
| Bot.DateHandler | bot.py:110-124 | An unreadable date is refused with no change. A readable one inserts the current task in start order (a sorted permutation) and returns to the main state; with no current task it raises. |
| Bot.DeleteTaskHandler | bot.py:134-143 | Removes exactly the first task with the lower-cased name, keeps the other tasks in their order, and returns to the main state. An unknown name changes nothing. |
| Bot.PrintTasksHandler | bot.py:155-177 | On a sorted list, "все" lists all tasks, "сегодня" today's, "завтра" tomorrow's, and any other text the typed date's tasks. A bad date is refused with no change. "завтра" raises exactly on 9999-12-31. |
| Bot.RandomTaskHandler | bot.py:190-200 | Always returns to the main state. The nag alone when no task is ahead, otherwise the nag and one task that has not started. |
| Bot.Dispatch | bot.py:203-221 | An unknown or main state answers "Не понял, повтори..." and moves to the random-task state. The random-task state always returns to the main state. Every route keeps task times valid. |
| Bot.Step | bot.py:79-88 | Every message keeps all task start times valid. |
| Bot.StepPreservesWf | bot.py:203-221 | Every step keeps the record well formed: valid times, sorted list, and a current task whenever the state waits for a date. |
| Bot.WfNeverCrashes | bot.py:110-177 | From a well-formed record no handler raises, except "завтра" on 9999-12-31. |
| Bot.GetUserData | bot.py:70-76 | Returns the stored record, or creates one in the main state; other users' records are untouched. |
| Bot.GetUserDataIdempotent | bot.py:70-76 | Asking a second time returns the same record and changes nothing. |
| Bot.Deliver | bot.py:203-207 | Handling a message keeps every record well formed and touches only the sender's record. |
| TaskUtils.StartTime | taskutils.py:4-5 | The start is `dateTime` when present, else `date` at midnight. It is absent (Python raises) exactly when `start` or both keys are missing. |
| TaskUtils.TaskToString | taskutils.py:8-10 | Rendering succeeds exactly when the event has a start and a summary. |
| TaskUtils.TaskToStringShape | taskutils.py:8-10 | Two hour digits, ':', two minute digits, a space, then the summary; with the date, the same string after "dd.mm.YYYY ". |
| TaskUtils.Line | taskutils.py:19-24 | A listing line exists exactly when the event can be rendered. |
| TaskUtils.Lines | taskutils.py:19-25 | One line per event in order, or none if any event cannot be rendered. |
| TaskUtils.TasksToString | taskutils.py:13-26 | No events give "Список пуст."; otherwise the result exists exactly when every event can be rendered. |
| TaskUtils.LineMark | taskutils.py:20-24 | A line is " - " and the task string between two equal markers: '_' exactly when the start is before now, '*' otherwise. |
| TaskUtils.TasksToStringLines | taskutils.py:17-26 | Splitting the schedule on line breaks gives "Расписание:" and then exactly one line per event, in order. |
| Notify.CheckEvent | notify_sender.py:23-27 | An event is reminded exactly when it has a start strictly inside the window and a summary. Reading it raises exactly when it has no start, or is inside the window without a summary. |
| Notify.DueEvents | notify_sender.py:23-24 | The due events are exactly the user's events whose start lies in the window. |
| Notify.ScanEvents | notify_sender.py:22-27 | A user's loop raises exactly when one of the events raises; otherwise it sends one reminder per due event, in order. |
| Notify.ScanUser | notify_sender.py:22-27 | The inner loop over one user's events computes `ScanEvents`: the same reminders, and it raises exactly when `ScanEvents` does. |
| Notify.ScanStopsAtRaise | notify_sender.py:22-27 | Events after the first one that raises are never looked at; the reminders sent before it stay sent. |
| Notify.ScanUsers | notify_sender.py:21-27 | The loop over users raises exactly when some event raises; otherwise it sends every user's reminders, user by user. |
| Notify.Tick | notify_sender.py:20-28 | If nothing raises, the cursor becomes now + 10 s whatever was sent, and the reminders are every user's due events. Nothing is caught: an exception from any event ends the thread (no cursor). |
| Notify.RunTick | notify_sender.py:20-28 | The nested loops compute `Tick`. |
| Notify.RemindersPerUser | notify_sender.py:21-27 | Each user gets exactly one reminder per due event of their own, in order, and none about other users' events. |
| Notify.TickRemindsIff | notify_sender.py:20-27 | Within one tick, a user's event is reminded to that user exactly when its start lies in the window. |
| Notify.ReminderLines | notify_sender.py:26 | A reminder's text (`Notify.ReminderText`) is two lines: "Напоминание о задаче:" and the task string between '*'. |
| Notify.PacedCursorsIncrease | notify_sender.py:18-29 | With a clock that advances by at least the sleep, the cursor advances by at least 10 s each tick. |
| Notify.TimesReminded | notify_sender.py:24 | Counts the windows between consecutive cursors that contain a start. There are at most as many as there are ticks. |
| Notify.SentToCount | notify_sender.py:21-27 | Keeping only the messages to one user keeps every copy of each message to that user. |
| Notify.DueTextCount | notify_sender.py:23-26 | Among a user's reminders, those with an event's text are one per copy of that event when it is due, and none otherwise. |
| Notify.TickRemindsOnce | notify_sender.py:21-27 | In one tick, a user gets exactly one reminder about an event they hold once, if its start lies in the window, and none otherwise. |
| Notify.TickReminds | notify_sender.py:21-27 | In one tick, a user gets one reminder about an event when its start lies in the window, and none otherwise. Outside the window the event need not be among the user's events at all; only no other event with its reminder text may be. |
| Notify.FetchedOnlyInWindow | notify_sender.py:22 | A run where `get_tasks(last, current)` returns the event only in the tick whose window holds its start, and nothing otherwise, meets the run lemmas' requirement. |
| Notify.Run | notify_sender.py:17-29 | Ticks run one after another, each on the cursor the one before returned. The run completes exactly when every tick is clean in its own window, and then its cursor is the last clock reading plus 10 s (`Cursors`). |
| Notify.RunReminders | notify_sender.py:17-29 | Over a run that does not raise, a user gets as many reminders about an event as there are windows between the run's consecutive cursors that contain its start. The event must be among the user's events only in the ticks whose window holds its start. |
| Notify.RunRemindsAtMostOnce | notify_sender.py:17-29 | With a clock that advances by at least the sleep, no user is reminded twice about an event over a run. |
| Notify.AtMostOnce | notify_sender.py:20-28 | With increasing cursors the windows are disjoint, so no start is reminded in two ticks. |
| Notify.CursorNeverReminded | notify_sender.py:24 | As written: a start equal to a cursor lies in no window. |
| Notify.HalfOpenRemindsOnce | notify_sender.py:24 | Corrected: with half-open windows every start from the first cursor up to the last lies in exactly one window. |
| Notify.RunMissesCursorStart | notify_sender.py:17-29 | As written: over a run, an event that starts exactly at one of the cursors is never reminded. |
| Notify.RunHalfOpenRemindsOnce | notify_sender.py:17-29 | Corrected: with half-open windows, an event starting from the run's first cursor up to its last is reminded exactly once over the run. |
| Notify.MissedAtCursor | notify_sender.py:18-29 | A concrete run (start 12:00:30, ticks at 12:00:50 and 12:01:00) misses an event at 12:01 as written, and reminds it once when half-open. |

## Left out

- user_data.py is not part of this model. It holds the Google Calendar calls, OAuth, Redis persistence and locks. The events `get_tasks(last, current)` returns are an input to `Notify.Tick`.
- Telegram transport is left out. `send_message`, `reply_to`, `edit_message_reply_markup`, `answer_callback_query` and `polling` are returned as values (`Reply`, `Effect`, `Reminder`). Message ids and JSON encoding of markups are not modelled.
- The settings file read and `exit` at bot.py:14-22 are left out: start-up I/O.
- The reminder thread, `sleep` and the clock are left out. Clock readings are parameters, and a run is the list of its clock readings together with each tick's events (`Notify.Run`).
- Time zones and ISO-8601 parsing are left out. `fromisoformat`, `replace(tzinfo=None)` and the `start` values arrive already decoded as `DateTime`/`Date`. Event starts are at minute precision, so seconds in an event's start are not modelled.
- Locale-dependent labels are abstract. The text of `calendar.month_name` and `day_abbr` is kept as `MonthTitle(month, year)` and `DayAbbr(i)`.
- The date parsing bot.py does on typed text (`strptime` with "%d.%m.%Y %H:%M" and "%d.%m.%Y") is abstract. Its result arrives with the message as an `Option`. Only the picker's own format `DT_FORMAT` is modelled character by character.
- `random.choice` is left out: the picked index is an input, and `Bot.RandomTaskHandler` states only that the suggestion is one of the future tasks.
- Text.Lower: lowers ASCII and the basic Cyrillic capitals (А–Я, Ё) only, not the rest of Unicode's case mappings, because only Russian and Latin names are expected.
- DtFormat.Parse: accepts ASCII digits only, while Python's `\d` also accepts other Unicode decimal digits.
- DateArith.Shift: covers only one-unit steps, because keyboard.py only ever steps by one unit. General `relativedelta` arithmetic is not modelled.
- Notify.RunTick: assumes `send_message` never raises. It is a foreign call.
- Notify.Tick: assumes `get_tasks` never raises, because user_data.py is not part of this model. A failing `get_tasks` would end the thread just as a raising event does. One source of such a failure is a user who never authorised, whose `service` stays `None` (user_data.py:44) and is dereferenced by `get_calendars` (user_data.py:156).
- Notify.RunReminders: counts reminders by their text. So it requires that, in every tick, no other event of the user has the event's reminder text. A recurring event has the same text in every occurrence, and each occurrence counts separately.
- DtFormat.YearText: writes `%Y` unpadded, as glibc's `strftime` does. Other C libraries pad the year to four digits. So the failure to read back years below 1000, and the `dt.year >= 1000` preconditions of the picker lemmas, hold for glibc only.

## Findings

| source | as written | input that shows it | evidently intended | confidence | as-written member | corrected member |
|---|---|---|---|---|---|---|
| keyboard.py:26,45,55 | `if calendar_data[2]:` (in the `calendar_day`, `today` and `tomorrow` branches) tests the token's truthiness, and the token is the string `str(only_calendar)`. Both "True" and "False" are non-empty, so the test always passes. | From the widget press "Календарь" (data `calendar:<dt>`, which builds the calendar with `False`), then press any day, or "Сегодня" or "Завтра": the picker closes with that day instead of returning to the widget. | Read the token as a boolean: close only for "True", otherwise re-open the widget on the chosen day. | high; not executed | PickerProperties.WidgetCalendarDayCloses, PickerProperties.WidgetCalendarShortcutsClose | PickerProperties.IntendedDayPress, PickerProperties.IntendedShortcutPress |
| notify_sender.py:24 | `self._last_time < start < current_time` is strict at the lower end, and the next window starts at the previous upper end. | Start 12:00:30, clock readings 12:00:50 and 12:01:00, event at 12:01: the cursor is 12:01:00 and neither window (12:00:30, 12:01:00) nor (12:01:00, 12:01:10) contains it. | Half-open windows `last <= start < current`, which tile the time line, so every start is reminded exactly once. | medium; not executed | Notify.RunMissesCursorStart | Notify.RunHalfOpenRemindsOnce |
