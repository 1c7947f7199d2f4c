/**
 * The conversation controller of bot.py: a registry of per-user records,
 * the command handlers that set the dialog state, and the dispatcher that
 * routes free text to the handler of the user's current state. Each handler
 * is a pure step from (user record, message) to (user record, reply).
 */
module Bot {
  import opened Wrappers
  import opened Calendar
  import opened DateArith
  import opened Text
  import opened DtFormat
  import opened TaskList

  const MainState: int := 0
  const EnterAddedTaskNameState: int := 1
  const EnterAddedTaskDateState: int := 2
  const DeleteTaskState: int := 3
  const RandomTaskState: int := 4
  const EnterPrintTasksDateState: int := 5

  /** `UserData`: dialog state, sorted task list, and the name of the task being added. */
  datatype UserData = UserData(state: int, tasks: seq<Task>, currentTask: Option<string>)

  /** `UserData()` */
  const NewUser: UserData := UserData(MainState, [], None)

  /**
   * An incoming message. A command message is handled by its command
   * handler; any other text goes to the dispatcher. The text's readings under
   * `"%d.%m.%Y %H:%M"` and `"%d.%m.%Y"` are carried along, None where
   * `strptime` raises ValueError.
   */
  datatype Event =
    | StartCommand      // /start or /help
    | AddCommand        // /add
    | DeleteCommand     // /delete
    | TasksCommand      // /tasks
    | Message(text: string, asDateTime: Option<DateTime>, asDate: Option<Date>)

  /** What the bot sends: `send_message`, `reply_to`, or nothing because the handler raised. */
  datatype Reply = Send(text: string) | ReplyTo(text: string) | Crash

  /** The clock and the random choice a handler reads: `date.today()`, `datetime.now()` as an instant, and the index `random.choice` picks. */
  datatype Clock = Clock(today: Date, now: int, pick: nat)

  /** The user record after a handler, and the reply. */
  datatype Turn = Turn(user: UserData, reply: Reply)

  const WelcomeText: string :=
    "Вас приветствует календарь бот, который хранит список задач. "
    + "Задачи хранятся в нижнем регистре.\n\n"
    + "Команда /add - добавляет задачу\n"
    + "Команда /delete - удаляет задачу\n"
    + "Команда /tasks - список задач\n"
    + "Команда /help - данная справка"
  const AddPrompt: string := "Добавление задачи. Введите имя."
  const TaskExistsText: string := "Эта задача уже существует. Введите новое название."
  const DatePrompt: string := "Введите дату и время начала задачи в формате \"дд.мм.гггг чч:мм\"."
  const BadDateTimeText: string := "Время введено в неверном формате. Попробуйте еще раз в формате \"дд.мм.гггг чч:мм\"."
  const AddedText: string := "Задача добавлена в список."
  const DeletePrompt: string := "Удаление задачи. Введите имя."
  const DeletedText: string := "Задача успешно удалена."
  const MissingTaskText: string := "Эта задача отсутствует в списке. Введите другое название."
  const TasksPrompt: string := "Вывод списка задач. Введите дату в формате \"дд.мм.гггг\", или \"все\", или \"сегодня\", или \"завтра\""
  const BadDateText: string := "Время введено в неверном формате. Попробуйте еще раз в формате \"дд.мм.гггг\", или \"все\", или \"сегодня\", или \"завтра\"."
  const IdleText: string := "Хватит дурачиться, займись делом."
  const ExampleText: string := "\nНапример, "
  const NotUnderstoodText: string := "Не понял, повтори..."
  const EmptyListText: string := "Список пуст"
  const ListHeader: string := "Задачи:"

  /** `str(task)`: the name, ": ", and the start as `%d.%m.%Y %H:%M`. */
  function TaskText(t: Task): string
    requires Valid(t.dt)
  {
    t.name + ": " + DayClockText(t.dt)
  }

  /** One listed task: " - " and the task. */
  function Bullet(t: Task): string
    requires Valid(t.dt)
  {
    " - " + TaskText(t)
  }

  /** The day-and-time text has no line break. */
  lemma DayClockTextOneLine(dt: DateTime)
    requires Valid(dt)
    ensures '\n' !in DayClockText(dt)
  {
    var y := YearText(dt.year);
    assert AllDigits(y);
    assert '\n' !in y;
  }

  lemma BulletOneLine(t: Task)
    requires Valid(t.dt) && '\n' !in t.name
    ensures '\n' !in Bullet(t)
  {
    DayClockTextOneLine(t.dt);
    var a, b, c := " - ", t.name, ": ";
    assert '\n' !in a && '\n' !in c;
    assert Bullet(t) == a + b + c + DayClockText(t.dt);
  }

  /** The list's lines, one per task in order; none has a line break when no name has one. */
  function BulletLines(ts: seq<Task>): (r: seq<string>)
    requires ValidTasks(ts)
    ensures |r| == |ts|
    ensures forall k :: 0 <= k < |ts| ==> r[k] == Bullet(ts[k])
    ensures (forall k :: 0 <= k < |ts| ==> '\n' !in ts[k].name) ==> Separable(r, '\n')
  {
    var r := seq(|ts|, k requires 0 <= k < |ts| => Bullet(ts[k]));
    assert (forall k :: 0 <= k < |ts| ==> '\n' !in ts[k].name) ==> Separable(r, '\n') by {
      if forall k :: 0 <= k < |ts| ==> '\n' !in ts[k].name {
        forall k | 0 <= k < |r|
          ensures '\n' !in r[k]
        {
          BulletOneLine(ts[k]);
        }
      }
    }
    r
  }

  /**
   * `tasks_to_string(tasks)` of bot.py: "Список пуст" for no tasks,
   * otherwise the header followed, for each task, by a line break and its
   * line, as the loop `string += '\n - ' + str(task)` builds it.
   */
  function TasksToString(ts: seq<Task>): string
    requires ValidTasks(ts)
  {
    if |ts| == 0 then EmptyListText else ListHeader + JoinTail(BulletLines(ts), '\n')
  }

  lemma HeaderOneLine()
    ensures '\n' !in ListHeader
  {
  }

  /**
   * A non-empty list prints as the header and then exactly one line per
   * task, in list order; an empty one prints as "Список пуст".
   */
  lemma TasksToStringLines(ts: seq<Task>)
    requires ValidTasks(ts)
    requires forall k :: 0 <= k < |ts| ==> '\n' !in ts[k].name
    ensures |ts| == 0 ==> TasksToString(ts) == EmptyListText
    ensures |ts| > 0 ==> Split(TasksToString(ts), '\n') == [ListHeader] + BulletLines(ts)
  {
    if |ts| > 0 {
      HeaderOneLine();
      SplitHeaded(ListHeader, BulletLines(ts), '\n');
    }
  }

  /** The invariant every reachable user record keeps. */
  predicate Wf(u: UserData) {
    && ValidTasks(u.tasks)
    && Sorted(u.tasks)
    && (u.state == EnterAddedTaskDateState ==> u.currentTask.Some?)
  }

  /** A message whose date readings are dates `strptime` can return. */
  predicate WfEvent(e: Event) {
    e.Message? ==> (e.asDateTime.Some? ==> Valid(e.asDateTime.value)) && (e.asDate.Some? ==> ValidDate(e.asDate.value))
  }

  /** `add_handler`, `delete_handler`, `tasks_handler`: prompt and enter the state, nothing else changes. */
  function CommandHandler(u: UserData, e: Event): (r: Turn)
    requires !e.Message? && !e.StartCommand?
    ensures r.user.tasks == u.tasks && r.user.currentTask == u.currentTask
    ensures r.user.state == (match e
      case AddCommand => 1
      case DeleteCommand => 3
      case TasksCommand => 5)
  {
    match e
    case AddCommand => Turn(u.(state := EnterAddedTaskNameState), Send(AddPrompt))
    case DeleteCommand => Turn(u.(state := DeleteTaskState), Send(DeletePrompt))
    case TasksCommand => Turn(u.(state := EnterPrintTasksDateState), Send(TasksPrompt))
  }

  /** `enter_added_task_name_handler`: refuse a name already in the list, else remember it and ask for the date. */
  function NameHandler(u: UserData, text: string): (r: Turn)
    ensures r.user.tasks == u.tasks
    ensures (exists k :: 0 <= k < |u.tasks| && u.tasks[k].name == Lower(text)) ==> r.user == u
    ensures (forall k :: 0 <= k < |u.tasks| ==> u.tasks[k].name != Lower(text)) ==>
      r.user.state == EnterAddedTaskDateState && r.user.currentTask == Some(Lower(text))
    ensures r.user.currentTask.Some? ==> Lower(r.user.currentTask.value) == r.user.currentTask.value || r.user == u
  {
    var name := Lower(text);
    LowerIdempotent(text);
    if GetTask(u.tasks, name).Some? then Turn(u, ReplyTo(TaskExistsText))
    else Turn(u.(currentTask := Some(name), state := EnterAddedTaskDateState), ReplyTo(DatePrompt))
  }

  /** `enter_added_task_date_handler`: on a readable date append the task, re-sort, return to the main state. */
  function DateHandler(u: UserData, typed: Option<DateTime>): (r: Turn)
    requires typed.Some? ==> Valid(typed.value)
    requires ValidTasks(u.tasks)
    ensures ValidTasks(r.user.tasks)
    ensures typed.None? ==> r.user == u && r.reply.ReplyTo?
    ensures typed.Some? && u.currentTask.None? ==> r.user == u && r.reply == Crash
    ensures typed.Some? && u.currentTask.Some? ==>
      && r.user.state == MainState
      && Sorted(r.user.tasks)
      && multiset(r.user.tasks) == multiset(u.tasks) + multiset{Task(u.currentTask.value, typed.value)}
      && (Sorted(u.tasks) ==> r.user.tasks == Insert(u.tasks, Task(u.currentTask.value, typed.value)))
  {
    match typed
    case None => Turn(u, ReplyTo(BadDateTimeText))
    case Some(dt) =>
      match u.currentTask
      case None => Turn(u, Crash)
      case Some(name) =>
        var tasks := SortByDt(u.tasks + [Task(name, dt)]);
        assert ValidTasks(tasks) by {
          forall k | 0 <= k < |tasks|
            ensures Valid(tasks[k].dt)
          {
            assert tasks[k] in multiset(u.tasks + [Task(name, dt)]);
          }
        }
        assert Sorted(u.tasks) ==> tasks == Insert(u.tasks, Task(name, dt)) by {
          if Sorted(u.tasks) {
            AppendSortIsInsert(u.tasks, Task(name, dt));
          }
        }
        Turn(u.(tasks := tasks, state := MainState), ReplyTo(AddedText))
  }

  /** `delete_task_handler`: remove the first task with the lower-cased name and return to the main state. */
  function DeleteTaskHandler(u: UserData, text: string): (r: Turn)
    requires ValidTasks(u.tasks)
    ensures ValidTasks(r.user.tasks)
    ensures FirstNamed(u.tasks, Lower(text)).None? ==> r.user == u
    ensures FirstNamed(u.tasks, Lower(text)).Some? ==>
      var i := FirstNamed(u.tasks, Lower(text)).value;
      && r.user.state == MainState
      && r.user.currentTask == u.currentTask
      && |r.user.tasks| == |u.tasks| - 1
      && multiset(r.user.tasks) + multiset{u.tasks[i]} == multiset(u.tasks)
      && (forall k :: 0 <= k < |r.user.tasks| ==> r.user.tasks[k] == u.tasks[if k < i then k else k + 1])
      && u.tasks[i].name == Lower(text)
      && (forall k :: 0 <= k < i ==> u.tasks[k].name != Lower(text))
    ensures Sorted(u.tasks) ==> Sorted(r.user.tasks)
  {
    var name := Lower(text);
    if FirstNamed(u.tasks, name).Some? then
      Turn(u.(tasks := RemoveFirstNamed(u.tasks, name), state := MainState), ReplyTo(DeletedText))
    else
      Turn(u, ReplyTo(MissingTaskText))
  }

  /** `enter_print_tasks_date_handler`: list all tasks or one day's tasks, then return to the main state. */
  function PrintTasksHandler(u: UserData, text: string, typed: Option<Date>, clock: Clock): (r: Turn)
    requires ValidTasks(u.tasks) && ValidDate(clock.today)
    ensures r.user.tasks == u.tasks && r.user.currentTask == u.currentTask
    ensures r.reply.Send? ==> r.user.state == MainState
    ensures !r.reply.Send? ==> r.user == u
    ensures Lower(text) == "все" ==> r.reply == Send(TasksToString(u.tasks))
    ensures Sorted(u.tasks) && Lower(text) == "сегодня" ==>
      r.reply == Send(TasksToString(TasksOnDay(u.tasks, clock.today)))
    ensures Lower(text) == "завтра" ==> (r.reply == Crash <==> clock.today == Date(MaxYear, 12, 31))
    ensures Sorted(u.tasks) && Lower(text) == "завтра" && clock.today != Date(MaxYear, 12, 31) ==>
      r.reply == Send(TasksToString(TasksOnDay(u.tasks, NextDay(clock.today).value)))
    ensures Lower(text) != "все" && Lower(text) != "сегодня" && Lower(text) != "завтра" ==>
      && (typed.None? ==> r == Turn(u, ReplyTo(BadDateText)))
      && (Sorted(u.tasks) && typed.Some? ==> r.reply == Send(TasksToString(TasksOnDay(u.tasks, typed.value))))
  {
    var s := Lower(text);
    if s == "все" then
      Turn(u.(state := MainState), Send(TasksToString(u.tasks)))
    else
      var day :=
        if s == "сегодня" then Some(clock.today)
        else if s == "завтра" then NextDay(clock.today)
        else typed;
      match day
      case None =>
        if s == "завтра" then Turn(u, Crash) else Turn(u, ReplyTo(BadDateText))
      case Some(d) =>
        var found := GetDayTasks(u.tasks, d);
        assert ValidTasks(found) by {
          forall k | 0 <= k < |found|
            ensures Valid(found[k].dt)
          {
            assert found[k] in u.tasks;
          }
        }
        assert Sorted(u.tasks) ==> found == TasksOnDay(u.tasks, d) by {
          if Sorted(u.tasks) {
            GetDayTasksIsFilter(u.tasks, d);
          }
        }
        Turn(u.(state := MainState), Send(TasksToString(found)))
  }

  /** `random_task_handler`: nag, suggest one task that has not started yet if there is one, return to the main state. */
  function RandomTaskHandler(u: UserData, clock: Clock): (r: Turn)
    requires ValidTasks(u.tasks)
    ensures r.user == u.(state := MainState)
    ensures r.reply.Send?
    ensures GetFutureTasks(u.tasks, clock.now) == [] ==> r.reply.text == IdleText
    ensures GetFutureTasks(u.tasks, clock.now) != [] ==>
      exists t :: t in GetFutureTasks(u.tasks, clock.now) && Valid(t.dt) && r.reply.text == IdleText + ExampleText + TaskText(t)
  {
    var future := GetFutureTasks(u.tasks, clock.now);
    if |future| == 0 then Turn(u.(state := MainState), Send(IdleText))
    else
      var t := future[clock.pick % |future|];
      assert t in u.tasks;
      Turn(u.(state := MainState), Send(IdleText + ExampleText + TaskText(t)))
  }

  /** `dispatcher`: route a non-command message by the user's state. */
  function Dispatch(u: UserData, e: Event, clock: Clock): (r: Turn)
    requires e.Message? && WfEvent(e)
    requires ValidTasks(u.tasks) && ValidDate(clock.today)
    ensures ValidTasks(r.user.tasks)
    ensures !(1 <= u.state <= 5) ==> r == Turn(u.(state := RandomTaskState), Send(NotUnderstoodText))
    ensures u.state == RandomTaskState ==> r.user.state == MainState
  {
    if u.state == EnterAddedTaskNameState then NameHandler(u, e.text)
    else if u.state == EnterAddedTaskDateState then DateHandler(u, e.asDateTime)
    else if u.state == DeleteTaskState then DeleteTaskHandler(u, e.text)
    else if u.state == RandomTaskState then RandomTaskHandler(u, clock)
    else if u.state == EnterPrintTasksDateState then PrintTasksHandler(u, e.text, e.asDate, clock)
    else Turn(u.(state := RandomTaskState), Send(NotUnderstoodText))
  }

  /** One incoming message for a user record. */
  function Step(u: UserData, e: Event, clock: Clock): (r: Turn)
    requires WfEvent(e) && ValidTasks(u.tasks) && ValidDate(clock.today)
    ensures ValidTasks(r.user.tasks)
  {
    match e
    case StartCommand => Turn(u, Send(WelcomeText))
    case Message(_, _, _) => Dispatch(u, e, clock)
    case _ => CommandHandler(u, e)
  }

  /** Every step keeps a well-formed record well-formed. */
  lemma StepPreservesWf(u: UserData, e: Event, clock: Clock)
    requires Wf(u) && WfEvent(e) && ValidDate(clock.today)
    ensures Wf(Step(u, e, clock).user)
  {
  }

  /** A well-formed record never makes a handler raise, except "завтра" on the last representable day. */
  lemma WfNeverCrashes(u: UserData, e: Event, clock: Clock)
    requires Wf(u) && WfEvent(e) && ValidDate(clock.today)
    requires clock.today != Date(MaxYear, 12, 31)
    ensures Step(u, e, clock).reply != Crash
  {
  }

  /** The process-wide `data` dictionary. */
  type Registry = map<int, UserData>

  /** `get_user_data(user_id)`: the user's record, created in the main state on first contact. */
  function GetUserData(reg: Registry, id: int): (r: (Registry, UserData))
    ensures id in r.0 && r.0[id] == r.1
    ensures id in reg ==> r.0 == reg
    ensures id !in reg ==> r.1 == NewUser && r.0 == reg[id := NewUser]
  {
    if id in reg then (reg, reg[id]) else (reg[id := NewUser], NewUser)
  }

  /** Asking for a record a second time returns the same record and changes nothing. */
  lemma GetUserDataIdempotent(reg: Registry, id: int)
    ensures GetUserData(GetUserData(reg, id).0, id) == GetUserData(reg, id)
  {
  }

  /** All records in the registry are well-formed. */
  predicate WfRegistry(reg: Registry) {
    forall id :: id in reg ==> Wf(reg[id])
  }

  /** Handle one message from user `id`: fetch (or create) the record, step it, store it back. */
  function Deliver(reg: Registry, id: int, e: Event, clock: Clock): (r: (Registry, Reply))
    requires WfRegistry(reg) && WfEvent(e) && ValidDate(clock.today)
    ensures WfRegistry(r.0)
    ensures r.0.Keys == reg.Keys + {id}
    ensures forall other :: other in reg && other != id ==> r.0[other] == reg[other]
  {
    var (reg1, u) := GetUserData(reg, id);
    StepPreservesWf(u, e, clock);
    var t := Step(u, e, clock);
    (reg1[id := t.user], t.reply)
  }
}
