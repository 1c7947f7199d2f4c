/**
 * The per-user task list of bot.py: `Task` records kept sorted by start
 * date-time, lookup by name, the stable sort `list.sort(key=dt)` performs
 * after an append, removal, and the two backward scans `get_day_tasks` and
 * `get_future_tasks` that stop early on a sorted list.
 */
module TaskList {
  import opened Wrappers
  import opened Calendar

  /** `Task`: a name (stored lower-case) and a start date-time. */
  datatype Task = Task(name: string, dt: DateTime)

  predicate ValidTasks(ts: seq<Task>) {
    forall i :: 0 <= i < |ts| ==> Valid(ts[i].dt)
  }

  /** `a.dt <= b.dt` */
  predicate NotLater(a: Task, b: Task) {
    !Before(b.dt, a.dt)
  }

  /** Ordered by start date-time, ties in any order. */
  predicate Sorted(ts: seq<Task>) {
    forall i, j :: 0 <= i < j < |ts| ==> NotLater(ts[i], ts[j])
  }

  /** The position of the first task named `name`. */
  function FirstNamed(ts: seq<Task>, name: string): (r: Option<nat>)
    ensures r.Some? ==> r.value < |ts| && ts[r.value].name == name
    ensures r.Some? ==> forall k :: 0 <= k < r.value ==> ts[k].name != name
    ensures r.None? <==> forall k :: 0 <= k < |ts| ==> ts[k].name != name
  {
    if |ts| == 0 then None
    else if ts[0].name == name then Some(0)
    else match FirstNamed(ts[1..], name)
      case Some(i) => Some(i + 1)
      case None => None
  }

  /** `UserData.get_task(name)` */
  function GetTask(ts: seq<Task>, name: string): (r: Option<Task>)
    ensures r.Some? ==> r.value in ts && r.value.name == name
    ensures r.Some? ==> exists i :: 0 <= i < |ts| && r.value == ts[i] && forall k :: 0 <= k < i ==> ts[k].name != name
    ensures r.None? <==> forall k :: 0 <= k < |ts| ==> ts[k].name != name
  {
    match FirstNamed(ts, name)
    case Some(i) => Some(ts[i])
    case None => None
  }

  /** `tasks.remove(task)` for the first task named `name`. */
  function RemoveFirstNamed(ts: seq<Task>, name: string): (r: seq<Task>)
    requires FirstNamed(ts, name).Some?
    ensures |r| == |ts| - 1
    ensures multiset(r) + multiset{ts[FirstNamed(ts, name).value]} == multiset(ts)
    ensures forall k :: 0 <= k < |r| ==> r[k] == ts[if k < FirstNamed(ts, name).value then k else k + 1]
    ensures Sorted(ts) ==> Sorted(r)
    ensures ValidTasks(ts) ==> ValidTasks(r)
  {
    var i := FirstNamed(ts, name).value;
    RemoveAt(ts, i);
    var r := ts[..i] + ts[i + 1..];
    assert forall k :: 0 <= k < |r| ==> r[k] == ts[if k < i then k else k + 1];
    r
  }

  /** Cutting out the task at index i removes exactly that task and keeps order and validity. */
  lemma RemoveAt(ts: seq<Task>, i: nat)
    requires i < |ts|
    ensures multiset(ts[..i] + ts[i + 1..]) + multiset{ts[i]} == multiset(ts)
    ensures Sorted(ts) ==> Sorted(ts[..i] + ts[i + 1..])
    ensures ValidTasks(ts) ==> ValidTasks(ts[..i] + ts[i + 1..])
  {
    var r := ts[..i] + ts[i + 1..];
    assert ts == ts[..i] + [ts[i]] + ts[i + 1..];
    assert forall k :: 0 <= k < |r| ==> r[k] == ts[if k < i then k else k + 1];
  }

  /** Place `t` after every task not later than it: one step of a stable insertion sort. */
  function Insert(ts: seq<Task>, t: Task): (r: seq<Task>)
    ensures multiset(r) == multiset(ts) + multiset{t}
    ensures |r| == |ts| + 1
  {
    if |ts| == 0 then [t]
    else if Before(t.dt, ts[0].dt) then [t] + ts
    else
      assert ts == [ts[0]] + ts[1..];
      [ts[0]] + Insert(ts[1..], t)
  }

  /** A list headed by `a` is sorted when its tail is and `a` is not later than any task of the tail. */
  lemma SortedCons(a: Task, tail: seq<Task>)
    requires Sorted(tail)
    requires forall x :: x in tail ==> NotLater(a, x)
    ensures Sorted([a] + tail)
  {
    var r := [a] + tail;
    forall i, j | 0 <= i < j < |r|
      ensures NotLater(r[i], r[j])
    {
      if i == 0 {
        assert r[j] in tail;
      } else {
        assert r[i] == tail[i - 1] && r[j] == tail[j - 1];
      }
    }
  }

  lemma {:induction false} InsertSorted(ts: seq<Task>, t: Task)
    requires Sorted(ts)
    ensures Sorted(Insert(ts, t))
    decreases |ts|
  {
    if |ts| == 0 {
    } else if Before(t.dt, ts[0].dt) {
      forall x | x in ts
        ensures NotLater(t, x)
      {
        var k :| 0 <= k < |ts| && ts[k] == x;
        assert NotLater(ts[0], x);
        BeforeTrichotomy(t.dt, ts[0].dt);
        if Before(x.dt, t.dt) {
          BeforeTransitive(x.dt, t.dt, ts[0].dt);
        }
      }
      SortedCons(t, ts);
    } else {
      var tail := Insert(ts[1..], t);
      assert Sorted(ts[1..]);
      InsertSorted(ts[1..], t);
      forall x | x in tail
        ensures NotLater(ts[0], x)
      {
        assert x in multiset(tail);
        if x != t {
          assert x in ts[1..];
        }
      }
      SortedCons(ts[0], tail);
    }
  }

  /** `tasks.sort(key=lambda task: task.dt)`: a stable sort by start date-time. */
  function SortByDt(ts: seq<Task>): (r: seq<Task>)
    ensures multiset(r) == multiset(ts)
    ensures Sorted(r)
    decreases |ts|
  {
    if |ts| == 0 then []
    else
      var init := ts[..|ts| - 1];
      assert ts == init + [ts[|ts| - 1]];
      InsertSorted(SortByDt(init), ts[|ts| - 1]);
      Insert(SortByDt(init), ts[|ts| - 1])
  }

  /** Inserting a task not earlier than every task of a sorted list appends it. */
  lemma {:induction false} InsertLast(ts: seq<Task>, t: Task)
    requires forall k :: 0 <= k < |ts| ==> NotLater(ts[k], t)
    ensures Insert(ts, t) == ts + [t]
  {
    if |ts| > 0 {
      InsertLast(ts[1..], t);
      assert [ts[0]] + (ts[1..] + [t]) == ts + [t];
    }
  }

  /** Sorting an already sorted list leaves it as it is (the sort is stable). */
  lemma {:induction false} SortSortedIsIdentity(ts: seq<Task>)
    requires Sorted(ts)
    ensures SortByDt(ts) == ts
    decreases |ts|
  {
    if |ts| > 0 {
      var init := ts[..|ts| - 1];
      SortSortedIsIdentity(init);
      InsertLast(init, ts[|ts| - 1]);
      assert init + [ts[|ts| - 1]] == ts;
    }
  }

  /** Appending to a sorted list and sorting inserts the task after all tasks not later than it. */
  lemma AppendSortIsInsert(ts: seq<Task>, t: Task)
    requires Sorted(ts)
    ensures SortByDt(ts + [t]) == Insert(ts, t)
  {
    assert (ts + [t])[..|ts|] == ts;
    SortSortedIsIdentity(ts);
  }

  /** The tasks of day `d`, in list order: `[t for t in tasks if t.dt.date() == d]`. */
  function TasksOnDay(ts: seq<Task>, d: Date): (r: seq<Task>)
    ensures forall t :: t in r <==> t in ts && t.dt.DateOf() == d
    ensures ValidTasks(ts) ==> ValidTasks(r)
    decreases |ts|
  {
    if |ts| == 0 then []
    else
      var last := ts[|ts| - 1];
      assert ts == ts[..|ts| - 1] + [last];
      TasksOnDay(ts[..|ts| - 1], d) + (if last.dt.DateOf() == d then [last] else [])
  }

  /** `UserData.get_day_tasks(d)`: scan from the end, stop at the first task of an earlier day. */
  function GetDayTasks(ts: seq<Task>, d: Date): (r: seq<Task>)
    ensures forall t :: t in r ==> t in ts && t.dt.DateOf() == d
    decreases |ts|
  {
    if |ts| == 0 then []
    else
      var last := ts[|ts| - 1];
      if last.dt.DateOf() == d then GetDayTasks(ts[..|ts| - 1], d) + [last]
      else if DateBefore(last.dt.DateOf(), d) then []
      else GetDayTasks(ts[..|ts| - 1], d)
  }

  /** On a sorted list the early-stopping scan finds exactly the day's tasks, in order. */
  lemma {:induction false} GetDayTasksIsFilter(ts: seq<Task>, d: Date)
    requires Sorted(ts)
    ensures GetDayTasks(ts, d) == TasksOnDay(ts, d)
    decreases |ts|
  {
    if |ts| > 0 {
      var init := ts[..|ts| - 1];
      var last := ts[|ts| - 1];
      assert Sorted(init);
      GetDayTasksIsFilter(init, d);
      if last.dt.DateOf() != d && DateBefore(last.dt.DateOf(), d) {
        forall t | t in init
          ensures t.dt.DateOf() != d
        {
          var k :| 0 <= k < |init| && init[k] == t;
          assert NotLater(ts[k], last);
        }
        NothingOnDay(init, d);
      }
    }
  }

  lemma {:induction false} NothingOnDay(ts: seq<Task>, d: Date)
    requires forall t :: t in ts ==> t.dt.DateOf() != d
    ensures TasksOnDay(ts, d) == []
    decreases |ts|
  {
    if |ts| > 0 {
      assert ts[|ts| - 1] in ts;
      NothingOnDay(ts[..|ts| - 1], d);
    }
  }

  /** The tasks starting at or after `now`, in list order: `[t for t in tasks if t.dt >= now]`. */
  function TasksFrom(ts: seq<Task>, now: int): (r: seq<Task>)
    requires ValidTasks(ts)
    ensures forall t :: t in r <==> t in ts && InstantOf(t.dt) >= now
    ensures ValidTasks(r)
    decreases |ts|
  {
    if |ts| == 0 then []
    else
      var last := ts[|ts| - 1];
      assert ts == ts[..|ts| - 1] + [last];
      TasksFrom(ts[..|ts| - 1], now) + (if InstantOf(last.dt) >= now then [last] else [])
  }

  /** `UserData.get_future_tasks()` at instant `now`: scan from the end, stop at the first past task. */
  function GetFutureTasks(ts: seq<Task>, now: int): (r: seq<Task>)
    requires ValidTasks(ts)
    ensures forall t :: t in r ==> t in ts && InstantOf(t.dt) >= now
    decreases |ts|
  {
    if |ts| == 0 then []
    else
      var last := ts[|ts| - 1];
      if InstantOf(last.dt) >= now then GetFutureTasks(ts[..|ts| - 1], now) + [last]
      else []
  }

  /** On a sorted list the early-stopping scan finds exactly the tasks not yet started, in order. */
  lemma {:induction false} GetFutureTasksIsFilter(ts: seq<Task>, now: int)
    requires ValidTasks(ts) && Sorted(ts)
    ensures GetFutureTasks(ts, now) == TasksFrom(ts, now)
    decreases |ts|
  {
    if |ts| > 0 {
      var init := ts[..|ts| - 1];
      var last := ts[|ts| - 1];
      assert Sorted(init);
      GetFutureTasksIsFilter(init, now);
      if InstantOf(last.dt) < now {
        forall t | t in init
          ensures InstantOf(t.dt) < now
        {
          var k :| 0 <= k < |init| && init[k] == t;
          assert NotLater(ts[k], last);
          InstantOrder(last.dt, t.dt);
        }
        NothingFrom(init, now);
      }
    }
  }

  lemma {:induction false} NothingFrom(ts: seq<Task>, now: int)
    requires ValidTasks(ts)
    requires forall t :: t in ts ==> InstantOf(t.dt) < now
    ensures TasksFrom(ts, now) == []
    decreases |ts|
  {
    if |ts| > 0 {
      assert ts[|ts| - 1] in ts;
      NothingFrom(ts[..|ts| - 1], now);
    }
  }
}
