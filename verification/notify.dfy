/**
 * The reminder thread of notify_sender.py. The thread keeps a cursor
 * `last`; each iteration reads the clock `now`, sets the window's upper end
 * to `now + SLEEP_TIMEOUT`, sends every user a reminder for each of that
 * user's events starting strictly inside the window, moves the cursor to
 * the upper end and sleeps. Clock and sleep are inputs here: one iteration
 * is the function `Tick`, and a run is the sequence of cursors it produces.
 */
module Notify {
  import opened Wrappers
  import opened Calendar
  import opened Text
  import opened TaskUtils

  /** `NotifySender.SLEEP_TIMEOUT`: 10 seconds, in microseconds. */
  const SleepTimeout: int := 10_000_000

  /** A user as the thread sees it: the chat id and the events `get_tasks(last, current)` returned. */
  datatype UserEvents = UserEvents(userId: int, events: seq<CalendarEvent>)

  /** One `send_message(user_id, text)`. */
  datatype Reminder = Reminder(userId: int, text: string)

  /**
   * Which starts count as inside the window (last, cur): `Open` is the test
   * of notify_sender.py, strict at both ends; `HalfOpen` includes the
   * lower end, so that consecutive windows tile the time line.
   */
  datatype Window = Open | HalfOpen

  predicate InWindow(w: Window, last: int, cur: int, s: int) {
    match w
    case Open => last < s < cur
    case HalfOpen => last <= s < cur
  }

  const ReminderHeader: string := "Напоминание о задаче:"

  /** The reminder's text: the header, a line break, and the task string between two '*'. */
  function ReminderText(e: CalendarEvent): string
    requires WellFormed(e) && Renderable(e)
  {
    ReminderHeader + "\n*" + TaskToString(e, false).value + "*"
  }

  /** An event that gets a reminder: it has a start time inside the window, and a summary. */
  predicate Due(w: Window, last: int, cur: int, e: CalendarEvent)
    requires WellFormed(e)
  {
    StartTime(e).Some? && e.summary.Some? && InWindow(w, last, cur, InstantOf(StartTime(e).value))
  }

  /** What looking at one event does: nothing, one reminder, or an exception. */
  datatype Check = Skip | Remind(text: string) | Raise

  /**
   * The inner loop body: reading the start raises when there is none;
   * an event in the window is rendered, which raises when it has no summary.
   */
  function CheckEvent(w: Window, last: int, cur: int, e: CalendarEvent): (r: Check)
    requires WellFormed(e)
    ensures r.Remind? <==> Due(w, last, cur, e)
    ensures r.Remind? ==> r.text == ReminderText(e)
    ensures r.Raise? <==>
      StartTime(e).None? || (e.summary.None? && InWindow(w, last, cur, InstantOf(StartTime(e).value)))
  {
    match StartTime(e)
    case None => Raise
    case Some(dt) =>
      if !InWindow(w, last, cur, InstantOf(dt)) then Skip
      else if e.summary.None? then Raise
      else Remind(ReminderText(e))
  }

  predicate AllWellFormed(es: seq<CalendarEvent>) {
    forall k :: 0 <= k < |es| ==> WellFormed(es[k])
  }

  /** No event of `es` raises. */
  predicate Clean(w: Window, last: int, cur: int, es: seq<CalendarEvent>)
    requires AllWellFormed(es)
  {
    forall k :: 0 <= k < |es| ==> !CheckEvent(w, last, cur, es[k]).Raise?
  }

  /** The events that get a reminder, in their order. */
  function DueEvents(w: Window, last: int, cur: int, es: seq<CalendarEvent>): (r: seq<CalendarEvent>)
    requires AllWellFormed(es)
    ensures |r| <= |es|
    ensures forall k :: 0 <= k < |r| ==> WellFormed(r[k]) && Due(w, last, cur, r[k])
    ensures forall e :: e in r <==> e in es && WellFormed(e) && Due(w, last, cur, e)
    decreases |es|
  {
    if |es| == 0 then []
    else
      var init, e := es[..|es| - 1], es[|es| - 1];
      assert es == init + [e];
      DueEvents(w, last, cur, init) + (if Due(w, last, cur, e) then [e] else [])
  }

  /** One reminder to `uid` per event of `ds`, in order. */
  function Messages(uid: int, ds: seq<CalendarEvent>): seq<Reminder>
    requires forall k :: 0 <= k < |ds| ==> WellFormed(ds[k]) && Renderable(ds[k])
  {
    seq(|ds|, k requires 0 <= k < |ds| => Reminder(uid, ReminderText(ds[k])))
  }

  /** The reminders sent so far, and whether the iteration has raised. */
  datatype Scan = Scan(sent: seq<Reminder>, raised: bool)

  /**
   * The inner loop over one user's events. Without an exception it sends
   * exactly the reminders of the due events, in order; `ScanStopsAtRaise`
   * says what it sends when an event raises.
   */
  function ScanEvents(w: Window, last: int, cur: int, uid: int, es: seq<CalendarEvent>): (r: Scan)
    requires AllWellFormed(es)
    ensures r.raised <==> !Clean(w, last, cur, es)
    ensures !r.raised ==> r.sent == Messages(uid, DueEvents(w, last, cur, es))
    decreases |es|
  {
    if |es| == 0 then Scan([], false)
    else
      var init, e := es[..|es| - 1], es[|es| - 1];
      SnocFacts(w, last, cur, uid, es);
      var p := ScanEvents(w, last, cur, uid, init);
      if p.raised then p
      else
        match CheckEvent(w, last, cur, e)
        case Skip => p
        case Remind(t) => Scan(p.sent + [Reminder(uid, t)], false)
        case Raise => Scan(p.sent, true)
  }

  /** How the last event of a list adds to the due events, the messages and cleanness. */
  lemma SnocFacts(w: Window, last: int, cur: int, uid: int, es: seq<CalendarEvent>)
    requires AllWellFormed(es) && |es| > 0
    ensures AllWellFormed(es[..|es| - 1])
    ensures Clean(w, last, cur, es) <==>
      Clean(w, last, cur, es[..|es| - 1]) && !CheckEvent(w, last, cur, es[|es| - 1]).Raise?
    ensures Due(w, last, cur, es[|es| - 1]) ==>
      Messages(uid, DueEvents(w, last, cur, es))
      == Messages(uid, DueEvents(w, last, cur, es[..|es| - 1])) + [Reminder(uid, ReminderText(es[|es| - 1]))]
    ensures !Due(w, last, cur, es[|es| - 1]) ==>
      DueEvents(w, last, cur, es) == DueEvents(w, last, cur, es[..|es| - 1])
  {
    CleanSnoc(w, last, cur, es);
    var init, e := es[..|es| - 1], es[|es| - 1];
    if Due(w, last, cur, e) {
      var a := DueEvents(w, last, cur, init);
      assert DueEvents(w, last, cur, es) == a + [e];
      MessagesSnoc(uid, a, e);
    }
  }

  lemma CleanSnoc(w: Window, last: int, cur: int, es: seq<CalendarEvent>)
    requires AllWellFormed(es) && |es| > 0
    ensures AllWellFormed(es[..|es| - 1])
    ensures Clean(w, last, cur, es) <==>
      Clean(w, last, cur, es[..|es| - 1]) && !CheckEvent(w, last, cur, es[|es| - 1]).Raise?
  {
    var init := es[..|es| - 1];
    assert forall k :: 0 <= k < |init| ==> init[k] == es[k];
  }

  lemma MessagesSnoc(uid: int, ds: seq<CalendarEvent>, e: CalendarEvent)
    requires forall k :: 0 <= k < |ds| ==> WellFormed(ds[k]) && Renderable(ds[k])
    requires WellFormed(e) && Renderable(e)
    ensures Messages(uid, ds + [e]) == Messages(uid, ds) + [Reminder(uid, ReminderText(e))]
  {
    var l, r := Messages(uid, ds + [e]), Messages(uid, ds) + [Reminder(uid, ReminderText(e))];
    assert |l| == |r|;
    forall k | 0 <= k < |l|
      ensures l[k] == r[k]
    {
      if k < |ds| {
        assert (ds + [e])[k] == ds[k];
      }
    }
  }

  predicate AllUsersWellFormed(us: seq<UserEvents>) {
    forall i :: 0 <= i < |us| ==> AllWellFormed(us[i].events)
  }

  /** Every reminder of a tick that does not raise: each user's, user by user. */
  function AllMessages(w: Window, last: int, cur: int, us: seq<UserEvents>): seq<Reminder>
    requires AllUsersWellFormed(us)
    decreases |us|
  {
    if |us| == 0 then []
    else
      var init, u := us[..|us| - 1], us[|us| - 1];
      AllMessages(w, last, cur, init) + Messages(u.userId, DueEvents(w, last, cur, u.events))
  }

  /** No event of any user raises. */
  predicate AllClean(w: Window, last: int, cur: int, us: seq<UserEvents>)
    requires AllUsersWellFormed(us)
  {
    forall i :: 0 <= i < |us| ==> Clean(w, last, cur, us[i].events)
  }

  /** The outer loop over the users, in the registry's order; an exception ends it. */
  function ScanUsers(w: Window, last: int, cur: int, us: seq<UserEvents>): (r: Scan)
    requires AllUsersWellFormed(us)
    ensures r.raised <==> !AllClean(w, last, cur, us)
    ensures !r.raised ==> r.sent == AllMessages(w, last, cur, us)
    decreases |us|
  {
    if |us| == 0 then Scan([], false)
    else
      var init, u := us[..|us| - 1], us[|us| - 1];
      UsersSnocFacts(w, last, cur, us);
      var p := ScanUsers(w, last, cur, init);
      if p.raised then p
      else
        var q := ScanEvents(w, last, cur, u.userId, u.events);
        Scan(p.sent + q.sent, q.raised)
  }

  lemma UsersSnocFacts(w: Window, last: int, cur: int, us: seq<UserEvents>)
    requires AllUsersWellFormed(us) && |us| > 0
    ensures AllUsersWellFormed(us[..|us| - 1])
    ensures AllClean(w, last, cur, us) <==>
      AllClean(w, last, cur, us[..|us| - 1]) && Clean(w, last, cur, us[|us| - 1].events)
    ensures AllMessages(w, last, cur, us)
      == AllMessages(w, last, cur, us[..|us| - 1])
         + Messages(us[|us| - 1].userId, DueEvents(w, last, cur, us[|us| - 1].events))
  {
    UsersCleanSnoc(w, last, cur, us);
  }

  lemma UsersCleanSnoc(w: Window, last: int, cur: int, us: seq<UserEvents>)
    requires AllUsersWellFormed(us) && |us| > 0
    ensures AllUsersWellFormed(us[..|us| - 1])
    ensures AllClean(w, last, cur, us) <==>
      AllClean(w, last, cur, us[..|us| - 1]) && Clean(w, last, cur, us[|us| - 1].events)
  {
    var init := us[..|us| - 1];
    assert forall i :: 0 <= i < |init| ==> init[i] == us[i];
  }

  /** The reminders a tick sends, and the new cursor; None when the iteration raised and the thread ended. */
  datatype TickResult = TickResult(sent: seq<Reminder>, cursor: Option<int>)

  /**
   * One iteration of `NotifySender.run` with the cursor `last` and the
   * clock reading `now`. When nothing raises, it sends every user's due
   * events and the cursor becomes `now + SLEEP_TIMEOUT`, whatever was sent.
   */
  function Tick(w: Window, last: int, now: int, us: seq<UserEvents>): (r: TickResult)
    requires AllUsersWellFormed(us)
    ensures r.cursor.Some? <==> AllClean(w, last, now + SleepTimeout, us)
    ensures r.cursor.Some? ==> r.cursor.value == now + SleepTimeout
    ensures r.cursor.Some? ==> r.sent == AllMessages(w, last, now + SleepTimeout, us)
  {
    var cur := now + SleepTimeout;
    var s := ScanUsers(w, last, cur, us);
    TickResult(s.sent, if s.raised then None else Some(cur))
  }

  /** Once a prefix of the users raises, the rest of them are never looked at. */
  lemma {:induction false} RaisedPrefix(w: Window, last: int, cur: int, us: seq<UserEvents>, i: nat)
    requires AllUsersWellFormed(us) && i <= |us|
    requires ScanUsers(w, last, cur, us[..i]).raised
    ensures ScanUsers(w, last, cur, us) == ScanUsers(w, last, cur, us[..i])
    decreases |us|
  {
    if i < |us| {
      var init := us[..|us| - 1];
      assert init[..i] == us[..i];
      RaisedPrefix(w, last, cur, init, i);
    } else {
      assert us[..i] == us;
    }
  }

  /** The loops of `NotifySender.run`, one iteration; it computes `Tick`. */
  method RunTick(w: Window, last: int, now: int, us: seq<UserEvents>) returns (sent: seq<Reminder>, cursor: Option<int>)
    requires AllUsersWellFormed(us)
    ensures TickResult(sent, cursor) == Tick(w, last, now, us)
  {
    var cur := now + SleepTimeout;
    sent := [];
    var i := 0;
    while i < |us|
      invariant 0 <= i <= |us|
      invariant ScanUsers(w, last, cur, us[..i]) == Scan(sent, false)
    {
      var mine, raised := ScanUser(w, last, cur, us[i].userId, us[i].events);
      UserStep(w, last, cur, us, i, sent);
      sent := sent + mine;
      if raised {
        RaisedPrefix(w, last, cur, us, i + 1);
        cursor := None;
        return;
      }
      i := i + 1;
    }
    assert us[..i] == us;
    cursor := Some(cur);
  }

  /** The inner loop over one user's events: it computes `ScanEvents`, stopping at the first event that raises. */
  method ScanUser(w: Window, last: int, cur: int, uid: int, es: seq<CalendarEvent>) returns (mine: seq<Reminder>, raised: bool)
    requires AllWellFormed(es)
    ensures Scan(mine, raised) == ScanEvents(w, last, cur, uid, es)
  {
    mine := [];
    var j := 0;
    while j < |es|
      invariant 0 <= j <= |es|
      invariant ScanEvents(w, last, cur, uid, es[..j]) == Scan(mine, false)
    {
      var c := CheckEvent(w, last, cur, es[j]);
      EventStep(w, last, cur, uid, es, j);
      if c.Raise? {
        ScanStopsAtRaise(w, last, cur, uid, es, j);
        raised := true;
        return;
      } else if c.Remind? {
        mine := mine + [Reminder(uid, c.text)];
      }
      j := j + 1;
    }
    assert es[..j] == es;
    raised := false;
  }

  /** One turn of the inner loop, in terms of `ScanEvents` on the longer prefix. */
  lemma EventStep(w: Window, last: int, cur: int, uid: int, es: seq<CalendarEvent>, j: nat)
    requires AllWellFormed(es) && j < |es|
    requires !ScanEvents(w, last, cur, uid, es[..j]).raised
    ensures var p, q := ScanEvents(w, last, cur, uid, es[..j]), ScanEvents(w, last, cur, uid, es[..j + 1]);
      match CheckEvent(w, last, cur, es[j])
      case Skip => q == p
      case Remind(t) => q == Scan(p.sent + [Reminder(uid, t)], false)
      case Raise => q == Scan(p.sent, true)
  {
    assert es[..j + 1][..j] == es[..j];
    assert es[..j + 1][j] == es[j];
  }

  /** One turn of the outer loop, in terms of `ScanUsers` on the longer prefix. */
  lemma UserStep(w: Window, last: int, cur: int, us: seq<UserEvents>, i: nat, sent: seq<Reminder>)
    requires AllUsersWellFormed(us) && i < |us|
    requires ScanUsers(w, last, cur, us[..i]) == Scan(sent, false)
    ensures var q := ScanEvents(w, last, cur, us[i].userId, us[i].events);
      ScanUsers(w, last, cur, us[..i + 1]) == Scan(sent + q.sent, q.raised)
  {
    assert us[..i + 1][..i] == us[..i];
    assert us[..i + 1][i] == us[i];
  }

  /** Events after the first one that raises are never looked at. */
  lemma {:induction false} ScanStopsAtRaise(w: Window, last: int, cur: int, uid: int, es: seq<CalendarEvent>, j: nat)
    requires AllWellFormed(es) && j < |es|
    requires !ScanEvents(w, last, cur, uid, es[..j]).raised
    requires CheckEvent(w, last, cur, es[j]).Raise?
    ensures ScanEvents(w, last, cur, uid, es) == Scan(ScanEvents(w, last, cur, uid, es[..j]).sent, true)
    decreases |es|
  {
    var init := es[..|es| - 1];
    if j < |init| {
      assert init[..j] == es[..j];
      assert init[j] == es[j];
      ScanStopsAtRaise(w, last, cur, uid, init, j);
    } else {
      assert init == es[..j];
    }
  }

  /** The reminders addressed to `uid`, in order. */
  function SentTo(ms: seq<Reminder>, uid: int): (r: seq<Reminder>)
    ensures forall m :: m in r <==> m in ms && m.userId == uid
    decreases |ms|
  {
    if |ms| == 0 then []
    else
      var init, m := ms[..|ms| - 1], ms[|ms| - 1];
      assert ms == init + [m];
      SentTo(init, uid) + (if m.userId == uid then [m] else [])
  }

  lemma {:induction false} SentToAppend(a: seq<Reminder>, b: seq<Reminder>, uid: int)
    ensures SentTo(a + b, uid) == SentTo(a, uid) + SentTo(b, uid)
    decreases |b|
  {
    if |b| > 0 {
      var binit := b[..|b| - 1];
      assert (a + b)[..|a + b| - 1] == a + binit;
      assert (a + b)[|a + b| - 1] == b[|b| - 1];
      SentToAppend(a, binit, uid);
    } else {
      assert a + b == a;
    }
  }

  lemma SentToMessages(uid: int, ds: seq<CalendarEvent>, to: int)
    requires forall k :: 0 <= k < |ds| ==> WellFormed(ds[k]) && Renderable(ds[k])
    ensures SentTo(Messages(uid, ds), to) == if uid == to then Messages(uid, ds) else []
  {
    SentToOneUser(Messages(uid, ds), uid, to);
  }

  /** Reminders all addressed to `uid` are all kept by the filter for `uid`, and none by any other. */
  lemma {:induction false} SentToOneUser(ms: seq<Reminder>, uid: int, to: int)
    requires forall k :: 0 <= k < |ms| ==> ms[k].userId == uid
    ensures SentTo(ms, to) == if uid == to then ms else []
    decreases |ms|
  {
    if |ms| > 0 {
      SentToOneUser(ms[..|ms| - 1], uid, to);
      SnocLast(ms);
    }
  }

  /** A non-empty sequence is its front followed by its last element. */
  lemma SnocLast<T>(s: seq<T>)
    requires |s| > 0
    ensures s[..|s| - 1] + [s[|s| - 1]] == s
  {
  }

  /** No two users share a chat id: the registry is a dictionary keyed by it. */
  predicate DistinctIds(us: seq<UserEvents>) {
    forall i, j :: 0 <= i < |us| && 0 <= j < |us| && us[i].userId == us[j].userId ==> i == j
  }

  /**
   * Each user gets exactly one reminder per due event of their own, in
   * order, and no reminder about another user's events.
   */
  lemma {:induction false} RemindersPerUser(w: Window, last: int, cur: int, us: seq<UserEvents>, i: nat)
    requires AllUsersWellFormed(us) && DistinctIds(us) && i < |us|
    ensures SentTo(AllMessages(w, last, cur, us), us[i].userId)
      == Messages(us[i].userId, DueEvents(w, last, cur, us[i].events))
    decreases |us|
  {
    if i < |us| - 1 {
      UsersSnocFacts(w, last, cur, us);
      DistinctIdsFront(us);
      RemindersPerUser(w, last, cur, us[..|us| - 1], i);
      RemindersEarlierUser(w, last, cur, us, i);
    } else {
      RemindersLastUser(w, last, cur, us);
    }
  }

  /** A user before the last gets what they got from the users before the last. */
  lemma RemindersEarlierUser(w: Window, last: int, cur: int, us: seq<UserEvents>, i: nat)
    requires AllUsersWellFormed(us) && DistinctIds(us) && i < |us| - 1
    requires SentTo(AllMessages(w, last, cur, us[..|us| - 1]), us[i].userId)
      == Messages(us[i].userId, DueEvents(w, last, cur, us[i].events))
    ensures SentTo(AllMessages(w, last, cur, us), us[i].userId)
      == Messages(us[i].userId, DueEvents(w, last, cur, us[i].events))
  {
    var init, u := us[..|us| - 1], us[|us| - 1];
    UsersSnocFacts(w, last, cur, us);
    DistinctIdsFront(us);
    SentToAppend(AllMessages(w, last, cur, init), Messages(u.userId, DueEvents(w, last, cur, u.events)), us[i].userId);
    SentToMessages(u.userId, DueEvents(w, last, cur, u.events), us[i].userId);
  }

  /** The last user gets exactly their own due reminders. */
  lemma RemindersLastUser(w: Window, last: int, cur: int, us: seq<UserEvents>)
    requires AllUsersWellFormed(us) && DistinctIds(us) && |us| > 0
    ensures SentTo(AllMessages(w, last, cur, us), us[|us| - 1].userId)
      == Messages(us[|us| - 1].userId, DueEvents(w, last, cur, us[|us| - 1].events))
  {
    var init, u := us[..|us| - 1], us[|us| - 1];
    UsersSnocFacts(w, last, cur, us);
    DistinctIdsFront(us);
    SentToAppend(AllMessages(w, last, cur, init), Messages(u.userId, DueEvents(w, last, cur, u.events)), u.userId);
    SentToMessages(u.userId, DueEvents(w, last, cur, u.events), u.userId);
    NoOneElse(w, last, cur, init, u.userId);
    var mine := Messages(u.userId, DueEvents(w, last, cur, u.events));
    assert SentTo(AllMessages(w, last, cur, us), u.userId) == [] + mine;
  }

  /** The users before the last have distinct ids, none of them the last user's. */
  lemma DistinctIdsFront(us: seq<UserEvents>)
    requires DistinctIds(us) && |us| > 0
    ensures DistinctIds(us[..|us| - 1])
    ensures forall k :: 0 <= k < |us| - 1 ==> us[k].userId != us[|us| - 1].userId
  {
    var init := us[..|us| - 1];
    assert forall k :: 0 <= k < |init| ==> init[k] == us[k];
  }

  /** Users with other ids contribute no reminder for `uid`. */
  lemma {:induction false} NoOneElse(w: Window, last: int, cur: int, us: seq<UserEvents>, uid: int)
    requires AllUsersWellFormed(us)
    requires forall k :: 0 <= k < |us| ==> us[k].userId != uid
    ensures SentTo(AllMessages(w, last, cur, us), uid) == []
    decreases |us|
  {
    if |us| > 0 {
      var init, u := us[..|us| - 1], us[|us| - 1];
      UsersSnocFacts(w, last, cur, us);
      assert forall k :: 0 <= k < |init| ==> init[k] == us[k];
      NoOneElse(w, last, cur, init, uid);
      SentToAppend(AllMessages(w, last, cur, init), Messages(u.userId, DueEvents(w, last, cur, u.events)), uid);
      SentToMessages(u.userId, DueEvents(w, last, cur, u.events), uid);
    }
  }

  /** Filtering for `m`'s addressee keeps every copy of `m`. */
  lemma {:induction false} SentToCount(ms: seq<Reminder>, m: Reminder)
    ensures multiset(SentTo(ms, m.userId))[m] == multiset(ms)[m]
    decreases |ms|
  {
    if |ms| > 0 {
      var init, x := ms[..|ms| - 1], ms[|ms| - 1];
      assert ms == init + [x];
      SentToCount(init, m);
    }
  }

  /**
   * `e` occurs once among `es`, and no other event of `es` would be
   * reminded with the same text: a reminder with that text is about `e`.
   */
  predicate OnlyOnce(es: seq<CalendarEvent>, e: CalendarEvent)
    requires AllWellFormed(es) && WellFormed(e) && Renderable(e)
  {
    multiset(es)[e] == 1 && TextNamesOnly(es, e)
  }

  /** Every event of `es` that would be reminded with `e`'s text is `e`. */
  predicate TextNamesOnly(es: seq<CalendarEvent>, e: CalendarEvent)
    requires AllWellFormed(es) && WellFormed(e) && Renderable(e)
  {
    forall k :: 0 <= k < |es| && Renderable(es[k]) && ReminderText(es[k]) == ReminderText(e) ==> es[k] == e
  }

  /** Both facts hold of the events before the last one, and the last one is `e` if it shares `e`'s text. */
  lemma TextNamesOnlySnoc(es: seq<CalendarEvent>, e: CalendarEvent)
    requires AllWellFormed(es) && |es| > 0 && WellFormed(e) && Renderable(e) && TextNamesOnly(es, e)
    ensures AllWellFormed(es[..|es| - 1]) && TextNamesOnly(es[..|es| - 1], e)
    ensures Renderable(es[|es| - 1]) && ReminderText(es[|es| - 1]) == ReminderText(e) ==> es[|es| - 1] == e
  {
    var init := es[..|es| - 1];
    assert forall k :: 0 <= k < |init| ==> init[k] == es[k];
  }

  /** The reminders with `e`'s text are one per copy of `e` when `e` is due, and none otherwise. */
  lemma {:induction false} DueTextCount(w: Window, last: int, cur: int, uid: int, es: seq<CalendarEvent>, e: CalendarEvent)
    requires AllWellFormed(es) && WellFormed(e) && Renderable(e) && TextNamesOnly(es, e)
    ensures multiset(Messages(uid, DueEvents(w, last, cur, es)))[Reminder(uid, ReminderText(e))]
         == if Due(w, last, cur, e) then multiset(es)[e] else 0
    decreases |es|
  {
    if |es| > 0 {
      var init := es[..|es| - 1];
      TextNamesOnlySnoc(es, e);
      DueTextCount(w, last, cur, uid, init, e);
      DueTextStep(w, last, cur, uid, es, e);
      MultisetLast(es, e);
    }
  }

  lemma MultisetLast<T>(s: seq<T>, y: T)
    requires |s| > 0
    ensures multiset(s)[y] == multiset(s[..|s| - 1])[y] + (if s[|s| - 1] == y then 1 else 0)
  {
    assert s == s[..|s| - 1] + [s[|s| - 1]];
  }

  /** The last event adds a reminder with `e`'s text exactly when it is `e` and `e` is due. */
  lemma DueTextStep(w: Window, last: int, cur: int, uid: int, es: seq<CalendarEvent>, e: CalendarEvent)
    requires AllWellFormed(es) && |es| > 0 && WellFormed(e) && Renderable(e)
    requires Renderable(es[|es| - 1]) && ReminderText(es[|es| - 1]) == ReminderText(e) ==> es[|es| - 1] == e
    ensures var m := Reminder(uid, ReminderText(e));
      multiset(Messages(uid, DueEvents(w, last, cur, es)))[m]
      == multiset(Messages(uid, DueEvents(w, last, cur, es[..|es| - 1])))[m]
         + (if es[|es| - 1] == e && Due(w, last, cur, e) then 1 else 0)
  {
    SnocFacts(w, last, cur, uid, es);
  }

  /** The users of one tick: `uid` is one of them, and `e` is once among their events. */
  predicate Tracks(us: seq<UserEvents>, uid: int, e: CalendarEvent)
    requires AllUsersWellFormed(us) && WellFormed(e) && Renderable(e)
  {
    exists i :: 0 <= i < |us| && us[i].userId == uid && OnlyOnce(us[i].events, e)
  }

  /**
   * Within one tick, a user gets exactly one reminder about an event of
   * theirs whose start lies in the window, and none about it otherwise.
   */
  lemma TickRemindsOnce(w: Window, last: int, cur: int, us: seq<UserEvents>, uid: int, e: CalendarEvent)
    requires AllUsersWellFormed(us) && DistinctIds(us) && WellFormed(e) && Renderable(e)
    requires Tracks(us, uid, e)
    ensures multiset(AllMessages(w, last, cur, us))[Reminder(uid, ReminderText(e))]
         == if InWindow(w, last, cur, InstantOf(StartTime(e).value)) then 1 else 0
  {
    var i :| 0 <= i < |us| && us[i].userId == uid && OnlyOnce(us[i].events, e);
    var m := Reminder(uid, ReminderText(e));
    RemindersPerUser(w, last, cur, us, i);
    SentToCount(AllMessages(w, last, cur, us), m);
    DueTextCount(w, last, cur, uid, us[i].events, e);
  }

  /**
   * What one tick's users must hold to count the reminders about `e`: the
   * ids are distinct; if `uid` is there, their events hold `e` at most once
   * and no other event with `e`'s reminder text; and when the window holds
   * `e`'s start, `uid` is there with `e`. Outside its window `e` need not
   * be among the events at all, as `get_tasks(last, current)` asks the
   * calendar only for the window.
   */
  predicate Watches(us: seq<UserEvents>, uid: int, e: CalendarEvent, inWindow: bool)
    requires AllUsersWellFormed(us) && WellFormed(e) && Renderable(e)
  {
    && DistinctIds(us)
    && (forall i :: 0 <= i < |us| && us[i].userId == uid ==>
          multiset(us[i].events)[e] <= 1 && TextNamesOnly(us[i].events, e))
    && (inWindow ==> Tracks(us, uid, e))
  }

  /**
   * Within one tick, a user gets one reminder about `e` when its start lies
   * in the window, and none otherwise, whether or not `e` is among the events.
   */
  lemma TickReminds(w: Window, last: int, cur: int, us: seq<UserEvents>, uid: int, e: CalendarEvent)
    requires AllUsersWellFormed(us) && WellFormed(e) && Renderable(e)
    requires Watches(us, uid, e, InWindow(w, last, cur, InstantOf(StartTime(e).value)))
    ensures multiset(AllMessages(w, last, cur, us))[Reminder(uid, ReminderText(e))]
         == if InWindow(w, last, cur, InstantOf(StartTime(e).value)) then 1 else 0
  {
    var m := Reminder(uid, ReminderText(e));
    SentToCount(AllMessages(w, last, cur, us), m);
    if InWindow(w, last, cur, InstantOf(StartTime(e).value)) {
      TickRemindsOnce(w, last, cur, us, uid, e);
    } else if i :| 0 <= i < |us| && us[i].userId == uid {
      RemindersPerUser(w, last, cur, us, i);
      DueTextCount(w, last, cur, uid, us[i].events, e);
    } else {
      NoOneElse(w, last, cur, us, uid);
    }
  }

  /** The reminder is two lines: the header, and the task string between '*'. */
  lemma ReminderLines(e: CalendarEvent)
    requires WellFormed(e) && Renderable(e) && '\n' !in e.summary.value
    ensures Split(ReminderText(e), '\n') == [ReminderHeader, "*" + TaskToString(e, false).value + "*"]
  {
    var t := TaskToString(e, false).value;
    TaskTextOneLine(e);
    var second := "*" + t + "*";
    assert ReminderText(e) == Join([ReminderHeader, second], '\n');
    SplitJoin([ReminderHeader, second], '\n');
  }

  // ---------------------------------------------------------------------
  // Successive ticks
  // ---------------------------------------------------------------------

  /**
   * The cursors of a run that never raises: the first is the clock at
   * start, and tick k, reading the clock `nows[k]`, moves it to
   * `nows[k] + SLEEP_TIMEOUT`.
   */
  function Cursors(start: int, nows: seq<int>): (cs: seq<int>)
    ensures |cs| == |nows| + 1 && cs[0] == start
    ensures forall k :: 0 <= k < |nows| ==> cs[k + 1] == nows[k] + SleepTimeout
  {
    [start] + seq(|nows|, k requires 0 <= k < |nows| => nows[k] + SleepTimeout)
  }

  /** Each tick reads the clock no earlier than the previous one plus the sleep. */
  predicate Paced(start: int, nows: seq<int>) {
    && (|nows| > 0 ==> start <= nows[0])
    && forall k :: 0 <= k < |nows| - 1 ==> nows[k] + SleepTimeout <= nows[k + 1]
  }

  predicate Increasing(cs: seq<int>) {
    forall k :: 0 <= k < |cs| - 1 ==> cs[k] < cs[k + 1]
  }

  /** A paced run moves its cursor forward by at least SLEEP_TIMEOUT each tick. */
  lemma PacedCursorsIncrease(start: int, nows: seq<int>)
    requires Paced(start, nows)
    ensures Increasing(Cursors(start, nows))
    ensures forall k :: 0 <= k < |nows| ==> Cursors(start, nows)[k] + SleepTimeout <= Cursors(start, nows)[k + 1]
  {
  }

  lemma {:induction false} IncreasingMonotone(cs: seq<int>, i: nat, j: nat)
    requires Increasing(cs) && i <= j < |cs|
    ensures cs[i] <= cs[j]
    decreases j - i
  {
    if i < j {
      IncreasingMonotone(cs, i + 1, j);
    }
  }

  /** How many of the windows (cs[k], cs[k+1]) contain the start `s`. */
  function TimesReminded(w: Window, cs: seq<int>, s: int): (n: nat)
    ensures n <= if |cs| == 0 then 0 else |cs| - 1
    decreases |cs|
  {
    if |cs| < 2 then 0
    else (if InWindow(w, cs[0], cs[1], s) then 1 else 0) + TimesReminded(w, cs[1..], s)
  }

  lemma {:induction false} NotRemindedBelow(w: Window, cs: seq<int>, s: int)
    requires Increasing(cs) && |cs| > 0 && s < cs[0]
    ensures TimesReminded(w, cs, s) == 0
    decreases |cs|
  {
    if |cs| >= 2 {
      NotRemindedBelow(w, cs[1..], s);
    }
  }

  /** With increasing cursors the windows are disjoint: no start is reminded in two ticks. */
  lemma {:induction false} AtMostOnce(w: Window, cs: seq<int>, s: int)
    requires Increasing(cs)
    ensures TimesReminded(w, cs, s) <= 1
    decreases |cs|
  {
    if |cs| >= 2 {
      if InWindow(w, cs[0], cs[1], s) {
        NotRemindedBelow(w, cs[1..], s);
      } else {
        AtMostOnce(w, cs[1..], s);
      }
    }
  }

  /** As written (strict lower bound): a start equal to a cursor lies in no window. */
  lemma {:induction false} CursorNeverReminded(cs: seq<int>, i: nat)
    requires Increasing(cs) && i < |cs|
    ensures TimesReminded(Open, cs, cs[i]) == 0
    decreases |cs|
  {
    if |cs| >= 2 {
      if i == 0 {
        NotRemindedBelow(Open, cs[1..], cs[0]);
      } else {
        IncreasingMonotone(cs, 1, i);
        CursorNeverReminded(cs[1..], i - 1);
      }
    }
  }

  /** Corrected (half-open windows): every start from the first cursor up to the last is reminded exactly once. */
  lemma {:induction false} HalfOpenRemindsOnce(cs: seq<int>, s: int)
    requires Increasing(cs) && |cs| >= 2 && cs[0] <= s < cs[|cs| - 1]
    ensures TimesReminded(HalfOpen, cs, s) == 1
    decreases |cs|
  {
    if s < cs[1] {
      if |cs| > 2 {
        NotRemindedBelow(HalfOpen, cs[1..], s);
      }
    } else {
      HalfOpenRemindsOnce(cs[1..], s);
    }
  }

  /**
   * A run that starts at 12:00:30 and reads the clock at 12:00:50 and
   * 12:01:00 has the cursor 12:01:00 in between; an event starting at 12:01
   * falls in neither window as written, and in exactly one when half-open.
   */
  lemma MissedAtCursor()
    ensures var s := InstantOf(DateTime(2024, 5, 1, 12, 1));
      var start, nows := s - 30_000_000, [s - 10_000_000, s];
      && Paced(start, nows)
      && s in Cursors(start, nows)
      && start < s < Cursors(start, nows)[2]
      && TimesReminded(Open, Cursors(start, nows), s) == 0
      && TimesReminded(HalfOpen, Cursors(start, nows), s) == 1
  {
    var s := InstantOf(DateTime(2024, 5, 1, 12, 1));
    var start, nows := s - 30_000_000, [s - 10_000_000, s];
    var cs := Cursors(start, nows);
    assert cs[1] == s;
    PacedCursorsIncrease(start, nows);
    CursorNeverReminded(cs, 1);
    HalfOpenRemindsOnce(cs, s);
  }

  /**
   * Within one tick, a well-formed event of a user is reminded to that user
   * exactly when its start lies in the window (and it has a summary).
   */
  lemma TickRemindsIff(w: Window, last: int, now: int, us: seq<UserEvents>, i: nat, e: CalendarEvent)
    requires AllUsersWellFormed(us) && DistinctIds(us) && i < |us|
    requires e in us[i].events && Renderable(e)
    requires AllClean(w, last, now + SleepTimeout, us)
    ensures var ds := DueEvents(w, last, now + SleepTimeout, us[i].events);
      && SentTo(Tick(w, last, now, us).sent, us[i].userId) == Messages(us[i].userId, ds)
      && (e in ds <==> InWindow(w, last, now + SleepTimeout, InstantOf(StartTime(e).value)))
  {
    RemindersPerUser(w, last, now + SleepTimeout, us, i);
  }

  // ---------------------------------------------------------------------
  // A run of the thread
  // ---------------------------------------------------------------------

  /** Every tick's users are well formed. */
  predicate AllTicksWellFormed(uss: seq<seq<UserEvents>>) {
    forall k :: 0 <= k < |uss| ==> AllUsersWellFormed(uss[k])
  }

  /** No tick of a run from the cursor `last` raises, each in its own window. */
  predicate AllTicksClean(w: Window, last: int, nows: seq<int>, uss: seq<seq<UserEvents>>)
    requires |uss| == |nows| && AllTicksWellFormed(uss)
  {
    forall k :: 0 <= k < |nows| ==> AllClean(w, Cursors(last, nows)[k], nows[k] + SleepTimeout, uss[k])
  }

  /** After the first tick, the rest of a run is a run from the cursor that tick returned. */
  lemma AllTicksCleanCons(w: Window, last: int, nows: seq<int>, uss: seq<seq<UserEvents>>)
    requires |uss| == |nows| && |nows| > 0 && AllTicksWellFormed(uss)
    ensures AllTicksWellFormed(uss[1..])
    ensures Cursors(last, nows)[1..] == Cursors(nows[0] + SleepTimeout, nows[1..])
    ensures AllTicksClean(w, last, nows, uss) <==>
      AllClean(w, last, nows[0] + SleepTimeout, uss[0]) && AllTicksClean(w, nows[0] + SleepTimeout, nows[1..], uss[1..])
  {
    TicksWellFormedRest(uss);
    CursorsTail(last, nows);
    if AllTicksClean(w, last, nows, uss) {
      LaterTicksClean(w, last, nows, uss);
    }
    if AllClean(w, last, nows[0] + SleepTimeout, uss[0]) && AllTicksClean(w, nows[0] + SleepTimeout, nows[1..], uss[1..]) {
      EveryTickClean(w, last, nows, uss);
    }
  }

  lemma TicksWellFormedRest(uss: seq<seq<UserEvents>>)
    requires |uss| > 0 && AllTicksWellFormed(uss)
    ensures AllTicksWellFormed(uss[1..])
  {
    assert forall k :: 0 <= k < |uss| - 1 ==> uss[1..][k] == uss[k + 1];
  }

  /** If no tick of a run raises, no tick after the first raises in the run from the second cursor. */
  lemma LaterTicksClean(w: Window, last: int, nows: seq<int>, uss: seq<seq<UserEvents>>)
    requires |uss| == |nows| && |nows| > 0 && AllTicksWellFormed(uss) && AllTicksWellFormed(uss[1..])
    requires AllTicksClean(w, last, nows, uss)
    ensures AllTicksClean(w, nows[0] + SleepTimeout, nows[1..], uss[1..])
  {
    var cs, rest := Cursors(last, nows), Cursors(nows[0] + SleepTimeout, nows[1..]);
    CursorsTail(last, nows);
    forall k | 0 <= k < |nows| - 1
      ensures AllClean(w, rest[k], nows[1..][k] + SleepTimeout, uss[1..][k])
    {
      assert rest[k] == cs[k + 1] && nows[1..][k] == nows[k + 1] && uss[1..][k] == uss[k + 1];
    }
  }

  /** If the first tick and the run from its cursor raise nothing, no tick of the whole run raises. */
  lemma EveryTickClean(w: Window, last: int, nows: seq<int>, uss: seq<seq<UserEvents>>)
    requires |uss| == |nows| && |nows| > 0 && AllTicksWellFormed(uss) && AllTicksWellFormed(uss[1..])
    requires AllClean(w, last, nows[0] + SleepTimeout, uss[0])
    requires AllTicksClean(w, nows[0] + SleepTimeout, nows[1..], uss[1..])
    ensures AllTicksClean(w, last, nows, uss)
  {
    var cs, rest := Cursors(last, nows), Cursors(nows[0] + SleepTimeout, nows[1..]);
    CursorsTail(last, nows);
    forall k | 0 <= k < |nows|
      ensures AllClean(w, cs[k], nows[k] + SleepTimeout, uss[k])
    {
      if k > 0 {
        assert cs[k] == rest[k - 1] && nows[k] == nows[1..][k - 1] && uss[k] == uss[1..][k - 1];
      }
    }
  }

  /** Dropping the first cursor leaves the cursors of the run from the second. */
  lemma CursorsTail(last: int, nows: seq<int>)
    requires |nows| > 0
    ensures Cursors(last, nows)[0] == last
    ensures Cursors(last, nows)[1..] == Cursors(nows[0] + SleepTimeout, nows[1..])
  {
    var cs, rest := Cursors(last, nows), Cursors(nows[0] + SleepTimeout, nows[1..]);
    assert forall k :: 0 <= k < |rest| ==> cs[1..][k] == rest[k];
  }

  /**
   * `NotifySender.run` from the cursor `last`: tick k reads the clock
   * `nows[k]`, sees the users `uss[k]` and starts from the cursor tick
   * k - 1 returned. The reminders of all ticks are sent in order; the run
   * ends at the first tick that raises. A run that does not raise moves
   * the cursor along `Cursors(last, nows)`.
   */
  function Run(w: Window, last: int, nows: seq<int>, uss: seq<seq<UserEvents>>): (r: TickResult)
    requires |uss| == |nows| && AllTicksWellFormed(uss)
    ensures r.cursor.Some? <==> AllTicksClean(w, last, nows, uss)
    ensures r.cursor.Some? ==> r.cursor.value == Cursors(last, nows)[|nows|]
    decreases |nows|
  {
    if |nows| == 0 then TickResult([], Some(last))
    else
      AllTicksCleanCons(w, last, nows, uss);
      var t := Tick(w, last, nows[0], uss[0]);
      match t.cursor
      case None => t
      case Some(c) =>
        var r := Run(w, c, nows[1..], uss[1..]);
        TickResult(t.sent + r.sent, r.cursor)
  }

  /** Every tick of the run `Watches` `e` for `uid`, in that tick's own window. */
  predicate WatchedThroughout(w: Window, last: int, nows: seq<int>, uss: seq<seq<UserEvents>>, uid: int, e: CalendarEvent)
    requires |uss| == |nows| && AllTicksWellFormed(uss) && WellFormed(e) && Renderable(e)
  {
    forall k :: 0 <= k < |nows| ==>
      Watches(uss[k], uid, e, InWindow(w, Cursors(last, nows)[k], nows[k] + SleepTimeout, InstantOf(StartTime(e).value)))
  }

  /**
   * Over a run that does not raise, a user gets exactly as many reminders
   * about an event of theirs as there are windows between consecutive
   * cursors that contain its start.
   */
  lemma {:induction false} RunReminders(w: Window, last: int, nows: seq<int>, uss: seq<seq<UserEvents>>, uid: int, e: CalendarEvent)
    requires |uss| == |nows| && AllTicksWellFormed(uss) && WellFormed(e) && Renderable(e)
    requires WatchedThroughout(w, last, nows, uss, uid, e)
    requires AllTicksClean(w, last, nows, uss)
    ensures multiset(Run(w, last, nows, uss).sent)[Reminder(uid, ReminderText(e))]
         == TimesReminded(w, Cursors(last, nows), InstantOf(StartTime(e).value))
    decreases |nows|
  {
    if |nows| > 0 {
      var c, m, s := nows[0] + SleepTimeout, Reminder(uid, ReminderText(e)), InstantOf(StartTime(e).value);
      RunFirstTick(w, last, nows, uss);
      WatchedRest(w, last, nows, uss, uid, e);
      TickReminds(w, last, c, uss[0], uid, e);
      RunReminders(w, c, nows[1..], uss[1..], uid, e);
      var first, rest := Tick(w, last, nows[0], uss[0]).sent, Run(w, c, nows[1..], uss[1..]).sent;
      assert multiset(first + rest)[m] == multiset(first)[m] + multiset(rest)[m];
      var cs := Cursors(last, nows);
      assert TimesReminded(w, cs, s) == (if InWindow(w, cs[0], cs[1], s) then 1 else 0) + TimesReminded(w, cs[1..], s);
    }
  }

  /** A run that does not raise is its first tick, which does not raise, followed by the run from its cursor. */
  lemma RunFirstTick(w: Window, last: int, nows: seq<int>, uss: seq<seq<UserEvents>>)
    requires |uss| == |nows| && |nows| > 0 && AllTicksWellFormed(uss)
    requires AllTicksClean(w, last, nows, uss)
    ensures AllTicksWellFormed(uss[1..])
    ensures Cursors(last, nows)[1..] == Cursors(nows[0] + SleepTimeout, nows[1..])
    ensures var t, c := Tick(w, last, nows[0], uss[0]), nows[0] + SleepTimeout;
      && t.cursor == Some(c)
      && t.sent == AllMessages(w, last, c, uss[0])
      && AllTicksClean(w, c, nows[1..], uss[1..])
      && Run(w, last, nows, uss).sent == t.sent + Run(w, c, nows[1..], uss[1..]).sent
  {
    AllTicksCleanCons(w, last, nows, uss);
  }

  /**
   * A run in which `uid`'s calendar returns `e` only in the tick whose window
   * holds its start, and nothing in the other ticks, is watched throughout.
   */
  lemma FetchedOnlyInWindow(w: Window, last: int, nows: seq<int>, uss: seq<seq<UserEvents>>, uid: int, e: CalendarEvent)
    requires |uss| == |nows| && WellFormed(e) && Renderable(e)
    requires forall k :: 0 <= k < |nows| ==>
      uss[k] == [UserEvents(uid, if InWindow(w, Cursors(last, nows)[k], nows[k] + SleepTimeout, InstantOf(StartTime(e).value)) then [e] else [])]
    ensures AllTicksWellFormed(uss) && WatchedThroughout(w, last, nows, uss, uid, e)
  {
    forall k | 0 <= k < |nows|
      ensures AllUsersWellFormed(uss[k])
      ensures Watches(uss[k], uid, e, InWindow(w, Cursors(last, nows)[k], nows[k] + SleepTimeout, InstantOf(StartTime(e).value)))
    {
      OneUserWatches(uid, e, InWindow(w, Cursors(last, nows)[k], nows[k] + SleepTimeout, InstantOf(StartTime(e).value)));
    }
  }

  /** One user whose events are `e` inside its window and nothing outside watches `e`. */
  lemma OneUserWatches(uid: int, e: CalendarEvent, inWindow: bool)
    requires WellFormed(e) && Renderable(e)
    ensures var us := [UserEvents(uid, if inWindow then [e] else [])];
      AllUsersWellFormed(us) && Watches(us, uid, e, inWindow)
  {
    var us := [UserEvents(uid, if inWindow then [e] else [])];
    if inWindow {
      assert multiset([e])[e] == 1;
      assert us[0].userId == uid && OnlyOnce(us[0].events, e);
    }
  }

  /** The first tick watches `e` in its window, and the rest of the run from its cursor does too. */
  lemma WatchedRest(w: Window, last: int, nows: seq<int>, uss: seq<seq<UserEvents>>, uid: int, e: CalendarEvent)
    requires |uss| == |nows| && |nows| > 0 && AllTicksWellFormed(uss) && WellFormed(e) && Renderable(e)
    requires WatchedThroughout(w, last, nows, uss, uid, e)
    ensures Watches(uss[0], uid, e, InWindow(w, last, nows[0] + SleepTimeout, InstantOf(StartTime(e).value)))
    ensures AllTicksWellFormed(uss[1..]) && WatchedThroughout(w, nows[0] + SleepTimeout, nows[1..], uss[1..], uid, e)
  {
    var c, s := nows[0] + SleepTimeout, InstantOf(StartTime(e).value);
    CursorsTail(last, nows);
    TicksWellFormedRest(uss);
    forall k | 0 <= k < |nows| - 1
      ensures Watches(uss[1..][k], uid, e, InWindow(w, Cursors(c, nows[1..])[k], nows[1..][k] + SleepTimeout, s))
    {
      assert uss[1..][k] == uss[k + 1] && nows[1..][k] == nows[k + 1];
      assert Cursors(c, nows[1..])[k] == Cursors(last, nows)[1..][k];
    }
  }

  /** With a paced clock, no user is reminded twice about an event over a whole run. */
  lemma RunRemindsAtMostOnce(w: Window, start: int, nows: seq<int>, uss: seq<seq<UserEvents>>, uid: int, e: CalendarEvent)
    requires |uss| == |nows| && AllTicksWellFormed(uss) && WellFormed(e) && Renderable(e)
    requires WatchedThroughout(w, start, nows, uss, uid, e) && Paced(start, nows)
    requires AllTicksClean(w, start, nows, uss)
    ensures multiset(Run(w, start, nows, uss).sent)[Reminder(uid, ReminderText(e))] <= 1
  {
    RunReminders(w, start, nows, uss, uid, e);
    PacedCursorsIncrease(start, nows);
    AtMostOnce(w, Cursors(start, nows), InstantOf(StartTime(e).value));
  }

  /** As written: an event that starts exactly at one of the run's cursors is never reminded. */
  lemma RunMissesCursorStart(start: int, nows: seq<int>, uss: seq<seq<UserEvents>>, uid: int, e: CalendarEvent, j: nat)
    requires |uss| == |nows| && AllTicksWellFormed(uss) && WellFormed(e) && Renderable(e)
    requires WatchedThroughout(Open, start, nows, uss, uid, e) && Paced(start, nows)
    requires AllTicksClean(Open, start, nows, uss)
    requires j <= |nows| && InstantOf(StartTime(e).value) == Cursors(start, nows)[j]
    ensures multiset(Run(Open, start, nows, uss).sent)[Reminder(uid, ReminderText(e))] == 0
  {
    RunReminders(Open, start, nows, uss, uid, e);
    PacedCursorsIncrease(start, nows);
    CursorNeverReminded(Cursors(start, nows), j);
  }

  /**
   * Corrected: with half-open windows, an event starting from the run's
   * first cursor up to its last is reminded exactly once.
   */
  lemma RunHalfOpenRemindsOnce(start: int, nows: seq<int>, uss: seq<seq<UserEvents>>, uid: int, e: CalendarEvent)
    requires |uss| == |nows| && AllTicksWellFormed(uss) && WellFormed(e) && Renderable(e)
    requires WatchedThroughout(HalfOpen, start, nows, uss, uid, e) && Paced(start, nows)
    requires AllTicksClean(HalfOpen, start, nows, uss)
    requires |nows| > 0 && start <= InstantOf(StartTime(e).value) < Cursors(start, nows)[|nows|]
    ensures multiset(Run(HalfOpen, start, nows, uss).sent)[Reminder(uid, ReminderText(e))] == 1
  {
    RunReminders(HalfOpen, start, nows, uss, uid, e);
    PacedCursorsIncrease(start, nows);
    HalfOpenRemindsOnce(Cursors(start, nows), InstantOf(StartTime(e).value));
  }
}
