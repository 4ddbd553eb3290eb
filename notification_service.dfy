/** The parts of services/notification_service.py that are not window
    plumbing: the overdue check over the stored tasks, the days-overdue and
    priority-colour helpers, and the once-an-hour throttle on the `last_check`
    field. The clock is passed in as `now` or `today`. */
module Notifications {
  import opened Wrappers
  import opened Errors
  import opened Dates
  import opened Models
  import opened Seqs
  import opened Service

  // ---- check_overdue_tasks ----

  /** The test check_overdue_tasks applies: not COMPLETED and overdue. The `and`
      stops at a completed task, so its due date is never parsed. */
  function OpenAndOverdue(t: Task, now: Moment): Result<bool, Error> {
    if t.status == Completed then Success(false) else IsOverdue(t, now)
  }

  function OpenAndOverdueTest(now: Moment): Task -> Result<bool, Error> {
    (t: Task) => OpenAndOverdue(t, now)
  }

  /** The status test is redundant, since is_overdue is already false for a
      completed task: check_overdue_tasks and get_overdue return the same list
      and raise the same exception. */
  lemma CheckOverdueIsGetOverdue(tasks: seq<Task>, now: Moment)
    ensures FilterOk(tasks, OpenAndOverdueTest(now)) == Overdue(tasks, now)
  {
    FilterOkSame(tasks, OpenAndOverdueTest(now), OverdueTest(now));
  }

  // ---- _calculate_days_overdue ----

  /** `_calculate_days_overdue(due_date)` on the day `today`: the whole days from
      the due day to today, never negative, and 0 for a date strptime refuses. */
  function DaysOverdue(dueDate: string, today: CalendarDate): (r: nat) {
    match ParseDMY(dueDate)
    case None => 0
    case Some(due) => if Ordinal(today) - Ordinal(due) > 0 then Ordinal(today) - Ordinal(due) else 0
  }

  /** The count is positive exactly for a due day before today, and then going
      forward that many days from the due day lands on today. */
  lemma DaysOverdueSpec(dueDate: string, today: CalendarDate)
    ensures ParseDMY(dueDate).None? ==> DaysOverdue(dueDate, today) == 0
    ensures forall due | ParseDMY(dueDate) == Some(due) ::
              && (DaysOverdue(dueDate, today) > 0 <==> Precedes(due, today))
              && (Precedes(due, today) ==> AddDays(due, DaysOverdue(dueDate, today)) == Some(today))
  {
    match ParseDMY(dueDate)
    case None =>
    case Some(due) =>
      OrdinalOrderIff(due, today);
      OrdinalBounds(today);
      var n := DaysOverdue(dueDate, today);
      if Precedes(due, today) {
        var day := AddDays(due, n).value;
        OrdinalOrderIff(day, today);
      }
  }

  /** A task the check reports has a count of 0 exactly when it is due today, so
      the count is one less than the number of midnights it has been overdue. */
  lemma DaysOverdueOfOverdueTask(t: Task, now: Moment)
    requires OpenAndOverdue(t, now) == Success(true)
    ensures ParseDMY(t.dueDate).Some?
    ensures DaysOverdue(t.dueDate, now.date) == 0 <==> ParseDMY(t.dueDate) == Some(now.date)
  {
    IsOverdueIff(t, now);
    DaysOverdueSpec(t.dueDate, now.date);
    var due := ParseDMY(t.dueDate).value;
    OrdinalOrderIff(due, now.date);
  }

  // ---- _get_priority_color ----

  const Colors: map<string, string> := map["высокий" := "red", "средний" := "orange", "низкий" := "yellow"]

  /** `_get_priority_color(priority)`: the colour table with black for any other token. */
  function PriorityColor(priority: string): string {
    if priority in Colors then Colors[priority] else "black"
  }

  /** HIGH, MEDIUM and LOW are red, orange and yellow; CANCELLED, like every
      token outside the table, is black; the three colours differ and none is black. */
  lemma PriorityColorSpec(priority: string)
    ensures PriorityColor(PriorityValue(High)) == "red"
    ensures PriorityColor(PriorityValue(Medium)) == "orange"
    ensures PriorityColor(PriorityValue(Low)) == "yellow"
    ensures PriorityColor(PriorityValue(Cancelled)) == "black"
    ensures PriorityColor(priority) != "black" <==>
              priority in {PriorityValue(High), PriorityValue(Medium), PriorityValue(Low)}
    ensures forall p, q: Priority | p != q && p != Cancelled && q != Cancelled ::
              PriorityColor(PriorityValue(p)) != PriorityColor(PriorityValue(q))
  {
    assert PriorityValue(Cancelled) !in Colors;
  }

  // ---- should_show_notification ----

  const MicrosPerHour := 3_600_000_000

  /** `(now - last).seconds`: timedelta keeps whole days apart, and its seconds
      component is the seconds of the difference modulo a day; a clock that went
      back makes the days negative and the seconds large. */
  function SecondsField(last: Moment, now: Moment): (r: int)
    ensures 0 <= r < SecondsPerDay
  {
    ((Timestamp(now) - Timestamp(last)) / MicrosPerSecond) % SecondsPerDay
  }

  /** The condition of should_show_notification before it updates `last_check`. */
  predicate ShouldShow(last: Option<Moment>, now: Moment) {
    last.None? || SecondsField(last.value, now) >= 3600
  }

  /** floor(floor(x / a) / b) == floor(x / (a * b)) for positive a and b, in the
      form needed here. */
  lemma SecondsFieldFromMicros(delta: int)
    ensures (delta / MicrosPerSecond) % SecondsPerDay >= 3600 <==> delta % MicrosPerDay >= MicrosPerHour
  {
    var q := delta / MicrosPerSecond;
    var u := delta % MicrosPerSecond;
    assert delta == q * MicrosPerSecond + u && 0 <= u < MicrosPerSecond;
    var m := q / SecondsPerDay;
    var sec := q % SecondsPerDay;
    assert q == m * SecondsPerDay + sec && 0 <= sec < SecondsPerDay;
    assert delta == m * MicrosPerDay + (sec * MicrosPerSecond + u);
    assert 0 <= sec * MicrosPerSecond + u < MicrosPerDay;
    assert delta % MicrosPerDay == sec * MicrosPerSecond + u by {
      DivModUnique(delta, MicrosPerDay, m, sec * MicrosPerSecond + u);
    }
  }

  /** After a first check the notification shows again exactly when the time
      since the last check, once whole days are taken off, is at least an hour. */
  lemma ShouldShowIff(last: Option<Moment>, now: Moment)
    ensures last.None? ==> ShouldShow(last, now)
    ensures last.Some? ==>
              (ShouldShow(last, now) <==> (Timestamp(now) - Timestamp(last.value)) % MicrosPerDay >= MicrosPerHour)
  {
    if last.Some? {
      SecondsFieldFromMicros(Timestamp(now) - Timestamp(last.value));
    }
  }

  /** Consequences of measuring only within a day: less than an hour later it
      stays quiet, an hour to a day later it shows, a day and under an hour
      later it stays quiet again, and a clock set back by a microsecond shows. */
  lemma ShouldShowCases(last: Moment, now: Moment)
    ensures 0 <= Timestamp(now) - Timestamp(last) < MicrosPerHour ==> !ShouldShow(Some(last), now)
    ensures MicrosPerHour <= Timestamp(now) - Timestamp(last) < MicrosPerDay ==> ShouldShow(Some(last), now)
    ensures MicrosPerDay <= Timestamp(now) - Timestamp(last) < MicrosPerDay + MicrosPerHour ==> !ShouldShow(Some(last), now)
    ensures Timestamp(now) == Timestamp(last) - 1 ==> ShouldShow(Some(last), now)
  {
    var delta := Timestamp(now) - Timestamp(last);
    ShouldShowIff(Some(last), now);
    if 0 <= delta < MicrosPerDay {
      DivModUnique(delta, MicrosPerDay, 0, delta);
    } else if MicrosPerDay <= delta < MicrosPerDay + MicrosPerHour {
      DivModUnique(delta, MicrosPerDay, 1, delta - MicrosPerDay);
    } else if delta == -1 {
      DivModUnique(delta, MicrosPerDay, -1, MicrosPerDay - 1);
    }
  }

  /** A check that has just shown does not show again at the same moment. */
  lemma NoRepeatAtSameMoment(now: Moment)
    ensures !ShouldShow(Some(now), now)
  {
    ShouldShowCases(now, now);
  }

  class NotificationService {
    const taskService: TaskService
    /** The moment of the last check that showed, None before the first. */
    var lastCheck: Option<Moment>

    constructor(taskService: TaskService)
      ensures this.taskService == taskService && lastCheck == None
    {
      this.taskService := taskService;
      lastCheck := None;
    }

    /** check_overdue_tasks: the stored tasks, in their order, that are not
        COMPLETED and are overdue at `now`; the first unparsable due date of an
        open task raises. It agrees with get_overdue, and CheckOverdueSpec says
        what that list holds. */
    method CheckOverdueTasks(now: Moment) returns (r: Result<seq<Task>, Error>)
      requires taskService.Valid()
      ensures r == FilterOk(taskService.db.rows, OpenAndOverdueTest(now))
      ensures r == Overdue(taskService.db.rows, now)
    {
      var all := taskService.GetAllTasks();
      ghost var p := OpenAndOverdueTest(now);
      var overdue: seq<Task> := [];
      var k := 0;
      while k < |all|
        invariant 0 <= k <= |all|
        invariant FilterOk(all[..k], p) == Success(overdue)
      {
        var task := all[k];
        var keep := false;
        if task.status != Completed {
          var o := IsOverdue(task, now);
          if o.Failure? {
            assert p(task) == o;
            FilterOkStopsAt(all, p, k);
            CheckOverdueIsGetOverdue(all, now);
            return Failure(o.error);
          }
          keep := o.value;
        }
        assert p(task) == Success(keep);
        FilterOkExtend(all, p, k, overdue);
        if keep {
          overdue := overdue + [task];
        }
        k := k + 1;
      }
      assert all[..k] == all;
      CheckOverdueIsGetOverdue(all, now);
      r := Success(overdue);
    }

    /** should_show_notification at `now`: shows on the first call and then
        whenever the seconds component of the time since the last shown check
        is at least an hour, recording `now`; otherwise it changes nothing. */
    method ShouldShowNotification(now: Moment) returns (show: bool)
      modifies this
      ensures show == ShouldShow(old(lastCheck), now)
      ensures show ==> lastCheck == Some(now)
      ensures !show ==> lastCheck == old(lastCheck)
    {
      if lastCheck.None? || SecondsField(lastCheck.value, now) >= 3600 {
        lastCheck := Some(now);
        return true;
      }
      return false;
    }
  }

  /** What the overdue check returns, stated on the tasks: the exception exactly
      when an open task's due date is unparsable, otherwise the open overdue
      tasks in their order. */
  lemma CheckOverdueSpec(tasks: seq<Task>, now: Moment)
    ensures FilterOk(tasks, OpenAndOverdueTest(now)) == Overdue(tasks, now)
    ensures Overdue(tasks, now).Success? <==>
              forall i | 0 <= i < |tasks| :: tasks[i].status == Completed || ParseDMY(tasks[i].dueDate).Some?
    ensures Overdue(tasks, now).Success? ==>
              && IsSubsequence(Overdue(tasks, now).value, tasks)
              && forall t :: t in Overdue(tasks, now).value <==>
                   t in tasks && t.status != Completed && IsOverdue(t, now) == Success(true)
  {
    CheckOverdueIsGetOverdue(tasks, now);
    OverdueSpec(tasks, now);
    forall i | 0 <= i < |tasks|
      ensures IsOverdue(tasks[i], now).Success? <==> tasks[i].status == Completed || ParseDMY(tasks[i].dueDate).Some?
    {
      IsOverdueIff(tasks[i], now);
    }
  }
}
