/** services/task_service.py: the task lifecycle (create, update, complete,
    change status, mark a reminder, delete, process reminders) over a Database,
    and the read side (reminders, overdue tasks, search, filter, sort) as pure
    sequence transformations. The clock is passed in as `today` or `now`. */
module Service {
  import opened Wrappers
  import opened Errors
  import opened Dates
  import opened Text
  import opened Models
  import opened Storage
  import opened Seqs
  import opened Sorting

  // ---- create_task ----

  /** The reminder date create_task computes: none when `reminder_days` is None
      or 0, otherwise the due date moved back by that many days, which raises
      OverflowError when it leaves the calendar. */
  function ReminderFor(due: CalendarDate, reminderDays: Option<int>): Result<Option<string>, Error> {
    if reminderDays.None? || reminderDays.value == 0 then Success(None)
    else match AddDays(due, -reminderDays.value)
      case None => Failure(DateOverflow)
      case Some(day) => Success(Some(FormatDMY(day)))
  }

  /** The record create_task inserts, or the exception it raises first: a blank
      title, then an unparsable due date, then a reminder date off the calendar. */
  function NewTask(title: string, description: string, priority: Priority, dueDate: string,
                   reminderDays: Option<int>, today: CalendarDate): Result<Task, Error> {
    if Strip(title) == [] then Failure(EmptyTitle)
    else match ParseDMY(dueDate)
      case None => Failure(BadDateFormat)
      case Some(due) =>
        var reminder :- ReminderFor(due, reminderDays);
        Success(Task(0, Strip(title), Strip(description), priority, Planned, FormatDMY(today),
                     dueDate, None, reminder, false))
  }

  /** create_task raises for a blank title first, then for a due date that
      does not parse, then for a reminder date off the calendar. */
  lemma NewTaskErrors(title: string, description: string, priority: Priority, dueDate: string,
                      reminderDays: Option<int>, today: CalendarDate)
    ensures IsBlank(title) ==> NewTask(title, description, priority, dueDate, reminderDays, today) == Failure(EmptyTitle)
    ensures !IsBlank(title) && ParseDMY(dueDate).None? ==>
              NewTask(title, description, priority, dueDate, reminderDays, today) == Failure(BadDateFormat)
    ensures !IsBlank(title) && ParseDMY(dueDate).Some? ==>
              (NewTask(title, description, priority, dueDate, reminderDays, today) == Failure(DateOverflow) <==>
                 reminderDays.Some? && reminderDays.value != 0 && AddDays(ParseDMY(dueDate).value, -reminderDays.value).None?)
    ensures NewTask(title, description, priority, dueDate, reminderDays, today).Failure? ==>
              NewTask(title, description, priority, dueDate, reminderDays, today).error in {EmptyTitle, BadDateFormat, DateOverflow}
  {
    StripIsEmptyIffBlank(title);
  }

  /** The record create_task builds is PLANNED, has the stripped title and
      description, was created today, is not completed and has an unsent
      reminder, and has a reminder date only for a non-zero `reminder_days`. */
  lemma NewTaskRecord(title: string, description: string, priority: Priority, dueDate: string,
                      reminderDays: Option<int>, today: CalendarDate)
    requires NewTask(title, description, priority, dueDate, reminderDays, today).Success?
    ensures var t := NewTask(title, description, priority, dueDate, reminderDays, today).value;
            && !IsBlank(title) && ParseDMY(dueDate).Some?
            && t.title == Strip(title) && t.title != [] && t.description == Strip(description)
            && t.priority == priority && t.status == Planned && t.dueDate == dueDate
            && ParseDMY(t.createdDate) == Some(today)
            && t.completedDate == None && !t.reminderSent
            && (reminderDays.None? || reminderDays.value == 0 <==> t.reminderDate == None)
  {
    NewTaskShape(title, description, priority, dueDate, reminderDays, today);
    StripIsEmptyIffBlank(title);
    ParseFormatDMY(today);
  }

  /** An accepted creation passed all three checks and built its record from them. */
  lemma NewTaskShape(title: string, description: string, priority: Priority, dueDate: string,
                     reminderDays: Option<int>, today: CalendarDate)
    requires NewTask(title, description, priority, dueDate, reminderDays, today).Success?
    ensures Strip(title) != [] && ParseDMY(dueDate).Some?
    ensures ReminderFor(ParseDMY(dueDate).value, reminderDays).Success?
    ensures NewTask(title, description, priority, dueDate, reminderDays, today).value
            == Task(0, Strip(title), Strip(description), priority, Planned, FormatDMY(today),
                    dueDate, None, ReminderFor(ParseDMY(dueDate).value, reminderDays).value, false)
    ensures reminderDays.None? || reminderDays.value == 0 <==>
              ReminderFor(ParseDMY(dueDate).value, reminderDays).value == None
  {
    var due := ParseDMY(dueDate).value;
    var reminder := ReminderFor(due, reminderDays);
    assert Strip(title) != [] && reminder.Success?;
    assert NewTask(title, description, priority, dueDate, reminderDays, today)
           == Success(Task(0, Strip(title), Strip(description), priority, Planned, FormatDMY(today),
                           dueDate, None, reminder.value, false));
    ReminderForNone(due, reminderDays);
  }

  /** No reminder date exactly when reminder_days is absent or 0. */
  lemma ReminderForNone(due: CalendarDate, reminderDays: Option<int>)
    requires ReminderFor(due, reminderDays).Success?
    ensures reminderDays.None? || reminderDays.value == 0 <==> ReminderFor(due, reminderDays).value == None
  {
    if reminderDays.Some? && reminderDays.value != 0 {
      var day := AddDays(due, -reminderDays.value).value;
      assert ReminderFor(due, reminderDays) == Success(Some(FormatDMY(day)));
    }
  }

  /** A reminder date, when there is one, reads back as the day exactly
      `reminder_days` days before the due date. */
  lemma NewTaskReminder(title: string, description: string, priority: Priority, dueDate: string,
                        reminderDays: Option<int>, today: CalendarDate)
    requires NewTask(title, description, priority, dueDate, reminderDays, today).Success?
    requires NewTask(title, description, priority, dueDate, reminderDays, today).value.reminderDate.Some?
    ensures var t := NewTask(title, description, priority, dueDate, reminderDays, today).value;
            && reminderDays.Some? && ParseDMY(t.reminderDate.value).Some? && ParseDMY(dueDate).Some?
            && Ordinal(ParseDMY(t.reminderDate.value).value) == Ordinal(ParseDMY(dueDate).value) - reminderDays.value
  {
    var due := ParseDMY(dueDate).value;
    assert NewTask(title, description, priority, dueDate, reminderDays, today).value.reminderDate
           == ReminderFor(due, reminderDays).value;
    ReminderForDay(due, reminderDays);
  }

  /** A reminder date ReminderFor sets reads back as the day `reminder_days`
      days before the due day. */
  lemma ReminderForDay(due: CalendarDate, reminderDays: Option<int>)
    requires ReminderFor(due, reminderDays).Success? && ReminderFor(due, reminderDays).value.Some?
    ensures reminderDays.Some? && ParseDMY(ReminderFor(due, reminderDays).value.value).Some?
    ensures Ordinal(ParseDMY(ReminderFor(due, reminderDays).value.value).value) == Ordinal(due) - reminderDays.value
  {
    var day := AddDays(due, -reminderDays.value).value;
    ParseFormatDMY(day);
  }

  // ---- Row updates made by the lifecycle operations ----

  /** complete_task's change: COMPLETED, completed today (any earlier date is overwritten). */
  function CompletedOn(t: Task, today: CalendarDate): Task {
    t.(status := Completed, completedDate := Some(FormatDMY(today)))
  }

  /** change_status's change: the new status; a completion date is set to today
      only when completing a task that has none, and cleared for any other status. */
  function WithStatus(t: Task, status: Status, today: CalendarDate): Task {
    var completed :=
      if status == Completed && !Present(t.completedDate) then Some(FormatDMY(today))
      else if status != Completed then None
      else t.completedDate;
    t.(status := status, completedDate := completed)
  }

  /** Both completion paths leave "completion date present exactly when
      COMPLETED" true; complete_task always writes today, change_status keeps a
      completion date that is already there; neither touches other fields. */
  lemma CompletionInvariant(t: Task, status: Status, today: CalendarDate)
    ensures Present(CompletedOn(t, today).completedDate) && CompletedOn(t, today).status == Completed
    ensures ParseDMY(CompletedOn(t, today).completedDate.value) == Some(today)
    ensures Present(WithStatus(t, status, today).completedDate) <==> WithStatus(t, status, today).status == Completed
    ensures WithStatus(t, status, today).status == status
    ensures status == Completed && Present(t.completedDate) ==> WithStatus(t, status, today).completedDate == t.completedDate
    ensures status == Completed && !Present(t.completedDate) ==>
              ParseDMY(WithStatus(t, status, today).completedDate.value) == Some(today)
    ensures WithStatus(t, status, today).(status := t.status, completedDate := t.completedDate) == t
    ensures CompletedOn(t, today).(status := t.status, completedDate := t.completedDate) == t
  {
    ParseFormatDMY(today);
    FormatHasTwoDigitFields(today);
  }

  /** The lifecycle changes never touch the columns the CHECK constraints read. */
  lemma ChangesKeepAdmissible(t: Task, status: Status, today: CalendarDate)
    requires Admissible(t)
    ensures Admissible(CompletedOn(t, today))
    ensures Admissible(WithStatus(t, status, today))
    ensures Admissible(t.(reminderSent := true))
  {
  }

  /** The rows after mark_reminder_sent has run for every id in `ids`. */
  function SetReminderSent(rows: seq<Task>, ids: set<int>): (r: seq<Task>)
    ensures |r| == |rows|
    ensures forall i | 0 <= i < |rows| ::
              && r[i].id == rows[i].id && r[i].title == rows[i].title
              && r[i] == rows[i].(reminderSent := rows[i].reminderSent || rows[i].id in ids)
  {
    seq(|rows|, i requires 0 <= i < |rows| =>
      if rows[i].id in ids then rows[i].(reminderSent := true) else rows[i])
  }

  function IdsOf(tasks: seq<Task>): set<int> {
    set i | 0 <= i < |tasks| :: tasks[i].id
  }

  /** The position of the first task whose title is blank, or the length. */
  function FirstBlank(tasks: seq<Task>): (k: nat)
    ensures k <= |tasks|
    ensures forall j | 0 <= j < k :: !IsBlank(tasks[j].title)
    ensures k < |tasks| ==> IsBlank(tasks[k].title)
    decreases |tasks|
  {
    if tasks == [] || IsBlank(tasks[0].title) then 0 else 1 + FirstBlank(tasks[1..])
  }

  /** Marking one stored row through update_task is SetReminderSent for its id. */
  lemma MarkOneRow(rows: seq<Task>, id: int, row: Task)
    requires IdsIncreasing(rows) && FindById(rows, id) == Some(row)
    ensures UpdateRows(rows, row.(reminderSent := true)) == SetReminderSent(rows, {id})
  {
    forall i | 0 <= i < |rows| && rows[i].id == id
      ensures rows[i] == row
    {
      FindByIdFindsRow(rows, i);
    }
  }

  lemma SetReminderSentTwice(rows: seq<Task>, a: set<int>, b: set<int>)
    ensures SetReminderSent(SetReminderSent(rows, a), b) == SetReminderSent(rows, a + b)
  {
  }

  lemma IdsOfSnoc(tasks: seq<Task>, k: int)
    requires 0 <= k < |tasks|
    ensures IdsOf(tasks[..k + 1]) == IdsOf(tasks[..k]) + {tasks[k].id}
  {
    var p, q := tasks[..k + 1], tasks[..k];
    forall x | x in IdsOf(p) ensures x in IdsOf(q) + {tasks[k].id} {
      var i :| 0 <= i < |p| && p[i].id == x;
      if i < k {
        assert q[i].id == x;
      }
    }
    forall x | x in IdsOf(q) + {tasks[k].id} ensures x in IdsOf(p) {
      if x == tasks[k].id {
        assert p[k].id == x;
      } else {
        var i :| 0 <= i < |q| && q[i].id == x;
        assert p[i].id == x;
      }
    }
  }

  // ---- Queries ----

  function ReminderTest(now: Moment): Task -> Result<bool, Error> {
    (t: Task) => NeedsReminder(t, now)
  }

  function OverdueTest(now: Moment): Task -> Result<bool, Error> {
    (t: Task) => IsOverdue(t, now)
  }

  /** get_reminders over the loaded tasks. */
  function Reminders(tasks: seq<Task>, now: Moment): Result<seq<Task>, Error> {
    FilterOk(tasks, ReminderTest(now))
  }

  /** get_overdue over the loaded tasks. */
  function Overdue(tasks: seq<Task>, now: Moment): Result<seq<Task>, Error> {
    FilterOk(tasks, OverdueTest(now))
  }

  /** get_reminders raises exactly when some task's reminder date cannot be
      parsed, and otherwise returns, in their order, exactly the tasks whose
      reminder is due. */
  lemma RemindersSpec(tasks: seq<Task>, now: Moment)
    ensures Reminders(tasks, now).Success? <==> forall i | 0 <= i < |tasks| :: NeedsReminder(tasks[i], now).Success?
    ensures Reminders(tasks, now).Success? ==>
              && IsSubsequence(Reminders(tasks, now).value, tasks)
              && forall t :: t in Reminders(tasks, now).value <==> t in tasks && NeedsReminder(t, now) == Success(true)
  {
    FilterOkSuccess(tasks, ReminderTest(now));
    if Reminders(tasks, now).Success? {
      FilterIsSubsequence(tasks, HoldsOf(ReminderTest(now)));
      forall t {
        FilterMembership(tasks, HoldsOf(ReminderTest(now)), t);
      }
    }
  }

  /** get_overdue raises exactly when some open task's due date cannot be
      parsed, and otherwise returns, in their order, exactly the open tasks due
      before now. */
  lemma OverdueSpec(tasks: seq<Task>, now: Moment)
    ensures Overdue(tasks, now).Success? <==> forall i | 0 <= i < |tasks| :: IsOverdue(tasks[i], now).Success?
    ensures Overdue(tasks, now).Success? ==>
              && IsSubsequence(Overdue(tasks, now).value, tasks)
              && forall t :: t in Overdue(tasks, now).value <==>
                   t in tasks && t.status != Completed && IsOverdue(t, now) == Success(true)
  {
    FilterOkSuccess(tasks, OverdueTest(now));
    if Overdue(tasks, now).Success? {
      FilterIsSubsequence(tasks, HoldsOf(OverdueTest(now)));
      forall t {
        FilterMembership(tasks, HoldsOf(OverdueTest(now)), t);
      }
    }
  }

  lemma FilterNone<T>(s: seq<T>, p: T -> bool)
    requires forall i | 0 <= i < |s| :: !p(s[i])
    ensures Filter(s, p) == []
  {
  }

  /** Processing the reminders of a table whose due tasks all have titles
      leaves no reminder due: running get_reminders again at the same moment
      finds nothing. */
  lemma ProcessedRemindersAreCleared(rows: seq<Task>, now: Moment)
    requires IdsIncreasing(rows)
    requires Reminders(rows, now).Success?
    ensures Reminders(SetReminderSent(rows, IdsOf(Reminders(rows, now).value)), now) == Success([])
  {
    var due := Reminders(rows, now).value;
    var ids := IdsOf(due);
    var after := SetReminderSent(rows, ids);
    RemindersSpec(rows, now);
    forall i | 0 <= i < |after| ensures NeedsReminder(after[i], now) == Success(false) {
      if rows[i].id in ids {
        var j :| 0 <= j < |due| && due[j].id == rows[i].id;
        assert due[j] in rows;
        var i' :| 0 <= i' < |rows| && rows[i'] == due[j];
        FindByIdFindsRow(rows, i);
        FindByIdFindsRow(rows, i');
        assert NeedsReminder(rows[i], now) == Success(true);
      } else {
        assert rows[i] !in due;
        assert NeedsReminder(rows[i], now).Success?;
      }
    }
    FilterOkSuccess(after, ReminderTest(now));
    FilterNone(after, HoldsOf(ReminderTest(now)));
  }

  /** The test search applies to a task with the lower-cased, stripped query. */
  predicate MatchesQuery(t: Task, q: string) {
    Contains(ToLower(t.title), q) || Contains(ToLower(t.description), q)
  }

  function QueryTest(q: string): Task -> bool {
    (t: Task) => MatchesQuery(t, q)
  }

  /** search over the loaded tasks. */
  function Search(tasks: seq<Task>, query: string): seq<Task> {
    if Strip(query) == [] then tasks
    else Filter(tasks, QueryTest(Strip(ToLower(query))))
  }

  /** A blank query returns every task; any other query returns, in their
      order, exactly the tasks whose lower-cased title or description contains
      the lower-cased, stripped query at some position. */
  lemma SearchSpec(tasks: seq<Task>, query: string)
    ensures IsBlank(query) ==> Search(tasks, query) == tasks
    ensures IsSubsequence(Search(tasks, query), tasks)
    ensures !IsBlank(query) ==>
              var q := Strip(ToLower(query));
              forall t :: t in Search(tasks, query) <==>
                t in tasks && ((exists i :: OccursAt(ToLower(t.title), q, i)) ||
                               (exists i :: OccursAt(ToLower(t.description), q, i)))
  {
    StripIsEmptyIffBlank(query);
    if IsBlank(query) {
      SubsequenceReflexive(tasks);
    } else {
      var q := Strip(ToLower(query));
      FilterIsSubsequence(tasks, QueryTest(q));
      forall t
        ensures t in Search(tasks, query) <==>
                  t in tasks && ((exists i :: OccursAt(ToLower(t.title), q, i)) ||
                                 (exists i :: OccursAt(ToLower(t.description), q, i)))
      {
        FilterMembership(tasks, QueryTest(q), t);
        ContainsIffOccurs(ToLower(t.title), q);
        ContainsIffOccurs(ToLower(t.description), q);
      }
    }
  }

  function StatusTest(status: Status): Task -> bool {
    (t: Task) => t.status == status
  }

  function PriorityTest(priority: Priority): Task -> bool {
    (t: Task) => t.priority == priority
  }

  /** filter_tasks: keep the given status, then the given priority. */
  function FilterTasks(tasks: seq<Task>, status: Option<Status>, priority: Option<Priority>): seq<Task> {
    var byStatus := if status.Some? then Filter(tasks, StatusTest(status.value)) else tasks;
    if priority.Some? then Filter(byStatus, PriorityTest(priority.value)) else byStatus
  }

  /** A task passes filter_tasks when it has the given status, if any, and the
      given priority, if any. */
  predicate Selected(t: Task, status: Option<Status>, priority: Option<Priority>) {
    (status.None? || t.status == status.value) && (priority.None? || t.priority == priority.value)
  }

  function SelectedTest(status: Option<Status>, priority: Option<Priority>): Task -> bool {
    (t: Task) => Selected(t, status, priority)
  }

  /** filter_tasks is one order-preserving filter on both conditions; with
      neither condition it returns its input unchanged. */
  lemma FilterTasksSpec(tasks: seq<Task>, status: Option<Status>, priority: Option<Priority>)
    ensures FilterTasks(tasks, status, priority) == Filter(tasks, SelectedTest(status, priority))
    ensures IsSubsequence(FilterTasks(tasks, status, priority), tasks)
    ensures forall t :: t in FilterTasks(tasks, status, priority) <==> t in tasks && Selected(t, status, priority)
    ensures status.None? && priority.None? ==> FilterTasks(tasks, status, priority) == tasks
  {
    var sel := SelectedTest(status, priority);
    if status.Some? && priority.Some? {
      FilterFilter(tasks, StatusTest(status.value), PriorityTest(priority.value), sel);
    } else if status.Some? {
      FilterSame(tasks, StatusTest(status.value), sel);
    } else if priority.Some? {
      FilterSame(tasks, PriorityTest(priority.value), sel);
    } else {
      FilterKeepsAll(tasks, sel);
    }
    FilterIsSubsequence(tasks, sel);
    forall t {
      FilterMembership(tasks, sel, t);
    }
  }

  /** Filters on tests that agree everywhere agree. */
  lemma {:induction false} FilterSame<T>(s: seq<T>, p: T -> bool, q: T -> bool)
    requires forall x :: p(x) == q(x)
    ensures Filter(s, p) == Filter(s, q)
    decreases |s|
  {
    if s != [] {
      FilterSame(s[..|s| - 1], p, q);
    }
  }

  // ---- sort_tasks ----

  /** The due date as a day number; strptime's ValueError if it does not parse. */
  function DueKey(t: Task): Result<int, Error> {
    match ParseDMY(t.dueDate)
    case None => Failure(BadDateFormat)
    case Some(d) => Success(Ordinal(d))
  }

  function CreatedKey(t: Task): Result<int, Error> {
    match ParseDMY(t.createdDate)
    case None => Failure(BadDateFormat)
    case Some(d) => Success(Ordinal(d))
  }

  /** priority_order = {HIGH: 0, MEDIUM: 1, LOW: 2}; CANCELLED raises KeyError. */
  function PriorityRank(t: Task): Result<int, Error> {
    match t.priority
    case High => Success(0)
    case Medium => Success(1)
    case Low => Success(2)
    case Cancelled => Failure(NoPriorityRank)
  }

  function DueKeyOf(): Task -> Result<int, Error> { (t: Task) => DueKey(t) }
  function CreatedKeyOf(): Task -> Result<int, Error> { (t: Task) => CreatedKey(t) }
  function PriorityRankOf(): Task -> Result<int, Error> { (t: Task) => PriorityRank(t) }

  /** sort_tasks */
  function SortTasks(tasks: seq<Task>, key: string): Result<seq<Task>, Error> {
    if tasks == [] then Success(tasks)
    else if key == "due_date" then SortOn(tasks, DueKeyOf(), false)
    else if key == "due_date_desc" then SortOn(tasks, DueKeyOf(), true)
    else if key == "priority" then SortOn(tasks, PriorityRankOf(), false)
    else SortOn(tasks, CreatedKeyOf(), true)
  }

  /** The due date of a task whose due date parses. */
  function DueOf(t: Task): CalendarDate
    requires ParseDMY(t.dueDate).Some?
  {
    ParseDMY(t.dueDate).value
  }

  function CreatedOf(t: Task): CalendarDate
    requires ParseDMY(t.createdDate).Some?
  {
    ParseDMY(t.createdDate).value
  }

  /** "due_date": a stable permutation in calendar order of the due dates (not
      their string order); it raises exactly when some due date does not parse. */
  lemma SortByDueDate(tasks: seq<Task>)
    requires tasks != []
    ensures SortTasks(tasks, "due_date").Success? <==> forall i | 0 <= i < |tasks| :: ParseDMY(tasks[i].dueDate).Some?
    ensures SortTasks(tasks, "due_date").Success? ==>
              var r := SortTasks(tasks, "due_date").value;
              && multiset(r) == multiset(tasks)
              && (forall i | 0 <= i < |r| :: ParseDMY(r[i].dueDate).Some?)
              && (forall i, j | 0 <= i < j < |r| :: !Precedes(DueOf(r[j]), DueOf(r[i])))
              && (forall k :: WithKey(r, TotalKey(DueKeyOf(), false), k) == WithKey(tasks, TotalKey(DueKeyOf(), false), k))
  {
    SortOnSpec(tasks, DueKeyOf(), false);
    if SortTasks(tasks, "due_date").Success? {
      var r := SortTasks(tasks, "due_date").value;
      forall i, j | 0 <= i < j < |r| ensures !Precedes(DueOf(r[j]), DueOf(r[i])) {
        OrdinalOrderIff(DueOf(r[j]), DueOf(r[i]));
      }
    }
  }

  /** "due_date_desc": the same with the due dates in reverse calendar order,
      equal dates still in input order. */
  lemma SortByDueDateDesc(tasks: seq<Task>)
    requires tasks != []
    ensures SortTasks(tasks, "due_date_desc").Success? <==> forall i | 0 <= i < |tasks| :: ParseDMY(tasks[i].dueDate).Some?
    ensures SortTasks(tasks, "due_date_desc").Success? ==>
              var r := SortTasks(tasks, "due_date_desc").value;
              && multiset(r) == multiset(tasks)
              && (forall i | 0 <= i < |r| :: ParseDMY(r[i].dueDate).Some?)
              && (forall i, j | 0 <= i < j < |r| :: !Precedes(DueOf(r[i]), DueOf(r[j])))
              && (forall k :: WithKey(r, TotalKey(DueKeyOf(), true), k) == WithKey(tasks, TotalKey(DueKeyOf(), true), k))
  {
    SortOnSpec(tasks, DueKeyOf(), true);
    if SortTasks(tasks, "due_date_desc").Success? {
      var r := SortTasks(tasks, "due_date_desc").value;
      forall i, j | 0 <= i < j < |r| ensures !Precedes(DueOf(r[i]), DueOf(r[j])) {
        OrdinalOrderIff(DueOf(r[i]), DueOf(r[j]));
      }
    }
  }

  /** "priority" raises KeyError exactly when some task is CANCELLED. */
  lemma SortByPriorityFails(tasks: seq<Task>)
    requires tasks != []
    ensures SortTasks(tasks, "priority").Failure? <==> exists i | 0 <= i < |tasks| :: tasks[i].priority == Cancelled
    ensures SortTasks(tasks, "priority").Failure? ==> SortTasks(tasks, "priority").error == NoPriorityRank
  {
    KeysOfSuccess(tasks, PriorityRankOf());
    if SortTasks(tasks, "priority").Failure? {
      var i :| 0 <= i < |tasks| && PriorityRank(tasks[i]).Failure?;
      FirstFailingKey(tasks, PriorityRankOf(), i);
    }
  }

  /** "priority": a stable permutation with HIGH before MEDIUM before LOW. */
  lemma SortByPriority(tasks: seq<Task>)
    requires tasks != []
    requires SortTasks(tasks, "priority").Success?
    ensures var r := SortTasks(tasks, "priority").value;
            && multiset(r) == multiset(tasks)
            && (forall i, j | 0 <= i < j < |r| && r[j].priority == High :: r[i].priority == High)
            && (forall i, j | 0 <= i < j < |r| && r[i].priority == Low :: r[j].priority == Low)
            && (forall k :: WithKey(r, TotalKey(PriorityRankOf(), false), k) == WithKey(tasks, TotalKey(PriorityRankOf(), false), k))
  {
    SortOnSpec(tasks, PriorityRankOf(), false);
    var r := SortTasks(tasks, "priority").value;
    forall i, j | 0 <= i < j < |r| && r[j].priority == High ensures r[i].priority == High {
      RankOrder(r, i, j);
    }
    forall i, j | 0 <= i < j < |r| && r[i].priority == Low ensures r[j].priority == Low {
      RankOrder(r, i, j);
    }
  }

  /** In a list sorted by rank, the ranks at two positions are in order and name no CANCELLED task. */
  lemma RankOrder(r: seq<Task>, i: int, j: int)
    requires 0 <= i < j < |r|
    requires forall i | 0 <= i < |r| :: PriorityRankOf()(r[i]).Success?
    requires forall i, j | 0 <= i < j < |r| :: PriorityRankOf()(r[i]).value <= PriorityRankOf()(r[j]).value
    ensures r[i].priority != Cancelled && r[j].priority != Cancelled
    ensures PriorityRank(r[i]).value <= PriorityRank(r[j]).value
  {
    assert PriorityRankOf()(r[i]) == PriorityRank(r[i]);
    assert PriorityRankOf()(r[j]) == PriorityRank(r[j]);
  }

  /** Some element's key raises, so there is a first such element and the sort
      raises its exception. */
  lemma FirstFailingKey<T, E>(s: seq<T>, key: T -> Result<int, E>, i: int)
    requires 0 <= i < |s| && key(s[i]).Failure?
    ensures exists j | 0 <= j <= i :: key(s[j]).Failure? && SortOn(s, key, false) == Failure(key(s[j]).error)
    decreases i
  {
    if exists j | 0 <= j < i :: key(s[j]).Failure? {
      var j :| 0 <= j < i && key(s[j]).Failure?;
      FirstFailingKey(s, key, j);
    } else {
      KeysOfFailure(s, key, i);
    }
  }

  /** "created_date" and every other value of `by`: newest creation date first,
      equal dates in input order; an empty list is returned as it is. */
  lemma SortByCreatedDate(tasks: seq<Task>, key: string)
    requires key != "due_date" && key != "due_date_desc" && key != "priority"
    ensures tasks == [] ==> SortTasks(tasks, key) == Success(tasks)
    ensures SortTasks(tasks, key).Success? <==> forall i | 0 <= i < |tasks| :: ParseDMY(tasks[i].createdDate).Some?
    ensures SortTasks(tasks, key).Success? ==>
              var r := SortTasks(tasks, key).value;
              && multiset(r) == multiset(tasks)
              && (forall i | 0 <= i < |r| :: ParseDMY(r[i].createdDate).Some?)
              && (forall i, j | 0 <= i < j < |r| :: !Precedes(CreatedOf(r[i]), CreatedOf(r[j])))
              && (forall k :: WithKey(r, TotalKey(CreatedKeyOf(), true), k) == WithKey(tasks, TotalKey(CreatedKeyOf(), true), k))
  {
    if tasks != [] {
      SortOnSpec(tasks, CreatedKeyOf(), true);
      if SortTasks(tasks, key).Success? {
        var r := SortTasks(tasks, key).value;
        forall i, j | 0 <= i < j < |r| ensures !Precedes(CreatedOf(r[i]), CreatedOf(r[j])) {
          OrdinalOrderIff(CreatedOf(r[i]), CreatedOf(r[j]));
        }
      }
    }
  }

  // ---- The service ----

  class TaskService {
    const db: Database

    constructor(db: Database)
      ensures this.db == db
    {
      this.db := db;
    }

    predicate Valid()
      reads this, db
    {
      db.Valid()
    }

    /** get_all_tasks: the table's rows, in id order. */
    function GetAllTasks(): (r: seq<Task>)
      reads this, db
      requires Valid()
      ensures IdsIncreasing(r)
    {
      db.GetAllTasks()
    }

    /** get_task */
    function GetTask(id: int): Option<Task>
      reads this, db
    {
      FindById(db.rows, id)
    }

    /** create_task: validate, build the record, insert it and return it as
        read back under its fresh id. Nothing is written when validation fails. */
    method CreateTask(title: string, description: string, priority: Priority, dueDate: string,
                      reminderDays: Option<int>, today: CalendarDate) returns (r: Result<Task, Error>)
      requires Valid()
      modifies db
      ensures Valid()
      ensures var n := NewTask(title, description, priority, dueDate, reminderDays, today);
              && (n.Failure? ==> r == Failure(n.error))
              && (n.Success? && !Admissible(n.value) ==> r == Failure(ConstraintViolation))
              && (n.Success? && Admissible(n.value) ==>
                    && r == Success(n.value.(id := old(db.nextId)))
                    && db.rows == old(db.rows) + [r.value]
                    && db.nextId == old(db.nextId) + 1)
      ensures r.Failure? ==> db.rows == old(db.rows) && db.nextId == old(db.nextId)
    {
      var t :- NewTask(title, description, priority, dueDate, reminderDays, today);
      var id :- db.CreateTask(t);
      var stored := FindById(db.rows, id);
      r := Success(stored.value);
    }

    /** update_task: a blank title raises before storage is touched; otherwise
        the storage write's result. */
    method UpdateTask(t: Task) returns (r: Result<bool, Error>)
      requires Valid()
      modifies db
      ensures Valid()
      ensures IsBlank(t.title) ==> r == Failure(EmptyTitle)
      ensures !IsBlank(t.title) ==> r == Success(FindById(old(db.rows), t.id).Some? && Admissible(t))
      ensures r == Success(true) ==> db.rows == UpdateRows(old(db.rows), t)
      ensures r != Success(true) ==> db.rows == old(db.rows)
      ensures db.nextId == old(db.nextId)
    {
      StripIsEmptyIffBlank(t.title);
      if Strip(t.title) == [] {
        return Failure(EmptyTitle);
      }
      var ok := db.UpdateTask(t);
      r := Success(ok);
    }

    /** delete_task */
    method DeleteTask(id: int) returns (ok: bool)
      requires Valid()
      modifies db
      ensures Valid()
      ensures ok <==> FindById(old(db.rows), id).Some?
      ensures db.rows == WithoutId(old(db.rows), id) && db.nextId == old(db.nextId)
    {
      ok := db.DeleteTask(id);
    }

    /** complete_task: false for a missing id; otherwise the stored task becomes
        COMPLETED on `today` (update_task raises for a stored blank title). */
    method CompleteTask(id: int, today: CalendarDate) returns (r: Result<bool, Error>)
      requires Valid()
      modifies db
      ensures Valid()
      ensures match old(FindById(db.rows, id))
        case None => r == Success(false) && db.rows == old(db.rows)
        case Some(t) =>
          if IsBlank(t.title) then r == Failure(EmptyTitle) && db.rows == old(db.rows)
          else r == Success(true) && db.rows == UpdateRows(old(db.rows), CompletedOn(t, today))
      ensures db.nextId == old(db.nextId)
    {
      var found := FindById(db.rows, id);
      if found.None? {
        return Success(false);
      }
      var t := CompletedOn(found.value, today);
      ChangesKeepAdmissible(found.value, Completed, today);
      r := UpdateTask(t);
    }

    /** change_status: false for a missing id; otherwise the stored task takes
        the new status, with the completion date rule of WithStatus. */
    method ChangeStatus(id: int, status: Status, today: CalendarDate) returns (r: Result<bool, Error>)
      requires Valid()
      modifies db
      ensures Valid()
      ensures match old(FindById(db.rows, id))
        case None => r == Success(false) && db.rows == old(db.rows)
        case Some(t) =>
          if IsBlank(t.title) then r == Failure(EmptyTitle) && db.rows == old(db.rows)
          else r == Success(true) && db.rows == UpdateRows(old(db.rows), WithStatus(t, status, today))
      ensures db.nextId == old(db.nextId)
    {
      var found := FindById(db.rows, id);
      if found.None? {
        return Success(false);
      }
      var t := WithStatus(found.value, status, today);
      ChangesKeepAdmissible(found.value, status, today);
      r := UpdateTask(t);
    }

    /** mark_reminder_sent: false for a missing id; otherwise the stored task's
        reminder is marked sent. */
    method MarkReminderSent(id: int) returns (r: Result<bool, Error>)
      requires Valid()
      modifies db
      ensures Valid()
      ensures match old(FindById(db.rows, id))
        case None => r == Success(false) && db.rows == old(db.rows)
        case Some(t) =>
          if IsBlank(t.title) then r == Failure(EmptyTitle) && db.rows == old(db.rows)
          else r == Success(true) && db.rows == SetReminderSent(old(db.rows), {id})
      ensures db.nextId == old(db.nextId)
    {
      var found := FindById(db.rows, id);
      if found.None? {
        return Success(false);
      }
      var t := found.value.(reminderSent := true);
      ChangesKeepAdmissible(found.value, Planned, FirstDate);
      MarkOneRow(db.rows, id, found.value);
      r := UpdateTask(t);
    }

    /** get_reminders */
    function GetReminders(now: Moment): Result<seq<Task>, Error>
      reads this, db
    {
      Reminders(db.rows, now)
    }

    /** process_reminders: mark every due reminder sent, in order, and count
        the marks. get_reminders raising means nothing is marked; a due task
        with a blank title makes update_task raise after the marks before it. */
    method ProcessReminders(now: Moment) returns (r: Result<int, Error>)
      requires Valid()
      modifies db
      ensures Valid()
      ensures Reminders(old(db.rows), now).Failure? ==>
                r == Failure(Reminders(old(db.rows), now).error) && db.rows == old(db.rows)
      ensures Reminders(old(db.rows), now).Success? ==>
                var due := Reminders(old(db.rows), now).value;
                var k := FirstBlank(due);
                && db.rows == SetReminderSent(old(db.rows), IdsOf(due[..k]))
                && r == if k < |due| then Failure(EmptyTitle) else Success(|due|)
      ensures db.nextId == old(db.nextId)
    {
      var reminders := Reminders(db.rows, now);
      if reminders.Failure? {
        return Failure(reminders.error);
      }
      var due := reminders.value;
      ghost var rows0 := db.rows;
      var sentCount := 0;
      var k := 0;
      while k < |due|
        invariant 0 <= k <= |due| && sentCount == k
        invariant db.Valid() && db.nextId == old(db.nextId)
        invariant db.rows == SetReminderSent(rows0, IdsOf(due[..k]))
        invariant k <= FirstBlank(due)
      {
        ReminderStep(rows0, now, k);
        var marked := MarkReminderSent(due[k].id);
        if marked.Failure? {
          assert IsBlank(due[k].title);
          FirstBlankAt(due, k);
          return Failure(marked.error);
        }
        assert !IsBlank(due[k].title);
        if marked.value {
          sentCount := sentCount + 1;
        }
        k := k + 1;
      }
      FirstBlankAt(due, k);
      assert due[..|due|] == due;
      r := Success(sentCount);
    }

    /** search */
    function SearchTasks(query: string): seq<Task>
      reads this, db
    {
      Search(db.rows, query)
    }

    /** get_overdue */
    function GetOverdue(now: Moment): Result<seq<Task>, Error>
      reads this, db
    {
      Overdue(db.rows, now)
    }
  }

  /** One round of process_reminders: the k-th due task is still stored under
      its id with its title, and marking it extends the marked prefix by one. */
  lemma ReminderStep(rows0: seq<Task>, now: Moment, k: int)
    requires IdsIncreasing(rows0) && Reminders(rows0, now).Success?
    requires 0 <= k < |Reminders(rows0, now).value|
    ensures var due := Reminders(rows0, now).value;
            var rows := SetReminderSent(rows0, IdsOf(due[..k]));
            && FindById(rows, due[k].id).Some?
            && FindById(rows, due[k].id).value.title == due[k].title
            && SetReminderSent(rows, {due[k].id}) == SetReminderSent(rows0, IdsOf(due[..k + 1]))
  {
    var due := Reminders(rows0, now).value;
    var rows := SetReminderSent(rows0, IdsOf(due[..k]));
    FilterOkSuccess(rows0, ReminderTest(now));
    assert due[k] in rows0;
    var i :| 0 <= i < |rows0| && rows0[i] == due[k];
    assert IdsIncreasing(rows);
    FindByIdFindsRow(rows, i);
    SetReminderSentTwice(rows0, IdsOf(due[..k]), {due[k].id});
    IdsOfSnoc(due, k);
  }

  /** FirstBlank is the first index whose title is blank. */
  lemma FirstBlankAt(tasks: seq<Task>, k: int)
    requires 0 <= k <= FirstBlank(tasks)
    requires k < |tasks| ==> IsBlank(tasks[k].title)
    ensures FirstBlank(tasks) == k
  {
  }
}
