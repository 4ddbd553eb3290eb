/** The task entity of core/models.py: the Status and Priority enumerations,
    the ten-field Task record, its dictionary snapshot and the two date
    predicates, with "now" passed in instead of read from the clock. */
module Models {
  import opened Wrappers
  import opened Errors
  import opened Dates
  import opened Snapshot

  // ---- Status ----

  datatype Status = Planned | InProgress | Completed

  function StatusValue(s: Status): string {
    match s
    case Planned => "Запланирована"
    case InProgress => "В работе"
    case Completed => "Выполнена"
  }

  /** The position of a member in the class body. */
  function StatusIndex(s: Status): nat {
    match s
    case Planned => 0
    case InProgress => 1
    case Completed => 2
  }

  /** Status.get_all(): the value of every member, in declaration order, each once. */
  function GetAll(): (r: seq<string>)
    ensures |r| == 3
    ensures forall s: Status :: StatusIndex(s) < |r| && r[StatusIndex(s)] == StatusValue(s)
    ensures forall i, j | 0 <= i < j < |r| :: r[i] != r[j]
  {
    [StatusValue(Planned), StatusValue(InProgress), StatusValue(Completed)]
  }

  /** Status(v): the member whose value is `v`, or ValueError. */
  function ParseStatus(v: Value): (r: Result<Status, Error>)
    ensures r.Success? <==> v.StrV? && v.s in GetAll()
    ensures r.Success? ==> v == StrV(StatusValue(r.value))
    ensures r.Failure? ==> r.error == BadEnumValue("status")
  {
    if v == StrV(StatusValue(Planned)) then Success(Planned)
    else if v == StrV(StatusValue(InProgress)) then Success(InProgress)
    else if v == StrV(StatusValue(Completed)) then Success(Completed)
    else Failure(BadEnumValue("status"))
  }

  /** Status(s.value) is s, and no other member: the lookup is exact both ways. */
  lemma ParseStatusIff(v: Value, s: Status)
    ensures ParseStatus(v) == Success(s) <==> v == StrV(StatusValue(s))
  {
  }

  // ---- Priority ----

  datatype Priority = Low | Medium | High | Cancelled

  function PriorityValue(p: Priority): string {
    match p
    case Low => "низкий"
    case Medium => "средний"
    case High => "высокий"
    case Cancelled => "отменено"
  }

  /** Priority(v): the member whose value is `v`, or ValueError. */
  function ParsePriority(v: Value): (r: Result<Priority, Error>)
    ensures r.Success? <==> v in {StrV("низкий"), StrV("средний"), StrV("высокий"), StrV("отменено")}
    ensures r.Success? ==> v == StrV(PriorityValue(r.value))
    ensures r.Failure? ==> r.error == BadEnumValue("priority")
  {
    if v == StrV(PriorityValue(Low)) then Success(Low)
    else if v == StrV(PriorityValue(Medium)) then Success(Medium)
    else if v == StrV(PriorityValue(High)) then Success(High)
    else if v == StrV(PriorityValue(Cancelled)) then Success(Cancelled)
    else Failure(BadEnumValue("priority"))
  }

  /** Priority(p.value) is p for each of the four members, and every value that
      is not one of the four tokens is refused. */
  lemma ParsePriorityIff(v: Value, p: Priority)
    ensures ParsePriority(v) == Success(p) <==> v == StrV(PriorityValue(p))
    ensures ParsePriority(v).Failure? <==>
              v !in {StrV("низкий"), StrV("средний"), StrV("высокий"), StrV("отменено")}
  {
  }

  // ---- Task ----

  datatype Task = Task(
    id: int,
    title: string,
    description: string,
    priority: Priority,
    status: Status,
    createdDate: string,           // DD.MM.YYYY
    dueDate: string,               // DD.MM.YYYY
    completedDate: Option<string>,
    reminderDate: Option<string>,
    reminderSent: bool)

  /** Python's truth value of an Optional[str]: neither None nor "". */
  predicate Present(o: Option<string>) {
    o.Some? && o.value != ""
  }

  /** The keys from_dict reads with data[key]. */
  const RequiredKeys: set<string> := {"id", "title", "description", "priority", "status", "created_date", "due_date"}

  /** The keys from_dict reads with data.get(key). */
  const OptionalKeys: set<string> := {"completed_date", "reminder_date", "reminder_sent"}

  /** task.to_dict() */
  function ToDict(t: Task): (r: Dict)
    ensures r.Keys == RequiredKeys + OptionalKeys
  {
    map[
      "id" := IntV(t.id),
      "title" := StrV(t.title),
      "description" := StrV(t.description),
      "priority" := StrV(PriorityValue(t.priority)),
      "status" := StrV(StatusValue(t.status)),
      "created_date" := StrV(t.createdDate),
      "due_date" := StrV(t.dueDate),
      "completed_date" := OptStr(t.completedDate),
      "reminder_date" := OptStr(t.reminderDate),
      "reminder_sent" := BoolV(t.reminderSent)
    ]
  }

  /** Task.from_dict(data). The keyword arguments are evaluated in order, so the
      first missing key or unknown token decides the exception; a value of a
      type the field cannot hold is refused after those. */
  function FromDict(data: Dict): (r: Result<Task, Error>)
  {
    var completed := GetOr(data, "completed_date", NoneV);
    var reminder := GetOr(data, "reminder_date", NoneV);
    var sent := GetOr(data, "reminder_sent", BoolV(false));
    if "id" !in data then Failure(MissingKey("id"))
    else if "title" !in data then Failure(MissingKey("title"))
    else if "description" !in data then Failure(MissingKey("description"))
    else if "priority" !in data then Failure(MissingKey("priority"))
    else if ParsePriority(data["priority"]).Failure? then Failure(BadEnumValue("priority"))
    else if "status" !in data then Failure(MissingKey("status"))
    else if ParseStatus(data["status"]).Failure? then Failure(BadEnumValue("status"))
    else if "created_date" !in data then Failure(MissingKey("created_date"))
    else if "due_date" !in data then Failure(MissingKey("due_date"))
    else if !data["id"].IntV? then Failure(WrongType("id"))
    else if !data["title"].StrV? then Failure(WrongType("title"))
    else if !data["description"].StrV? then Failure(WrongType("description"))
    else if !data["created_date"].StrV? then Failure(WrongType("created_date"))
    else if !data["due_date"].StrV? then Failure(WrongType("due_date"))
    else if AsOptStr("completed_date", completed).Failure? then Failure(WrongType("completed_date"))
    else if AsOptStr("reminder_date", reminder).Failure? then Failure(WrongType("reminder_date"))
    else if !sent.BoolV? then Failure(WrongType("reminder_sent"))
    else Success(Task(data["id"].i, data["title"].s, data["description"].s,
                      ParsePriority(data["priority"]).value, ParseStatus(data["status"]).value,
                      data["created_date"].s, data["due_date"].s,
                      AsOptStr("completed_date", completed).value,
                      AsOptStr("reminder_date", reminder).value, sent.b))
  }

  /** from_dict(to_dict(t)) == t: all ten fields survive, None values and the
      reminder flag included. */
  lemma FromDictToDict(t: Task)
    ensures FromDict(ToDict(t)) == Success(t)
  {
    var d := ToDict(t);
    assert d["id"] == IntV(t.id);
    assert d["title"] == StrV(t.title);
    assert d["description"] == StrV(t.description);
    assert d["priority"] == StrV(PriorityValue(t.priority));
    assert d["status"] == StrV(StatusValue(t.status));
    assert d["created_date"] == StrV(t.createdDate);
    assert d["due_date"] == StrV(t.dueDate);
    assert d["completed_date"] == OptStr(t.completedDate);
    assert d["reminder_date"] == OptStr(t.reminderDate);
    assert d["reminder_sent"] == BoolV(t.reminderSent);
    ParsePriorityIff(d["priority"], t.priority);
    ParseStatusIff(d["status"], t.status);
  }

  /** The other direction: a dictionary that from_dict accepts holds every
      required key, agrees with the snapshot of the result on every key it
      holds, and the optional keys it lacks take their default values. */
  lemma ToDictFromDict(data: Dict, t: Task)
    requires FromDict(data) == Success(t)
    ensures RequiredKeys <= data.Keys
    ensures forall k | k in data && k in ToDict(t) :: data[k] == ToDict(t)[k]
    ensures "completed_date" !in data ==> t.completedDate == None
    ensures "reminder_date" !in data ==> t.reminderDate == None
    ensures "reminder_sent" !in data ==> !t.reminderSent
  {
    var s := ToDict(t);
    SnapshotAgrees(data, t);
    ToDictLookup(t);
    forall k | k in data && k in s ensures data[k] == s[k] {
      assert k in RequiredKeys || k in OptionalKeys;
    }
  }

  /** What each key of the snapshot holds. */
  lemma ToDictLookup(t: Task)
    ensures ToDict(t)["id"] == IntV(t.id)
    ensures ToDict(t)["title"] == StrV(t.title)
    ensures ToDict(t)["description"] == StrV(t.description)
    ensures ToDict(t)["priority"] == StrV(PriorityValue(t.priority))
    ensures ToDict(t)["status"] == StrV(StatusValue(t.status))
    ensures ToDict(t)["created_date"] == StrV(t.createdDate)
    ensures ToDict(t)["due_date"] == StrV(t.dueDate)
    ensures ToDict(t)["completed_date"] == OptStr(t.completedDate)
    ensures ToDict(t)["reminder_date"] == OptStr(t.reminderDate)
    ensures ToDict(t)["reminder_sent"] == BoolV(t.reminderSent)
  {
  }

  /** Each field of an accepted dictionary's task is the value under its key. */
  lemma SnapshotAgrees(data: Dict, t: Task)
    requires FromDict(data) == Success(t)
    ensures RequiredKeys <= data.Keys
    ensures data["id"] == IntV(t.id) && data["title"] == StrV(t.title)
    ensures data["description"] == StrV(t.description)
    ensures data["priority"] == StrV(PriorityValue(t.priority))
    ensures data["status"] == StrV(StatusValue(t.status))
    ensures data["created_date"] == StrV(t.createdDate) && data["due_date"] == StrV(t.dueDate)
    ensures GetOr(data, "completed_date", NoneV) == OptStr(t.completedDate)
    ensures GetOr(data, "reminder_date", NoneV) == OptStr(t.reminderDate)
    ensures GetOr(data, "reminder_sent", BoolV(false)) == BoolV(t.reminderSent)
  {
    var c := GetOr(data, "completed_date", NoneV);
    var r := GetOr(data, "reminder_date", NoneV);
    assert AsOptStr("completed_date", c) == Success(t.completedDate);
    assert AsOptStr("reminder_date", r) == Success(t.reminderDate);
  }

  /** Missing optional keys default to None, None and False. */
  lemma FromDictDefaults(data: Dict)
    requires FromDict(data).Success?
    requires "completed_date" !in data && "reminder_date" !in data && "reminder_sent" !in data
    ensures FromDict(data).value.completedDate == None
    ensures FromDict(data).value.reminderDate == None
    ensures !FromDict(data).value.reminderSent
  {
  }

  /** An unknown priority token raises ValueError once the keys before it exist. */
  lemma {:induction false} FromDictBadPriority(data: Dict)
    requires "id" in data && "title" in data && "description" in data && "priority" in data
    requires data["priority"] !in {StrV("низкий"), StrV("средний"), StrV("высокий"), StrV("отменено")}
    ensures FromDict(data) == Failure(BadEnumValue("priority"))
  {
    ParsePriorityIff(data["priority"], Low);
  }

  /** An unknown status token raises ValueError once the keys and the priority
      before it are accepted. */
  lemma FromDictBadStatus(data: Dict)
    requires "id" in data && "title" in data && "description" in data && "priority" in data
    requires ParsePriority(data["priority"]).Success?
    requires "status" in data && !(data["status"].StrV? && data["status"].s in GetAll())
    ensures FromDict(data) == Failure(BadEnumValue("status"))
  {
  }

  // ---- Date predicates ----

  /** task.is_overdue() at `now`: false for a completed task, otherwise whether
      midnight of the due date lies strictly before `now`; strptime's ValueError
      for an unparsable due date. */
  function IsOverdue(t: Task, now: Moment): Result<bool, Error> {
    if t.status == Completed then Success(false)
    else match ParseDMY(t.dueDate)
      case None => Failure(BadDateFormat)
      case Some(due) => Success(Timestamp(Midnight(due)) < Timestamp(now))
  }

  /** A completed task is never overdue; any other task is overdue exactly when
      its due day is an earlier day than today's, or is today and the clock has
      passed 00:00:00; an unparsable due date raises. */
  lemma IsOverdueIff(t: Task, now: Moment)
    ensures t.status == Completed ==> IsOverdue(t, now) == Success(false)
    ensures t.status != Completed ==> (IsOverdue(t, now).Failure? <==> ParseDMY(t.dueDate).None?)
    ensures t.status != Completed && IsOverdue(t, now).Failure? ==> IsOverdue(t, now).error == BadDateFormat
    ensures forall due | t.status != Completed && ParseDMY(t.dueDate) == Some(due) ::
              IsOverdue(t, now) == Success(Precedes(due, now.date) || (due == now.date && now.micros > 0))
  {
    if t.status != Completed && ParseDMY(t.dueDate).Some? {
      MidnightComparedToNow(ParseDMY(t.dueDate).value, now);
    }
  }

  /** task.needs_reminder() at `now`. */
  function NeedsReminder(t: Task, now: Moment): Result<bool, Error> {
    if t.status == Completed || !Present(t.reminderDate) then Success(false)
    else match ParseDMY(t.reminderDate.value)
      case None => Failure(BadDateFormat)
      case Some(day) => Success(Timestamp(Midnight(day)) <= Timestamp(now) && !t.reminderSent)
  }

  /** No reminder for a completed task or without a reminder date; otherwise one
      is due exactly when the reminder day is today or earlier and it has not
      been sent. */
  lemma NeedsReminderIff(t: Task, now: Moment)
    ensures t.status == Completed || !Present(t.reminderDate) ==> NeedsReminder(t, now) == Success(false)
    ensures t.status != Completed && Present(t.reminderDate) ==>
              (NeedsReminder(t, now).Failure? <==> ParseDMY(t.reminderDate.value).None?)
    ensures forall day | t.status != Completed && Present(t.reminderDate) && ParseDMY(t.reminderDate.value) == Some(day) ::
              NeedsReminder(t, now) == Success(!Precedes(now.date, day) && !t.reminderSent)
  {
    if t.status != Completed && Present(t.reminderDate) && ParseDMY(t.reminderDate.value).Some? {
      MidnightComparedToNow(ParseDMY(t.reminderDate.value).value, now);
    }
  }

  /** Once the reminder is marked sent it never triggers again, at any time. */
  lemma SentReminderNeverRepeats(t: Task, now: Moment)
    requires t.reminderSent
    ensures NeedsReminder(t, now) != Success(true)
  {
  }
}
