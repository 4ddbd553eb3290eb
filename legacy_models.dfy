/** The older task entity of the top-level models.py: its own Status tokens
    (neuter, where core/models.py uses the feminine forms), three priorities
    with no CANCELLED, an eight-field Task without reminders, ISO due dates,
    and its dictionary snapshot. */
module LegacyModels {
  import opened Wrappers
  import opened Errors
  import opened Dates
  import opened Snapshot
  import M = Models

  // ---- Status ----

  datatype Status = Planned | InProgress | Completed

  function StatusValue(s: Status): string {
    match s
    case Planned => "Запланировано"
    case InProgress => "В работе"
    case Completed => "Выполнено"
  }

  /** Status.get_all(): the three values in declaration order. */
  function GetAll(): (r: seq<string>)
    ensures |r| == 3 && r[0] == StatusValue(Planned) && r[1] == StatusValue(InProgress) && r[2] == StatusValue(Completed)
    ensures forall i, j | 0 <= i < j < |r| :: r[i] != r[j]
  {
    [StatusValue(Planned), StatusValue(InProgress), StatusValue(Completed)]
  }

  /** Status(v) */
  function ParseStatus(v: Value): (r: Result<Status, Error>)
    ensures r.Success? <==> v.StrV? && v.s in GetAll()
    ensures r.Success? ==> v == StrV(StatusValue(r.value))
    ensures r.Failure? ==> r.error == BadEnumValue("status")
  {
    if v == StrV(StatusValue(Planned)) then Success(Planned)
    else if v == StrV(StatusValue(InProgress)) then Success(InProgress)
    else if v == StrV(StatusValue(Completed)) then Success(Completed)
    else Failure(BadEnumValue("status"))
  }

  // ---- Priority ----

  datatype Priority = Low | Medium | High

  function PriorityValue(p: Priority): string {
    match p
    case Low => "низкий"
    case Medium => "средний"
    case High => "высокий"
  }

  /** Priority(v) */
  function ParsePriority(v: Value): (r: Result<Priority, Error>)
    ensures r.Success? <==> v in {StrV("низкий"), StrV("средний"), StrV("высокий")}
    ensures r.Success? ==> v == StrV(PriorityValue(r.value))
    ensures r.Failure? ==> r.error == BadEnumValue("priority")
  {
    if v == StrV(PriorityValue(Low)) then Success(Low)
    else if v == StrV(PriorityValue(Medium)) then Success(Medium)
    else if v == StrV(PriorityValue(High)) then Success(High)
    else Failure(BadEnumValue("priority"))
  }

  // ---- Task ----

  datatype Task = Task(
    id: int,
    title: string,
    description: string,
    priority: Priority,
    status: Status,
    createdDate: string,
    dueDate: string,               // YYYY-MM-DD
    completedDate: Option<string>)

  /** task.is_overdue() at `now`: false for a completed task, otherwise whether
      midnight of the YYYY-MM-DD due date lies strictly before `now`. */
  function IsOverdue(t: Task, now: Moment): Result<bool, Error> {
    if t.status == Completed then Success(false)
    else match ParseYMD(t.dueDate)
      case None => Failure(BadDateFormat)
      case Some(due) => Success(Timestamp(Midnight(due)) < Timestamp(now))
  }

  /** Never overdue once completed; otherwise overdue exactly when the due day
      is an earlier day, or today after 00:00:00; an unparsable date raises. */
  lemma IsOverdueIff(t: Task, now: Moment)
    ensures t.status == Completed ==> IsOverdue(t, now) == Success(false)
    ensures t.status != Completed ==> (IsOverdue(t, now).Failure? <==> ParseYMD(t.dueDate).None?)
    ensures forall due | t.status != Completed && ParseYMD(t.dueDate) == Some(due) ::
              IsOverdue(t, now) == Success(Precedes(due, now.date) || (due == now.date && now.micros > 0))
  {
    if t.status != Completed && ParseYMD(t.dueDate).Some? {
      MidnightComparedToNow(ParseYMD(t.dueDate).value, now);
    }
  }

  const Keys: set<string> := {"id", "title", "description", "priority", "status", "created_date", "due_date", "completed_date"}

  /** task.to_dict() */
  function ToDict(t: Task): (r: Dict)
    ensures r.Keys == Keys
  {
    map[
      "id" := IntV(t.id),
      "title" := StrV(t.title),
      "description" := StrV(t.description),
      "priority" := StrV(PriorityValue(t.priority)),
      "status" := StrV(StatusValue(t.status)),
      "created_date" := StrV(t.createdDate),
      "due_date" := StrV(t.dueDate),
      "completed_date" := OptStr(t.completedDate)
    ]
  }

  /** What each key of the snapshot holds. */
  lemma ToDictLookup(t: Task)
    ensures ToDict(t)["id"] == IntV(t.id)
    ensures ToDict(t)["title"] == StrV(t.title)
    ensures ToDict(t)["description"] == StrV(t.description)
    ensures ToDict(t)["priority"] == StrV(PriorityValue(t.priority))
    ensures ToDict(t)["status"] == StrV(StatusValue(t.status))
    ensures ToDict(t)["created_date"] == StrV(t.createdDate)
    ensures ToDict(t)["due_date"] == StrV(t.dueDate)
    ensures ToDict(t)["completed_date"] == OptStr(t.completedDate)
  {
  }

  /** Task.from_dict(data), with the keyword arguments evaluated in order and a
      value of the wrong type refused after those. */
  function FromDict(data: Dict): (r: Result<Task, Error>) {
    var completed := GetOr(data, "completed_date", NoneV);
    if "id" !in data then Failure(MissingKey("id"))
    else if "title" !in data then Failure(MissingKey("title"))
    else if "description" !in data then Failure(MissingKey("description"))
    else if "priority" !in data then Failure(MissingKey("priority"))
    else if ParsePriority(data["priority"]).Failure? then Failure(BadEnumValue("priority"))
    else if "status" !in data then Failure(MissingKey("status"))
    else if ParseStatus(data["status"]).Failure? then Failure(BadEnumValue("status"))
    else if "created_date" !in data then Failure(MissingKey("created_date"))
    else if "due_date" !in data then Failure(MissingKey("due_date"))
    else if !data["id"].IntV? then Failure(WrongType("id"))
    else if !data["title"].StrV? then Failure(WrongType("title"))
    else if !data["description"].StrV? then Failure(WrongType("description"))
    else if !data["created_date"].StrV? then Failure(WrongType("created_date"))
    else if !data["due_date"].StrV? then Failure(WrongType("due_date"))
    else if AsOptStr("completed_date", completed).Failure? then Failure(WrongType("completed_date"))
    else Success(Task(data["id"].i, data["title"].s, data["description"].s,
                      ParsePriority(data["priority"]).value, ParseStatus(data["status"]).value,
                      data["created_date"].s, data["due_date"].s,
                      AsOptStr("completed_date", completed).value))
  }

  /** from_dict(to_dict(t)) == t for all eight fields, a None completion date included. */
  lemma FromDictToDict(t: Task)
    ensures FromDict(ToDict(t)) == Success(t)
  {
    ToDictLookup(t);
  }

  /** An accepted dictionary agrees with the snapshot of its task on every key
      it holds, and without "completed_date" the task has none. */
  lemma ToDictFromDict(data: Dict, t: Task)
    requires FromDict(data) == Success(t)
    ensures Keys - {"completed_date"} <= data.Keys
    ensures forall k | k in data && k in ToDict(t) :: data[k] == ToDict(t)[k]
    ensures "completed_date" !in data ==> t.completedDate == None
  {
    ToDictLookup(t);
    var c := GetOr(data, "completed_date", NoneV);
    assert AsOptStr("completed_date", c) == Success(t.completedDate);
    forall k | k in data && k in ToDict(t) ensures data[k] == ToDict(t)[k] {
      assert k in Keys;
    }
  }

  // ---- The two entities side by side ----

  /** The status tokens of the two modules share only "В работе". */
  lemma StatusTokensDiffer()
    ensures M.StatusValue(M.Planned) != StatusValue(Planned)
    ensures M.StatusValue(M.Completed) != StatusValue(Completed)
    ensures M.StatusValue(M.InProgress) == StatusValue(InProgress)
    ensures forall s: Status, c: M.Status :: StatusValue(s) == M.StatusValue(c) <==> s == InProgress && c == M.InProgress
  {
    assert M.StatusValue(M.Planned)[12] != StatusValue(Planned)[12];
    assert M.StatusValue(M.Completed)[8] != StatusValue(Completed)[8];
  }

  /** A snapshot of a core task loads into the legacy entity exactly when the
      task is IN_PROGRESS and not CANCELLED; the reminder keys are ignored. */
  lemma CoreSnapshotIntoLegacy(t: M.Task)
    ensures FromDict(M.ToDict(t)).Success? <==> t.status == M.InProgress && t.priority != M.Cancelled
    ensures FromDict(M.ToDict(t)).Success? ==>
              var lt := FromDict(M.ToDict(t)).value;
              && lt.id == t.id && lt.title == t.title && lt.description == t.description
              && PriorityValue(lt.priority) == M.PriorityValue(t.priority)
              && lt.status == InProgress && lt.createdDate == t.createdDate
              && lt.dueDate == t.dueDate && lt.completedDate == t.completedDate
  {
    M.ToDictLookup(t);
    StatusTokensDiffer();
    var d := M.ToDict(t);
    assert ParsePriority(d["priority"]).Success? <==> t.priority != M.Cancelled;
    assert ParseStatus(d["status"]).Success? <==> t.status == M.InProgress;
    assert AsOptStr("completed_date", d["completed_date"]) == Success(t.completedDate);
  }

  /** A legacy snapshot loads into the core entity exactly when the task is
      IN_PROGRESS, and then with no reminder date and the reminder unsent. */
  lemma LegacySnapshotIntoCore(lt: Task)
    ensures M.FromDict(ToDict(lt)).Success? <==> lt.status == InProgress
    ensures M.FromDict(ToDict(lt)).Success? ==>
              var t := M.FromDict(ToDict(lt)).value;
              && t.id == lt.id && t.title == lt.title && t.description == lt.description
              && M.PriorityValue(t.priority) == PriorityValue(lt.priority)
              && t.status == M.InProgress && t.createdDate == lt.createdDate
              && t.dueDate == lt.dueDate && t.completedDate == lt.completedDate
              && t.reminderDate == None && !t.reminderSent
  {
    ToDictLookup(lt);
    StatusTokensDiffer();
    var d := ToDict(lt);
    assert "reminder_date" !in d && "reminder_sent" !in d;
    M.ParsePriorityIff(d["priority"], M.Low);
    assert M.ParsePriority(d["priority"]).Success?;
    assert M.ParseStatus(d["status"]).Success? <==> lt.status == InProgress;
    assert AsOptStr("completed_date", d["completed_date"]) == Success(lt.completedDate);
  }
}
