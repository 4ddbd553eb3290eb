# Task tracker core, modelled in Dafny

This project models the non-UI core of a small Russian-language task tracker:

- the task entity of `core/models.py`: the Status and Priority enumerations, the ten-field Task, its dictionary snapshot (`to_dict` / `from_dict`), `is_overdue` and `needs_reminder`;
- the task service of `services/task_service.py`: create, update, complete, change status, mark a reminder, delete, process reminders, and the queries (reminders, overdue, search, filter, sort);
- the overdue check and the notification throttle of `services/notification_service.py`;
- the older eight-field entity of the top-level `models.py`.

Storage by SQLite (`core/database.py`) is replaced by an in-memory `Database` class with the same contract:

- the rows are kept in id order;
- ids come from an AUTOINCREMENT counter;
- the table's CHECK constraints become a validity predicate.

A refused INSERT raises and writes nothing. A refused UPDATE returns false.

The clock is never read. `today` (a calendar date) and `now` (a date plus microseconds since midnight) are parameters. Python exceptions are `Failure` values of one `Error` type, raised in the order the code evaluates its steps.

Files, one module each:

| file | module | what it holds |
|---|---|---|
| `wrappers.dfy` | `Wrappers` | `Option`, `Result` |
| `errors.dfy` | `Errors` | the exceptions |
| `text.dfy` | `Text` | `strip`, `lower`, substring test |
| `dates.dfy` | `Dates` | the proleptic Gregorian calendar, `strptime` for `%d.%m.%Y` and `%Y-%m-%d`, `strftime`, `timedelta(days=…)`, moments |
| `seqs.dfy` | `Seqs` | list comprehensions, including ones whose test raises |
| `sorting.dfy` | `Sorting` | Python's stable `sorted` with a key that may raise, and `reverse=True` |
| `snapshot.dfy` | `Snapshot` | the dictionaries |
| `core_models.dfy` | `Models` | the core entity |
| `storage.dfy` | `Storage` | the tasks table |
| `task_service.dfy` | `Service` | the task service |
| `notification_service.dfy` | `Notifications` | the notification service |
| `legacy_models.dfy` | `LegacyModels` | the legacy entity |

The main proved facts:

- The snapshot round trip holds in both directions.
- `strptime` accepts exactly the spellings its `%d`, `%m` and `%Y` directives accept. Reading back what `strftime` printed gives the date back.
- A task due today is overdue as soon as the clock passes 00:00:00.
- The service methods keep the table's constraints and id order. Each one states its new table exactly.
- `process_reminders` marks the due reminders in order, up to the first due task with a blank title, where `update_task` raises and the rest stay due. When no due task has a blank title, all are marked and none of them is due again.
- Every `sort_tasks` order is a stable permutation in calendar or priority order. Sorting by priority raises exactly when a task is CANCELLED.
- The notification throttle shows again exactly when the time since the last check, modulo whole days, is at least an hour. So a check a day and ten minutes later is suppressed.
- The two entities accept each other's snapshots only for IN_PROGRESS tasks. The Planned and Completed tokens differ between the two modules ("Запланирована" against "Запланировано").

## Model

| member | source | states |
|---|---|---|
| Models.GetAll | core/models.py:25-28 | the three status values, each at its member's position in the class body, with no repeats |
| Models.ParseStatus | core/models.py:21-23 | `Status(v)` succeeds exactly for one of the three tokens, returns the member with that value, and otherwise raises ValueError |
| Models.ParseStatusIff | core/models.py:14-23 | `Status(v) == s` exactly when `v` is `s.value` |
| Models.ParsePriority | core/models.py:37-40 | `Priority(v)` succeeds exactly for the four tokens, returning the member whose value is `v`, and otherwise raises ValueError |
| Models.ParsePriorityIff | core/models.py:31-40 | `Priority(v) == p` exactly when `v` is `p.value`; it fails exactly for values outside the four tokens, "отменено" among them |
| Models.ToDict | core/models.py:83-94 | the snapshot has exactly the ten field keys |
| Models.FromDictToDict | core/models.py:74-156 | `from_dict(to_dict(t)) == t` for every task, with all ten fields, None values and the reminder flag included |
| Models.ToDictFromDict | core/models.py:145-156 | an accepted dictionary holds the seven required keys, agrees with the snapshot of its task on every key it has, and missing optional keys give the defaults |
| Models.FromDictDefaults | core/models.py:153-155 | without the optional keys, `completed_date` and `reminder_date` are None and `reminder_sent` is False |
| Models.FromDictBadPriority | core/models.py:149 | an unknown priority token raises ValueError once the keys evaluated before it exist |
| Models.FromDictBadStatus | core/models.py:150 | an unknown status token raises ValueError once the keys and the priority before it are accepted |
| Models.IsOverdueIff | core/models.py:116-130 | never overdue when COMPLETED; otherwise overdue exactly when the due day is an earlier day, or is today with the clock past 00:00:00; an unparsable due date raises |
| Models.NeedsReminderIff | core/models.py:96-114 | no reminder when COMPLETED, or when the reminder date is None or empty; otherwise due exactly when the reminder day is today or earlier and the reminder is unsent; an unparsable date raises |
| Models.SentReminderNeverRepeats | core/models.py:112-114 | once `reminder_sent` is set, `needs_reminder` is never true again |
| Dates.ParseDMYIff | core/models.py:129 | `strptime(s, '%d.%m.%Y')` yields `d` exactly when `s` is day, '.', month, '.', a four-digit year for a valid date, in any spelling the directives accept: two digits, one digit, or a space-padded day |
| Dates.ParseYMDIff | models.py:38 | the same for `'%Y-%m-%d'` |
| Dates.ParseFormatDMY | services/task_service.py:28-30 | parsing what `strftime('%d.%m.%Y')` printed gives the date back |
| Dates.ParseFormatYMD | models.py:38 | the legacy parser accepts the canonical zero-padded `YYYY-MM-DD` spelling of every date and returns that date |
| Dates.AddDays | services/task_service.py:29 | `d ± timedelta(days=k)` is the date whose day number moves by `k`; it is absent (OverflowError) exactly when that number leaves years 1..9999 |
| Dates.DaysBeforeYearClosedForm | core/models.py:130 | the day count behind every date comparison agrees with the Gregorian closed form 365(y-1) + (y-1)/4 - (y-1)/100 + (y-1)/400 days before year y |
| Dates.OrdinalOrderIff | core/models.py:130 | day numbers order dates as the calendar does, and equal day numbers mean equal dates |
| Dates.MidnightComparedToNow | core/models.py:129-130 | midnight of a day is strictly before `now` exactly for an earlier day, or for today after 00:00:00; it is at or before `now` exactly when the day is not later |
| Dates.FormatHasTwoDigitFields | core/database.py:60 | every date `strftime('%d.%m.%Y')` prints passes the due-date GLOB |
| Dates.TwoDigitFieldsCanonical | core/database.py:60 | a string that passes the GLOB and parses is exactly the printed form of its date |
| Dates.Split3Iff | core/models.py:129 | splitting at the two separators is exact both ways |
| Text.StripIsEmptyIffBlank | services/task_service.py:16 | `not s.strip()` holds exactly for the all-whitespace strings |
| Text.ContainsIffOccurs | services/task_service.py:116 | `q in s` holds exactly when `q` occurs at some offset of `s` |
| Seqs.FilterMembership | services/task_service.py:127 | an element is in the comprehension's result exactly when it is in the input and passes the test |
| Seqs.FilterIsSubsequence | services/task_service.py:114-117 | a comprehension keeps its elements in input order |
| Seqs.FilterCount | services/task_service.py:127 | every kept element is kept as often as it occurs |
| Seqs.FilterFilter | services/task_service.py:126-130 | two comprehensions in a row equal one on the conjunction of their tests |
| Seqs.FilterOkSuccess | services/task_service.py:97 | a comprehension whose test may raise succeeds exactly when every test succeeds, and then keeps the elements whose test returned true |
| Seqs.FilterOkFailure | services/task_service.py:97 | the exception raised is the first element's in list order |
| Sorting.SortBy | services/task_service.py:139 | `sorted` returns a permutation of its input in key order |
| Sorting.SortByStable | services/task_service.py:139 | for each key, the elements with that key keep their input order |
| Sorting.SortBySorted | services/task_service.py:139 | an input already in key order comes back unchanged |
| Sorting.KeysOfFailure | services/task_service.py:144 | the first key that raises, in list order, decides the exception |
| Sorting.SortOnSpec | services/task_service.py:139-146 | `sorted` with a raising key succeeds exactly when every key does; it returns a stable permutation, ascending, or descending with `reverse=True` |
| Storage.FindByIdFindsRow | core/database.py:208 | with distinct ids, `WHERE id = ?` finds the row with that id |
| Storage.UpdateRowsFind | core/database.py:141-151 | after the UPDATE, the row under `t.id` holds `t` with its stored creation date, every other id finds what it found before, and the ids stay in order |
| Storage.WithoutIdFind | core/database.py:171 | after the DELETE, no row has the id, every other id finds what it found before, and the remaining rows keep their order |
| Storage.Database.constructor | core/database.py:48-61 | a new table is empty and satisfies the constraints |
| Storage.Database.CreateTask | core/database.py:68-95 | a row the CHECK constraints refuse raises IntegrityError and leaves the table unchanged; otherwise the row is appended under the next id, which is returned and was unused before |
| Storage.Database.GetAllTasks | core/database.py:97-126 | the rows come back in increasing id order |
| Storage.Database.GetTaskById | core/database.py:195-228 | the row with the id if there is one, and None exactly when no row has it |
| Storage.Database.UpdateTask | core/database.py:128-156 | true exactly when a row has the id and the new row passes the constraints; the table is then updated, and otherwise unchanged |
| Storage.Database.DeleteTask | core/database.py:158-176 | true exactly when a row had the id; that row is gone and the rest are unchanged |
| Service.NewTaskErrors | services/task_service.py:16-30 | create_task raises for a blank title first, then for an unparsable due date, then for a reminder date off the calendar, and for nothing else |
| Service.NewTaskRecord | services/task_service.py:32-42 | the new record is PLANNED, with stripped title and description, created today, not completed, reminder unsent, and a reminder date exactly when `reminder_days` is non-zero |
| Service.NewTaskReminder | services/task_service.py:27-30 | the reminder date reads back as the day exactly `reminder_days` days before the due date |
| Service.ReminderForDay | services/task_service.py:28-30 | the same fact, for the computed reminder date on its own |
| Service.CompletionInvariant | services/task_service.py:71-93 | after either completion path, a completion date is present exactly when the status is COMPLETED; complete_task always writes today; change_status keeps an existing completion date; no other field changes |
| Service.ChangesKeepAdmissible | services/task_service.py:76-104 | completing, changing status and marking a reminder keep a row within the CHECK constraints |
| Service.MarkOneRow | services/task_service.py:99-105 | writing back a found task with the flag set changes only that row's flag |
| Service.SetReminderSentTwice | services/task_service.py:51-54 | marking one set of ids and then another equals marking their union |
| Service.RemindersSpec | services/task_service.py:95-97 | get_reminders raises exactly when some task's `needs_reminder` raises; otherwise it returns, in order, exactly the tasks that need a reminder |
| Service.OverdueSpec | services/task_service.py:119-121 | get_overdue raises exactly when some `is_overdue` raises; otherwise it returns, in order, exactly the non-completed overdue tasks |
| Service.ProcessedRemindersAreCleared | services/task_service.py:47-56 | once every due reminder is marked, no task needs a reminder any more |
| Service.SearchSpec | services/task_service.py:107-117 | a blank query returns every task; otherwise the result is the tasks, in order, whose lower-cased title or description contains the stripped, lower-cased query |
| Service.FilterTasksSpec | services/task_service.py:123-132 | the result is the order-preserving subsequence matching the given status and the given priority, and the input itself when neither is given |
| Service.SortByDueDate | services/task_service.py:138-139 | a stable permutation in calendar order of the due dates; raises exactly when a due date does not parse |
| Service.SortByDueDateDesc | services/task_service.py:140-141 | the same in reverse calendar order, with equal dates in input order |
| Service.SortByPriorityFails | services/task_service.py:142-144 | sorting by priority raises KeyError exactly when some task is CANCELLED |
| Service.SortByPriority | services/task_service.py:142-144 | otherwise a stable permutation with HIGH before MEDIUM before LOW |
| Service.FirstFailingKey | services/task_service.py:144 | when some key raises, the sort raises the exception of the first one that does |
| Service.SortByCreatedDate | services/task_service.py:134-148 | "created_date" and any other value: newest creation date first, as a permutation that keeps equal dates in input order; an empty list comes back as it is; raises exactly when a creation date does not parse |
| Service.TaskService.constructor | services/task_service.py:11-12 | the service works on the given table |
| Service.TaskService.GetAllTasks | services/task_service.py:57-58 | the stored rows through the table's own get_all_tasks, in increasing id order |
| Service.TaskService.CreateTask | services/task_service.py:14-45 | validation errors write nothing; a record the table refuses raises; otherwise the record is stored under the next id and returned as read back |
| Service.TaskService.UpdateTask | services/task_service.py:63-66 | a blank title raises before storage is touched; otherwise the result is the storage update's |
| Service.TaskService.DeleteTask | services/task_service.py:68-69 | the storage delete |
| Service.TaskService.CompleteTask | services/task_service.py:71-78 | false and no change for a missing id; otherwise the stored row becomes COMPLETED today, or update_task raises for a blank stored title |
| Service.TaskService.ChangeStatus | services/task_service.py:80-93 | false and no change for a missing id; otherwise the stored row takes the status, with the completion-date rule |
| Service.TaskService.MarkReminderSent | services/task_service.py:99-105 | false and no change for a missing id; otherwise only that row's reminder flag is set |
| Service.TaskService.ProcessReminders | services/task_service.py:47-56 | when get_reminders raises, nothing is marked; otherwise the due reminders are marked in order up to the first blank title (where update_task raises), and the count is the number of due reminders |
| Service.ReminderStep | services/task_service.py:51-54 | each round finds the due task still stored under its id and extends the set of marked ids by exactly that id |
| Notifications.CheckOverdueIsGetOverdue | services/notification_service.py:21 | the explicit COMPLETED test is redundant, so check_overdue_tasks returns and raises exactly what get_overdue does |
| Notifications.CheckOverdueSpec | services/notification_service.py:15-24 | the check raises exactly when an open task's due date is unparsable; otherwise it returns, in order, exactly the non-completed overdue tasks |
| Notifications.NotificationService.constructor | services/notification_service.py:10-13 | no check has happened yet |
| Notifications.NotificationService.CheckOverdueTasks | services/notification_service.py:15-24 | the loop returns the comprehension over the stored tasks, which equals get_overdue |
| Notifications.DaysOverdueSpec | services/notification_service.py:108-116 | 0 for an unparsable date; positive exactly for a due day before today, and then that many days forward from the due day is today |
| Notifications.DaysOverdueOfOverdueTask | services/notification_service.py:108-116 | a task the check reports shows 0 days exactly when it is due today |
| Notifications.PriorityColorSpec | services/notification_service.py:118-125 | HIGH, MEDIUM and LOW are red, orange and yellow, which are distinct; CANCELLED and every other token is black |
| Notifications.ShouldShowIff | services/notification_service.py:237-244 | the first call shows; after that it shows exactly when the elapsed time, modulo whole days, is at least an hour |
| Notifications.ShouldShowCases | services/notification_service.py:241 | under an hour: quiet; an hour up to a day: shows; a day plus under an hour: quiet; the clock set back by a microsecond: shows |
| Notifications.NoRepeatAtSameMoment | services/notification_service.py:241-243 | a check that just showed does not show again at the same moment |
| Notifications.NotificationService.ShouldShowNotification | services/notification_service.py:237-244 | returns the throttle condition for the recorded last check; when it shows, it records `now`, and otherwise it changes nothing |
| LegacyModels.GetAll | models.py:12-14 | the three legacy status values in declaration order, with no repeats |
| LegacyModels.ParseStatus | models.py:7-10 | `Status(v)` succeeds exactly for the three legacy tokens |
| LegacyModels.ParsePriority | models.py:17-20 | `Priority(v)` succeeds exactly for the three tokens; there is no CANCELLED |
| LegacyModels.IsOverdueIff | models.py:35-39 | never overdue when COMPLETED; otherwise overdue exactly when the YYYY-MM-DD due day is earlier, or today after 00:00:00 |
| LegacyModels.ToDict | models.py:42-52 | the snapshot has exactly the eight field keys |
| LegacyModels.FromDictToDict | models.py:42-66 | `from_dict(to_dict(t)) == t` for all eight fields, a None completion date included |
| LegacyModels.ToDictFromDict | models.py:54-66 | an accepted dictionary agrees with the snapshot on its keys; without "completed_date" the task has none |
| LegacyModels.StatusTokensDiffer | models.py:7-10 | the legacy and core status tokens share only "В работе" |
| LegacyModels.CoreSnapshotIntoLegacy | models.py:54-66 | a core snapshot loads into the legacy entity exactly when the task is IN_PROGRESS and not CANCELLED, with the shared fields preserved |
| LegacyModels.LegacySnapshotIntoCore | core/models.py:145-156 | a legacy snapshot loads into the core entity exactly when the task is IN_PROGRESS, with the shared fields preserved, no reminder date and the reminder unsent |

## Left out

- The Tk user interface is not modelled: windows, dialogs, `show_overdue_notification`, `_mark_selected_completed`, `_extend_deadline`, `_refresh_notification_list`, `_center_window`, and the `after` scheduling of `show_periodic_notifications`. It is UI and timer plumbing with no computed result.
- SQLite I/O is not modelled. The connection, the file, `sqlite3.Error` other than the CHECK constraints, and `get_all_tasks` returning `[]` after an I/O error are all left out. The table is a sequence of rows in memory.
- Storage keeps Task values directly. Reading a row back goes through `from_dict` over the row's dictionary, which Models.FromDictToDict shows is the identity.
- The JSON text of `export_to_json` is not modelled; the dictionary snapshot is.
- `datetime.now()` and `print` are not modelled. The clock is a parameter. The print in `process_reminders` is output only.
- Service.TaskService.CreateTask returns the stored task, not `Optional[Task]`. `get_task_by_id` after a successful insert always finds the row in this model.
- The `reminder_days` truthiness check is modelled for integers only. A non-integer argument is out of scope.
- Text.LowerChar lower-cases only ASCII and the Cyrillic capitals U+0400..U+042F. Other scripts and `str.lower()`'s special cases are not modelled.
- `strptime` digits are modelled as ASCII only. Python's regex `\d` also accepts other Unicode decimal digits.
- Dates.FormatDMY pads years below 1000 to four digits; the C library's `strftime` prints such a year without padding ("31.12.999"). So for years below 1000 the model's created, completion and reminder dates parse where the program's may not: a reminder one day before 01.01.1000 is "31.12.0999" here, which parses, while the program stores "31.12.999", on which `needs_reminder`, `get_reminders` and `process_reminders` raise.
- Models.FromDict refuses a value of the wrong Python type with a `WrongType` error after the key and enum checks. Python's dataclass would store any type. Such dictionaries never arise from the table or from `to_dict`.
- A fixed-width integer overflow of ids is not modelled. SQLite ids are 64-bit; here they are unbounded.
