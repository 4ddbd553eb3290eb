/** The contract of core/database.py, kept in memory: the tasks table as a
    sequence of rows in id order, the AUTOINCREMENT counter, and the table's
    CHECK constraints as a validity predicate on rows. */
module Storage {
  import opened Wrappers
  import opened Errors
  import opened Dates
  import opened Models
  import opened Seqs

  const MaxTitleLength := 500
  const MaxDescriptionLength := 2000

  /** The CHECK constraints of the tasks table: the title and description
      lengths, a priority among the three storable tokens (so CANCELLED is
      refused), and a due date matching '[0-9][0-9].[0-9][0-9].[0-9][0-9][0-9][0-9]'.
      The status constraint always holds for a Status value. */
  predicate Admissible(t: Task) {
    && |t.title| <= MaxTitleLength
    && |t.description| <= MaxDescriptionLength
    && t.priority != Cancelled
    && TwoDigitFieldsDMY(t.dueDate)
  }

  predicate IdsIncreasing(rows: seq<Task>) {
    forall i, j | 0 <= i < j < |rows| :: rows[i].id < rows[j].id
  }

  /** `SELECT * FROM tasks WHERE id = ?` */
  function FindById(rows: seq<Task>, id: int): (r: Option<Task>)
    ensures r.Some? ==> r.value in rows && r.value.id == id
    ensures r.None? <==> forall i | 0 <= i < |rows| :: rows[i].id != id
  {
    if rows == [] then None
    else if rows[|rows| - 1].id == id then Some(rows[|rows| - 1])
    else FindById(rows[..|rows| - 1], id)
  }

  /** With distinct ids, looking up a row's id finds that row. */
  lemma {:induction false} FindByIdFindsRow(rows: seq<Task>, i: int)
    requires IdsIncreasing(rows) && 0 <= i < |rows|
    ensures FindById(rows, rows[i].id) == Some(rows[i])
    decreases |rows|
  {
    if i < |rows| - 1 {
      assert rows[i].id < rows[|rows| - 1].id;
      FindByIdFindsRow(rows[..|rows| - 1], i);
    }
  }

  /** `UPDATE tasks SET <every column but id and created_date> WHERE id = ?` */
  function UpdateRows(rows: seq<Task>, t: Task): (r: seq<Task>)
    ensures |r| == |rows|
    ensures forall i | 0 <= i < |rows| :: r[i].id == rows[i].id && r[i].createdDate == rows[i].createdDate
  {
    seq(|rows|, i requires 0 <= i < |rows| =>
      if rows[i].id == t.id then t.(createdDate := rows[i].createdDate) else rows[i])
  }

  /** After the update the row under `t.id` holds `t` with its stored creation
      date, and every other id finds what it found before. */
  lemma UpdateRowsFind(rows: seq<Task>, t: Task, id: int)
    requires IdsIncreasing(rows)
    ensures IdsIncreasing(UpdateRows(rows, t))
    ensures FindById(UpdateRows(rows, t), id) ==
              if id != t.id then FindById(rows, id)
              else match FindById(rows, id)
                case None => None
                case Some(old_) => Some(t.(createdDate := old_.createdDate))
  {
    var r := UpdateRows(rows, t);
    match FindById(rows, id)
    case None =>
    case Some(_) =>
      var i :| 0 <= i < |rows| && rows[i].id == id;
      FindByIdFindsRow(rows, i);
      FindByIdFindsRow(r, i);
  }

  function IdIsNot(id: int): Task -> bool {
    (t: Task) => t.id != id
  }

  /** `DELETE FROM tasks WHERE id = ?` */
  function WithoutId(rows: seq<Task>, id: int): seq<Task> {
    Filter(rows, IdIsNot(id))
  }

  lemma {:induction false} FilterKeepsIdsIncreasing(rows: seq<Task>, p: Task -> bool)
    requires IdsIncreasing(rows)
    ensures IdsIncreasing(Filter(rows, p))
    decreases |rows|
  {
    if rows != [] {
      var init, x := rows[..|rows| - 1], rows[|rows| - 1];
      FilterKeepsIdsIncreasing(init, p);
      var f := Filter(init, p);
      assert forall i | 0 <= i < |f| :: f[i] in init;
      assert forall i | 0 <= i < |f| :: f[i].id < x.id;
      assert Filter(rows, p) == f + (if p(x) then [x] else []);
    }
  }

  /** After the delete no row has the id, every other id finds what it found
      before, and the remaining rows keep their order. */
  lemma {:induction false} WithoutIdFind(rows: seq<Task>, id: int, k: int)
    ensures FindById(WithoutId(rows, id), k) == if k == id then None else FindById(rows, k)
    ensures IsSubsequence(WithoutId(rows, id), rows)
    ensures IdsIncreasing(rows) ==> IdsIncreasing(WithoutId(rows, id))
    decreases |rows|
  {
    FilterIsSubsequence(rows, IdIsNot(id));
    if IdsIncreasing(rows) {
      FilterKeepsIdsIncreasing(rows, IdIsNot(id));
    }
    if rows != [] {
      var init, x := rows[..|rows| - 1], rows[|rows| - 1];
      WithoutIdFind(init, id, k);
      if x.id != id {
        assert WithoutId(rows, id) == WithoutId(init, id) + [x];
      } else {
        assert WithoutId(rows, id) == WithoutId(init, id);
      }
    }
  }

  /** The tasks table. */
  class Database {
    /** The rows, in ascending id order: what `SELECT * FROM tasks` returns. */
    var rows: seq<Task>
    /** The id AUTOINCREMENT hands out next; it never goes back. */
    var nextId: int

    predicate Valid()
      reads this
    {
      && nextId >= 1
      && IdsIncreasing(rows)
      && (forall i | 0 <= i < |rows| :: 1 <= rows[i].id < nextId && Admissible(rows[i]))
    }

    /** A fresh, empty table. */
    constructor()
      ensures Valid() && rows == [] && nextId == 1
    {
      rows := [];
      nextId := 1;
    }

    /** create_task: INSERT the task under a fresh id and return that id. A row
        the CHECK constraints refuse raises IntegrityError and inserts nothing. */
    method CreateTask(t: Task) returns (r: Result<int, Error>)
      requires Valid()
      modifies this
      ensures Valid()
      ensures !Admissible(t) ==> r == Failure(ConstraintViolation) && rows == old(rows) && nextId == old(nextId)
      ensures Admissible(t) ==>
                && r == Success(old(nextId))
                && rows == old(rows) + [t.(id := old(nextId))]
                && nextId == old(nextId) + 1
      ensures r.Success? ==> FindById(old(rows), r.value).None? && FindById(rows, r.value) == Some(t.(id := r.value))
    {
      if !Admissible(t) {
        return Failure(ConstraintViolation);
      }
      var id := nextId;
      rows := rows + [t.(id := id)];
      nextId := nextId + 1;
      r := Success(id);
    }

    /** get_all_tasks: every row, in id order. */
    function GetAllTasks(): (r: seq<Task>)
      reads this
      requires Valid()
      ensures IdsIncreasing(r)
    {
      rows
    }

    /** get_task_by_id */
    function GetTaskById(id: int): (r: Option<Task>)
      reads this
      ensures r.Some? ==> r.value in rows && r.value.id == id
      ensures r.None? <==> forall i | 0 <= i < |rows| :: rows[i].id != id
    {
      FindById(rows, id)
    }

    /** update_task: rewrite every column but id and created_date of the row
        with `t.id`. False when no row has that id, and also when the new row
        breaks a CHECK constraint (the IntegrityError is caught); the table is
        then left as it was. */
    method UpdateTask(t: Task) returns (ok: bool)
      requires Valid()
      modifies this
      ensures Valid()
      ensures ok <==> FindById(old(rows), t.id).Some? && Admissible(t)
      ensures ok ==> rows == UpdateRows(old(rows), t)
      ensures !ok ==> rows == old(rows)
      ensures nextId == old(nextId)
    {
      if FindById(rows, t.id).None? || !Admissible(t) {
        return false;
      }
      rows := UpdateRows(rows, t);
      ok := true;
    }

    /** delete_task: remove the row with `id`; false when there is none. */
    method DeleteTask(id: int) returns (ok: bool)
      requires Valid()
      modifies this
      ensures Valid()
      ensures ok <==> FindById(old(rows), id).Some?
      ensures rows == WithoutId(old(rows), id)
      ensures nextId == old(nextId)
    {
      ok := FindById(rows, id).Some?;
      WithoutIdFind(rows, id, id);
      rows := WithoutId(rows, id);
    }
  }
}
