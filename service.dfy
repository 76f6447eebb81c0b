/** `TaskService`: find, save and delete forwarded to the task table, and the
    due-date parse check. The table is a map from id to row; `nextId` stands for
    the table's identity counter. */
module Service {
  import opened Wrappers
  import opened Entity

  /** The rows `findByUserOrderByPriorityAsc(user)` selects: those whose
      foreign key is the user's key. Their order is not modelled. */
  function TasksOf(rows: map<int, TaskData>, user: User): (r: map<int, TaskData>)
    ensures forall k :: k in r <==> k in rows && rows[k].user.Some? && rows[k].user.value.id == user.id
    ensures forall k :: k in r ==> r[k] == rows[k]
  {
    map k | k in rows && rows[k].user.Some? && rows[k].user.value.id == user.id :: rows[k]
  }

  class TaskService {
    /** The `tasks` table, keyed by id. */
    var rows: map<int, TaskData>
    /** The next id the table's identity column hands out. */
    var nextId: int
    /** `LocalDate.parse(date, ofPattern("yyyy-MM-dd"))` succeeding. Its
        calendar rules belong to java.time, so it is a parameter here. */
    const parsesAsDate: string -> bool

    /** Every row is stored under its own id, below the identity counter, and
        has an owner (the `user_id` column is not null). */
    ghost predicate Valid()
      reads this
    {
      forall k :: k in rows ==> k < nextId && rows[k].id == Some(k) && rows[k].user.Some?
    }

    constructor (parsesAsDate: string -> bool)
      ensures Valid() && rows == map[] && this.parsesAsDate == parsesAsDate
    {
      rows := map[];
      nextId := 1;
      this.parsesAsDate := parsesAsDate;
    }

    /** `findAllByUser`: the user's rows, exactly and unchanged. */
    method FindAllByUser(user: User) returns (r: map<int, TaskData>)
      ensures r == TasksOf(rows, user)
    {
      r := TasksOf(rows, user);
    }

    /** `findById`: an unknown id gives an empty result, not a failure; a known
        one gives a new entity object loaded from the row. */
    method FindById(id: int) returns (r: Option<Task>)
      ensures r.None? <==> id !in rows
      ensures r.Some? ==> fresh(r.value) && r.value.Data() == rows[id]
    {
      if id in rows {
        var row := rows[id];
        var t := new Task.WithFields(row.title, row.description, row.priority, row.dueDate, row.user);
        t.SetId(row.id);
        r := Some(t);
      } else {
        r := None;
      }
    }

    /** `save`: no validation of its own. A task without an id is inserted
        under a fresh id, which is written back into the entity; a task with an
        id is written under that id. The only refusal is the table's: a task
        without an owner is rejected and nothing changes. */
    method Save(t: Task) returns (r: Option<int>)
      requires Valid()
      modifies this, t
      ensures Valid()
      ensures old(t.user).None? ==> r.None? && unchanged(this, t)
      ensures old(t.user).Some? ==>
        var k := if old(t.id).Some? then old(t.id).value else old(nextId);
        && r == Some(k)
        && t.Data() == old(t.Data()).(id := Some(k))
        && rows == old(rows)[k := t.Data()]
        && nextId == if k < old(nextId) then old(nextId) else k + 1
    {
      if t.user.None? {
        return None;
      }
      var k: int;
      if t.id.Some? {
        k := t.id.value;
      } else {
        k := nextId;
        t.SetId(Some(k));
      }
      rows := rows[k := t.Data()];
      if nextId <= k {
        nextId := k + 1;
      }
      r := Some(k);
    }

    /** `deleteById`: removes the row if there is one; otherwise nothing
        happens and nothing fails. */
    method DeleteById(id: int)
      requires Valid()
      modifies this
      ensures Valid()
      ensures rows == old(rows) - {id} && nextId == old(nextId)
    {
      rows := rows - {id};
    }

    /** `isValidDate`: the parse's outcome as a boolean, a failure being
        `false`; it reads and changes no row. */
    method IsValidDate(date: string) returns (ok: bool)
      ensures ok == parsesAsDate(date)
    {
      ok := parsesAsDate(date);
    }
  }
}
