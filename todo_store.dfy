/**
 * The todo routes of the production server: an SQLite table `todos`
 * (id, title, category, completed, created_at, updated_at) behind
 * GET/POST/PUT/DELETE `/api/todos`.  The table is a map from id to row and
 * a counter for the next AUTOINCREMENT id, which is never reused.
 */
module TodoStore {
  import opened Js
  import opened Http
  import Table

  const TitleRequired := "Title is required"
  const NoFieldSupplied := "Title or completed status is required"
  const NotFound := "Todo not found"
  const DeletedMessage := "Todo deleted successfully"
  /** Column default of `category` in the production schema. */
  const DefaultCategory := "General"

  /** One row; timestamps are abstract instants of CURRENT_TIMESTAMP. */
  datatype Todo = Todo(
    id: int,
    title: string,
    category: string,
    completed: bool,
    createdAt: int,
    updatedAt: int)

  function CreatedAtKey(t: Todo): Table.SortKey
  {
    Table.Num(t.createdAt)
  }

  /** `out` holds every row of `rows` exactly once and nothing else. */
  ghost predicate ListsEachOnce(out: seq<Todo>, rows: map<int, Todo>)
  {
    && (forall i :: 0 <= i < |out| ==> out[i].id in rows && rows[out[i].id] == out[i])
    && (forall id :: id in rows ==> multiset(out)[rows[id]] == 1)
  }

  /** `out` is ordered by `created_at DESC`. */
  ghost predicate NewestFirst(out: seq<Todo>)
  {
    forall i, j :: 0 <= i < j < |out| ==> out[i].createdAt >= out[j].createdAt
  }

  class TodoTable {
    var rows: map<int, Todo>
    var nextId: int
    /** Every id AUTOINCREMENT has handed out, including those of deleted rows. */
    ghost var issued: set<int>

    /** Every row sits under its own id, an issued one, and every issued id is below `nextId`. */
    ghost predicate Valid()
      reads this
    {
      && 1 <= nextId
      && rows.Keys <= issued
      && (forall id :: id in issued ==> 1 <= id < nextId)
      && (forall id :: id in rows ==> rows[id].id == id)
    }

    constructor ()
      ensures Valid() && rows == map[] && nextId == 1 && issued == {}
    {
      rows := map[];
      nextId := 1;
      issued := {};
    }

    /** GET /api/todos: every row once, `ORDER BY created_at DESC`. */
    method List() returns (r: Reply<Todo>)
      requires Valid()
      ensures r.status == 200 && r.body.Records?
      ensures ListsEachOnce(r.body.records, rows)
      ensures NewestFirst(r.body.records)
    {
      var scanned := Table.ScanRows(rows, nextId);
      var sorted := Table.SortRows(scanned, CreatedAtKey, false);
      forall i | 0 <= i < |sorted|
        ensures sorted[i].id in rows && rows[sorted[i].id] == sorted[i]
      {
        assert sorted[i] in multiset(scanned);
      }
      r := Reply(200, Records(sorted));
    }

    /** POST /api/todos: a truthy title is inserted with the schema's defaults. */
    method Create(title: Option<string>, now: int) returns (r: Reply<Todo>)
      requires Valid()
      modifies this
      ensures Valid()
      ensures Falsy(title) ==>
        && r == Reply(400, Error(TitleRequired))
        && rows == old(rows) && nextId == old(nextId) && issued == old(issued)
      ensures !Falsy(title) ==>
        var t := Todo(old(nextId), title.value, DefaultCategory, false, now, now);
        && t.id !in old(rows)
        && (forall id :: id in old(issued) ==> id < t.id)
        && issued == old(issued) + {t.id}
        && rows == old(rows)[t.id := t]
        && nextId == old(nextId) + 1
        && r == Reply(201, Record(t))
    {
      if Falsy(title) {
        return Reply(400, Error(TitleRequired));
      }
      var id := nextId;
      rows := rows[id := Todo(id, title.value, DefaultCategory, false, now, now)];
      nextId := nextId + 1;
      issued := issued + {id};
      r := Reply(201, Record(rows[id]));
    }

    /**
     * PUT /api/todos/:id: overwrites the supplied fields among title and
     * completed and refreshes updated_at; zero affected rows is a 404.
     */
    method Update(id: int, title: Option<string>, completed: Option<bool>, now: int) returns (r: Reply<Todo>)
      requires Valid()
      modifies this
      ensures Valid() && nextId == old(nextId) && issued == old(issued)
      ensures title.None? && completed.None? ==>
        r == Reply(400, Error(NoFieldSupplied)) && rows == old(rows)
      ensures (title.Some? || completed.Some?) && id !in old(rows) ==>
        r == Reply(404, Error(NotFound)) && rows == old(rows)
      ensures (title.Some? || completed.Some?) && id in old(rows) ==>
        var t := old(rows)[id];
        var u := Todo(id,
                      if title.Some? then title.value else t.title,
                      t.category,
                      if completed.Some? then completed.value else t.completed,
                      t.createdAt,
                      now);
        rows == old(rows)[id := u] && r == Reply(200, Record(u))
    {
      if title.None? && completed.None? {
        return Reply(400, Error(NoFieldSupplied));
      }
      var changes := 0;
      if id in rows {
        var t := rows[id];
        if title.Some? && completed.Some? {
          t := t.(title := title.value, completed := completed.value, updatedAt := now);
        } else if title.Some? {
          t := t.(title := title.value, updatedAt := now);
        } else {
          t := t.(completed := completed.value, updatedAt := now);
        }
        rows := rows[id := t];
        changes := 1;
      }
      if changes == 0 {
        return Reply(404, Error(NotFound));
      }
      r := Reply(200, Record(rows[id]));
    }

    /** DELETE /api/todos/:id: a hard delete; zero affected rows is a 404. */
    method Delete(id: int) returns (r: Reply<Todo>)
      requires Valid()
      modifies this
      ensures Valid() && nextId == old(nextId) && issued == old(issued)
      ensures id in old(rows) ==> rows == old(rows) - {id} && r == Reply(200, Message(DeletedMessage))
      ensures id !in old(rows) ==> rows == old(rows) && r == Reply(404, Error(NotFound))
    {
      if id !in rows {
        return Reply(404, Error(NotFound));
      }
      rows := rows - {id};
      r := Reply(200, Message(DeletedMessage));
    }
  }

  /** Deleting a freshly created todo twice answers 200 and then 404. */
  method DeleteTwiceScenario(title: string, now: int) returns (first: nat, second: nat)
    requires title != ""
    ensures first == 200 && second == 404
  {
    var table := new TodoTable();
    var created := table.Create(Some(title), now);
    var id := created.body.record.id;
    var r1 := table.Delete(id);
    var r2 := table.Delete(id);
    first, second := r1.status, r2.status;
  }

  /**
   * Create refuses an empty title, but PUT only checks that a title is
   * present, so an existing todo can be renamed to "".
   */
  method EmptyTitleScenario(now: int) returns (createStatus: nat, updateStatus: nat, renamed: string)
    ensures createStatus == 400 && updateStatus == 200 && renamed == ""
  {
    var table := new TodoTable();
    var refused := table.Create(Some(""), now);
    var created := table.Create(Some("Buy milk"), now);
    var updated := table.Update(created.body.record.id, Some(""), None, now);
    createStatus, updateStatus, renamed := refused.status, updated.status, updated.body.record.title;
  }

  /** An id is never reused: a todo created after a delete gets a new id. */
  method NoIdReuseScenario(title: string, now: int) returns (firstId: int, secondId: int)
    requires title != ""
    ensures firstId != secondId
  {
    var table := new TodoTable();
    var first := table.Create(Some(title), now);
    firstId := first.body.record.id;
    var _ := table.Delete(firstId);
    var second := table.Create(Some(title), now);
    secondId := second.body.record.id;
  }

  /** A created todo appears in the next listing with the title given and the defaults. */
  method CreateThenListScenario(title: string, now: int) returns (created: Todo, listed: seq<Todo>)
    requires title != ""
    ensures created in listed
    ensures created.title == title && created.category == DefaultCategory && !created.completed
  {
    var table := new TodoTable();
    var r := table.Create(Some(title), now);
    created := r.body.record;
    var l := table.List();
    listed := l.body.records;
    assert multiset(listed)[table.rows[created.id]] == 1;
  }

  /** On a new table, PUT without fields is a 400 and PUT of any id a 404. */
  method UpdateErrorsScenario(id: int, now: int) returns (emptyStatus: nat, unknownStatus: nat)
    ensures emptyStatus == 400 && unknownStatus == 404
  {
    var table := new TodoTable();
    var empty := table.Update(id, None, None, now);
    var unknown := table.Update(id, None, Some(true), now);
    emptyStatus, unknownStatus := empty.status, unknown.status;
  }
}
