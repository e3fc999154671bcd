/**
 * The richer todo routes defined inline in the backend test suite: a table
 * that also stores priority and due_date, a listing sorted by a
 * caller-chosen column and annotated with `is_overdue`, and a create that
 * validates title, priority and due date in that order.  Dates are day
 * numbers; `today` is the caller's local today.
 */
module DueDateApi {
  import opened Js
  import opened Http
  import Table

  const TitleRequired := "Title is required"
  const PriorityInvalid := "Priority must be one of: Low, Medium, High"
  const DateFormatInvalid := "Invalid due date format. Please use YYYY-MM-DD format."
  const DateInPast := "Due date cannot be in the past."

  const DefaultCategory := "General"
  const DefaultPriority := "Medium"
  const ValidPriorities := ["Low", "Medium", "High"]

  /** The `dueDate` of a request: falsy, or a string that `new Date` parses to a day or not. */
  datatype DueDateInput = NoDueDate | DueDateText(parsed: Option<int>)

  datatype Task = Task(
    id: int,
    title: string,
    category: string,
    priority: string,
    completed: bool,
    dueDate: Option<int>,
    createdAt: int,
    updatedAt: int)

  /** A listed row together with its derived `is_overdue`. */
  datatype TaskView = TaskView(task: Task, isOverdue: bool)

  /** The columns GET accepts as `sortBy`. */
  datatype SortField = CreatedAt | Title | Category | Priority | Completed | DueDate

  const ValidSortFields := ["created_at", "title", "category", "priority", "completed", "due_date"]

  function ColumnName(f: SortField): string
  {
    match f
    case CreatedAt => "created_at"
    case Title => "title"
    case Category => "category"
    case Priority => "priority"
    case Completed => "completed"
    case DueDate => "due_date"
  }

  function FieldNamed(name: string): SortField
  {
    if name == "title" then Title
    else if name == "category" then Category
    else if name == "priority" then Priority
    else if name == "completed" then Completed
    else if name == "due_date" then DueDate
    else CreatedAt
  }

  /** `validSortFields.includes(sortBy) ? sortBy : 'created_at'`, with 'created_at' as the default. */
  function ResolveSortField(sortBy: Option<string>): (f: SortField)
    ensures ColumnName(f) in ValidSortFields
    ensures sortBy.Some? && sortBy.value in ValidSortFields ==> ColumnName(f) == sortBy.value
    ensures (sortBy.None? || sortBy.value !in ValidSortFields) ==> f == CreatedAt
  {
    if sortBy.Some? && sortBy.value in ValidSortFields then FieldNamed(sortBy.value) else CreatedAt
  }

  /** `String.prototype.toUpperCase` on the characters that can map to 'A', 'S' or 'C'. */
  function UpperChar(c: char): char
  {
    if 'a' <= c <= 'z' then (c as int - 32) as char
    else if c == 'ſ' then 'S'  // LATIN SMALL LETTER LONG S
    else c
  }

  function Upper(s: string): (u: string)
    ensures |u| == |s|
    ensures forall i :: 0 <= i < |s| ==> u[i] == UpperChar(s[i])
  {
    if s == [] then [] else [UpperChar(s[0])] + Upper(s[1..])
  }

  /** `sortOrder.toUpperCase() === 'ASC'`, with 'DESC' as the default. */
  function ResolveAscending(sortOrder: Option<string>): (asc: bool)
    ensures sortOrder.None? ==> !asc
    ensures asc ==> |sortOrder.value| == 3
  {
    sortOrder.Some? && Upper(sortOrder.value) == "ASC"
  }

  /** The direction is ascending exactly for the spellings of "asc" in any case. */
  lemma AscendingSpellings(sortOrder: Option<string>)
    ensures ResolveAscending(sortOrder) <==>
      && sortOrder.Some?
      && |sortOrder.value| == 3
      && sortOrder.value[0] in {'a', 'A'}
      && sortOrder.value[1] in {'s', 'S', 'ſ'}
      && sortOrder.value[2] in {'c', 'C'}
  {
    if sortOrder.Some? && |sortOrder.value| == 3 {
      var s := sortOrder.value;
      var u := Upper(s);
      assert u == "ASC" <==> u[0] == 'A' && u[1] == 'S' && u[2] == 'C';
    }
  }

  /** The ORDER BY value of a row for a column, as SQLite stores it. */
  function KeyOf(f: SortField, t: Task): (k: Table.SortKey)
    ensures k.Null? <==> f == DueDate && t.dueDate.None?
    ensures k.Text? <==> f in {Title, Category, Priority}
  {
    match f
    case CreatedAt => Table.Num(t.createdAt)
    case Title => Table.Text(t.title)
    case Category => Table.Text(t.category)
    case Priority => Table.Text(t.priority)
    case Completed => Table.Num(if t.completed then 1 else 0)
    case DueDate => if t.dueDate.Some? then Table.Num(t.dueDate.value) else Table.Null
  }

  /** `due_date && !completed && new Date(due_date) < start of today`, as a boolean. */
  predicate IsOverdue(t: Task, today: int)
  {
    t.dueDate.Some? && !t.completed && t.dueDate.value < today
  }

  /** An overdue task stays overdue on every later day until it is completed. */
  lemma OverdueStaysOverdue(t: Task, today: int, later: int)
    requires IsOverdue(t, today) && today <= later
    ensures IsOverdue(t, later)
    ensures !IsOverdue(t.(completed := true), later)
  {
  }

  /** A task is never overdue on its own due day. */
  lemma DueTodayNotOverdue(t: Task, today: int)
    requires t.dueDate == Some(today)
    ensures !IsOverdue(t, today)
  {
  }

  /** The validation chain of POST; the first failing check decides the error. */
  function CreateError(title: Option<string>, priority: string, dueDate: DueDateInput, today: int): (e: Option<string>)
    ensures e == Some(TitleRequired) <==> Falsy(title)
    ensures e == Some(PriorityInvalid) <==> !Falsy(title) && priority !in ValidPriorities
    ensures e == Some(DateFormatInvalid) <==>
      !Falsy(title) && priority in ValidPriorities && dueDate == DueDateText(None)
    ensures e == Some(DateInPast) <==>
      && !Falsy(title) && priority in ValidPriorities
      && dueDate.DueDateText? && dueDate.parsed.Some? && dueDate.parsed.value < today
    ensures e.None? <==>
      && !Falsy(title) && priority in ValidPriorities
      && (dueDate.NoDueDate? || (dueDate.parsed.Some? && today <= dueDate.parsed.value))
  {
    if Falsy(title) then Some(TitleRequired)
    else if priority !in ValidPriorities then Some(PriorityInvalid)
    else if dueDate.DueDateText? && dueDate.parsed.None? then Some(DateFormatInvalid)
    else if dueDate.DueDateText? && dueDate.parsed.value < today then Some(DateInPast)
    else None
  }

  /** A due date equal to today passes validation. */
  lemma DueTodayAccepted(title: string, priority: string, today: int)
    requires title != "" && priority in ValidPriorities
    ensures CreateError(Some(title), priority, DueDateText(Some(today)), today).None?
  {
  }

  /** `dueDate || null`: the due day stored for an accepted request. */
  function StoredDueDate(dueDate: DueDateInput): (d: Option<int>)
    ensures dueDate.NoDueDate? ==> d.None?
    ensures d.Some? ==> dueDate == DueDateText(d)
    ensures dueDate.DueDateText? ==> d == dueDate.parsed
  {
    if dueDate.DueDateText? then dueDate.parsed else None
  }

  /** A task accepted by POST today is not overdue today. */
  lemma AcceptedTaskNotOverdue(t: Task, title: Option<string>, priority: string, dueDate: DueDateInput, today: int)
    requires CreateError(title, priority, dueDate, today).None?
    requires t.dueDate == StoredDueDate(dueDate)
    ensures !IsOverdue(t, today)
  {
  }

  /** `rows.map(todo => ({ ...todo, is_overdue }))`. */
  function Annotate(rows: seq<Task>, today: int): (views: seq<TaskView>)
    ensures TasksOf(views) == rows
    ensures forall i :: 0 <= i < |views| ==> views[i].isOverdue == IsOverdue(rows[i], today)
  {
    seq(|rows|, i requires 0 <= i < |rows| => TaskView(rows[i], IsOverdue(rows[i], today)))
  }

  function TasksOf(views: seq<TaskView>): (tasks: seq<Task>)
    ensures |tasks| == |views|
    ensures forall i :: 0 <= i < |views| ==> tasks[i] == views[i].task
  {
    seq(|views|, i requires 0 <= i < |views| => views[i].task)
  }

  /** `tasks` holds every row of `rows` exactly once and nothing else. */
  ghost predicate ListsEachOnce(tasks: seq<Task>, rows: map<int, Task>)
  {
    && (forall i :: 0 <= i < |tasks| ==> tasks[i].id in rows && rows[tasks[i].id] == tasks[i])
    && (forall id :: id in rows ==> multiset(tasks)[rows[id]] == 1)
  }

  ghost predicate SortedOn(tasks: seq<Task>, f: SortField, asc: bool)
  {
    Table.SortedBy(tasks, (t: Task) => KeyOf(f, t), asc)
  }

  /** `sortBy=due_date&sortOrder=ASC`: rows without a due date first, then due days non-decreasing. */
  lemma DueDateAscending(tasks: seq<Task>)
    requires SortedOn(tasks, DueDate, true)
    ensures forall i :: 0 <= i < |tasks| - 1 && tasks[i].dueDate.Some? && tasks[i + 1].dueDate.Some? ==>
      tasks[i].dueDate.value <= tasks[i + 1].dueDate.value
    ensures forall i, j :: 0 <= i < j < |tasks| && tasks[i].dueDate.Some? ==> tasks[j].dueDate.Some?
  {
    forall i | 0 <= i < |tasks| - 1
      ensures Table.InOrder(KeyOf(DueDate, tasks[i]), KeyOf(DueDate, tasks[i + 1]), true)
    {
      assert ((t: Task) => KeyOf(DueDate, t))(tasks[i]) == KeyOf(DueDate, tasks[i]);
    }
  }

  /** `sortBy=title&sortOrder=ASC`: titles are in lexicographic order. */
  lemma TitleAscending(tasks: seq<Task>)
    requires SortedOn(tasks, Title, true)
    ensures forall i, j :: 0 <= i < j < |tasks| ==> Table.TextLe(tasks[i].title, tasks[j].title)
  {
  }

  /** An unrecognised `sortBy` lists newest first whenever `sortOrder` does not resolve to ASC. */
  lemma UnknownFieldNewestFirst(tasks: seq<Task>, sortBy: Option<string>, sortOrder: Option<string>)
    requires sortBy.None? || sortBy.value !in ValidSortFields
    requires !ResolveAscending(sortOrder)
    requires SortedOn(tasks, ResolveSortField(sortBy), ResolveAscending(sortOrder))
    ensures forall i, j :: 0 <= i < j < |tasks| ==> tasks[i].createdAt >= tasks[j].createdAt
  {
  }

  class TaskTable {
    var rows: map<int, Task>
    var nextId: int
    /** Every id AUTOINCREMENT has handed out. */
    ghost var issued: set<int>

    /** Rows sit under their own, issued ids, issued ids are below `nextId`, and every stored priority is valid. */
    ghost predicate Valid()
      reads this
    {
      && 1 <= nextId
      && rows.Keys <= issued
      && (forall id :: id in issued ==> 1 <= id < nextId)
      && (forall id :: id in rows ==> rows[id].id == id && rows[id].priority in ValidPriorities)
    }

    constructor ()
      ensures Valid() && rows == map[] && nextId == 1 && issued == {}
    {
      rows := map[];
      nextId := 1;
      issued := {};
    }

    /**
     * GET /api/todos?sortBy=&sortOrder=: every row once, ordered by the
     * resolved column and direction, each with its `is_overdue`.
     */
    method List(sortBy: Option<string>, sortOrder: Option<string>, today: int) returns (r: Reply<TaskView>)
      requires Valid()
      ensures r.status == 200 && r.body.Records?
      ensures ListsEachOnce(TasksOf(r.body.records), rows)
      ensures SortedOn(TasksOf(r.body.records), ResolveSortField(sortBy), ResolveAscending(sortOrder))
      ensures forall i :: 0 <= i < |r.body.records| ==>
        r.body.records[i].isOverdue == IsOverdue(r.body.records[i].task, today)
      ensures forall i :: 0 <= i < |r.body.records| ==>
        r.body.records[i].task.priority in ValidPriorities
    {
      var field := ResolveSortField(sortBy);
      var asc := ResolveAscending(sortOrder);
      var scanned := Table.ScanRows(rows, nextId);
      var sorted := Table.SortRows(scanned, (t: Task) => KeyOf(field, t), asc);
      forall i | 0 <= i < |sorted|
        ensures sorted[i].id in rows && rows[sorted[i].id] == sorted[i]
      {
        assert sorted[i] in multiset(scanned);
      }
      var views := Annotate(sorted, today);
      r := Reply(200, Records(views));
    }

    /**
     * POST /api/todos: validates, then inserts with the defaults category
     * "General" and priority "Medium" and a falsy due date stored as null.
     */
    method Create(title: Option<string>, category: Option<string>, priority: Option<string>,
                  dueDate: DueDateInput, today: int, now: int) returns (r: Reply<TaskView>)
      requires Valid()
      modifies this
      ensures Valid()
      ensures var e := CreateError(title, OrDefault(priority, DefaultPriority), dueDate, today);
        e.Some? ==>
          && r == Reply(400, Error(e.value))
          && rows == old(rows) && nextId == old(nextId) && issued == old(issued)
      ensures CreateError(title, OrDefault(priority, DefaultPriority), dueDate, today).None? ==>
        var t := Task(old(nextId), title.value, OrDefault(category, DefaultCategory),
                      OrDefault(priority, DefaultPriority), false, StoredDueDate(dueDate), now, now);
        && t.id !in old(rows)
        && (forall id :: id in old(issued) ==> id < t.id)
        && issued == old(issued) + {t.id}
        && rows == old(rows)[t.id := t]
        && nextId == old(nextId) + 1
        && r == Reply(201, Record(TaskView(t, false)))
    {
      var prio := OrDefault(priority, DefaultPriority);
      var error := CreateError(title, prio, dueDate, today);
      if error.Some? {
        return Reply(400, Error(error.value));
      }
      var id := nextId;
      var t := Task(id, title.value, OrDefault(category, DefaultCategory), prio, false,
                    StoredDueDate(dueDate), now, now);
      rows := rows[id := t];
      nextId := nextId + 1;
      issued := issued + {id};
      AcceptedTaskNotOverdue(t, title, prio, dueDate, today);
      r := Reply(201, Record(TaskView(t, IsOverdue(t, today))));
    }
  }

  /** A bare title is stored as a "General", "Medium" todo without due date and not overdue. */
  method DefaultsScenario(title: string, today: int, now: int) returns (r: Reply<TaskView>)
    requires title != ""
    ensures r.status == 201 && r.body.Record?
    ensures var t := r.body.record.task;
      t.title == title && t.category == "General" && t.priority == "Medium" && t.dueDate.None?
    ensures !r.body.record.isOverdue
  {
    var table := new TaskTable();
    r := table.Create(Some(title), None, None, NoDueDate, today, now);
  }

  /** A due day not before today is stored with the row, which is not overdue. */
  method DueDateScenario(title: string, due: int, today: int, now: int) returns (r: Reply<TaskView>)
    requires title != "" && today <= due
    ensures r.status == 201 && r.body.Record?
    ensures r.body.record.task.title == title && r.body.record.task.dueDate == Some(due)
    ensures !r.body.record.isOverdue
  {
    var table := new TaskTable();
    r := table.Create(Some(title), Some("Work"), Some("High"), DueDateText(Some(due)), today, now);
  }

  /** A due day before today is refused with 400 and the table keeps no row. */
  method PastDueScenario(title: string, due: int, today: int, now: int) returns (r: Reply<TaskView>, stored: nat)
    requires title != "" && due < today
    ensures r == Reply(400, Error(DateInPast)) && stored == 0
  {
    var table := new TaskTable();
    r := table.Create(Some(title), Some("Work"), Some("High"), DueDateText(Some(due)), today, now);
    stored := |table.rows|;
  }
}
