# Todo app core, modelled in Dafny

This project models the logic of a small todo application: an Express
server over an SQLite table `todos`, a richer variant of the same routes
defined inline in the backend test suite (priority, due dates, sorting,
overdue status), and three pieces of the React client (the list handlers of
`App`, the completion bar and the theme provider).

Modules, one per source file or shared concern:

- `Js` (js.dfy): `undefined` as `Option.None`, JavaScript truthiness of an
  optional string, destructuring defaults.
- `Http` (http.dfy): a reply is a status code and a JSON body (a row, a
  list of rows, a message or an error).
- `Table` (table.dfy): what the routes need from SQLite. A full scan
  returns every row once in rowid order. `ORDER BY` is an insertion sort on
  a `SortKey`, compared as SQLite compares values: NULL first, then numbers,
  then text by code point.
- `TodoStore` (todo_store.dfy): `backend/server.js`. The class `TodoTable`
  holds the table as a map from id to row and the next AUTOINCREMENT id.
  Its methods are the four routes and return a `Reply`.
- `DueDateApi` (due_date_api.dfy): the routes of `backend/server.test.js`.
  It covers sort-field and direction resolution, `is_overdue`, the ordered
  validation chain of POST, and the class `TaskTable`.
- `ClientList` (client_list.dfy): `handleTodoAdded`, `handleTodoUpdated`
  and `handleTodoDeleted` as functions on sequences.
- `Progress` (progress.dfy): `calculateProgress`, the confetti trigger and
  `getEmojiClass`.
- `Theme` (theme.dfy): `getInitialTheme`, the toggle and normalising
  updates, and the class `ThemeProvider` over the `theme` state cell and the
  saved value in localStorage.

Dates are whole day numbers. The caller's local "today" is a parameter.
What `new Date(dueDate)` makes of the request string is an input,
`DueDateText(parsed)`, where `parsed` is `None` for an invalid date. A
falsy `dueDate` is `NoDueDate`. `CURRENT_TIMESTAMP` is the parameter `now`.

The two backends disagree on the schema. The production table
(backend/database.js:37-46) has no `priority` or `due_date`; the test
table (backend/server.test.js:10-21) has both. They are modelled as two
separate record types and tables.

Two behaviours of the source come out of the proofs:

- The system-theme listener is meant to follow the system until the user
  has chosen a theme, but it tests only whether localStorage holds a
  theme. The persistence effect saves the theme on mount, before the
  listener is registered, so in a browser the listener as written never
  changes the theme. This is listed under "Findings". The provider's
  `OnSystemThemeChange` models the intended guard instead, which
  `OnSystemThemeChangeAsWritten` keeps as written.
- `PUT` checks only that `title` is present. An existing todo can therefore
  be renamed to "", although `POST` refuses that title
  (`TodoStore.EmptyTitleScenario`).

## Model

| member | source | states |
|---|---|---|
| `Table.TextLe` | backend/server.test.js:43 | the BINARY collation on text: code-point lexicographic order, a prefix first (its properties are the next three rows) |
| `Table.KeyLe` | backend/server.test.js:43 | SQLite's comparison of column values: NULL before numbers, numbers before text, numbers numerically, text by `TextLe` |
| `Table.TextLeTotal` | backend/server.test.js:43 | any two strings are ordered one way or the other by the text collation |
| `Table.TextLeTransitive` | backend/server.test.js:43 | the text collation is transitive |
| `Table.TextLeAntisymmetric` | backend/server.test.js:43 | two strings ordered both ways are equal, so text ORDER BY is a total order |
| `Table.InOrderTotal` | backend/server.test.js:43 | any two column values are comparable in either direction |
| `Table.InOrderTransitive` | backend/server.test.js:43 | the ORDER BY comparison is transitive in either direction |
| `Table.ScanRows` | backend/server.js:18-19 | a table scan yields only stored rows and each stored row exactly once |
| `Table.Insert` | backend/server.test.js:43 | inserting into a sorted list gives a sorted list with exactly one more element |
| `Table.SortRows` | backend/server.test.js:43 | ORDER BY yields a permutation of its input, sorted by the key in the requested direction |
| `TodoStore.TodoTable.constructor` | backend/database.js:37-46 | a new table has no rows, has issued no id and assigns id 1 first |
| `TodoStore.TodoTable.List` | backend/server.js:17-26 | GET answers 200 with every stored row exactly once, ordered by created_at non-increasing |
| `TodoStore.TodoTable.Create` | backend/server.js:29-52 | a falsy title gives 400 "Title is required" and no change; otherwise exactly one row is added with a fresh id above every id ever issued (deleted ones included), which joins the issued ids, with the given title, category "General", not completed, and is returned with 201 |
| `TodoStore.TodoTable.Update` | backend/server.js:55-95 | no field gives 400 and no change; an unknown id gives 404 "Todo not found" and no change; otherwise only the supplied title and/or completed change, updated_at is refreshed, id, category, created_at and all other rows are kept, and the row is returned with 200 |
| `TodoStore.TodoTable.Delete` | backend/server.js:98-114 | a stored id is removed alone with 200 and the confirmation message; an unknown id gives 404 and no change |
| `TodoStore.DeleteTwiceScenario` | backend/server.js:101-112 | deleting the same new todo twice answers 200 and then 404 |
| `TodoStore.EmptyTitleScenario` | backend/server.js:32-67 | POST with title "" answers 400 while PUT with title "" answers 200 and stores "" |
| `TodoStore.UpdateErrorsScenario` | backend/server.js:59-84 | on a new table, PUT without fields answers 400 and PUT of any id answers 404 |
| `TodoStore.NoIdReuseScenario` | backend/database.js:39 | a todo created after deleting the previous one gets a different id |
| `TodoStore.CreateThenListScenario` | backend/server.js:17-52 | a created todo appears in the next listing with its title and the defaults |
| `DueDateApi.ResolveSortField` | backend/server.test.js:37-40 | the resolved column is always in the allow-list; it is the requested column when that is allowed and created_at otherwise |
| `DueDateApi.Upper` | backend/server.test.js:41 | upper-casing keeps the length and maps each character on its own |
| `DueDateApi.ResolveAscending` | backend/server.test.js:37-41 | a missing `sortOrder` gives the default DESC, and ASC needs a three-character value |
| `DueDateApi.AscendingSpellings` | backend/server.test.js:37-41 | the direction is ASC exactly when the upper-cased `sortOrder` is "ASC", i.e. for the case variants of "asc" (and long s); otherwise, and by default, DESC |
| `DueDateApi.IsOverdue` | backend/server.test.js:52-55 | `is_overdue` holds exactly when a due day is set, the todo is not completed and the due day is before today |
| `DueDateApi.KeyOf` | backend/server.test.js:43 | the ORDER BY value of a row: only a missing due date is NULL, and title, category and priority sort as text |
| `DueDateApi.OverdueStaysOverdue` | backend/server.test.js:52-55 | an overdue todo stays overdue on every later day, and completing it clears the flag |
| `DueDateApi.DueTodayNotOverdue` | backend/server.test.js:52-55 | a todo due today is not overdue today |
| `DueDateApi.CreateError` | backend/server.test.js:70-93 | the first failing check decides the error: title, then priority in {Low, Medium, High}, then date format, then date not before today; there is no error exactly when the title is truthy, the priority valid and the due date absent or a parseable day not before today |
| `DueDateApi.DueTodayAccepted` | backend/server.test.js:90-92 | a due date equal to today passes validation |
| `DueDateApi.StoredDueDate` | backend/server.test.js:96 | a falsy due date is stored as null, and a parsed due day is stored as it is |
| `DueDateApi.AcceptedTaskNotOverdue` | backend/server.test.js:108-113 | a row accepted by POST today is not overdue today |
| `DueDateApi.Annotate` | backend/server.test.js:52-61 | each row is kept in place and gains only `is_overdue`, equal to the overdue predicate |
| `DueDateApi.DueDateAscending` | backend/server.test.js:135-152 | sorted by due_date ASC, rows without a due date come first and adjacent due days are non-decreasing |
| `DueDateApi.TitleAscending` | backend/server.test.js:39-43 | sorted by title ASC, titles are in lexicographic order |
| `DueDateApi.UnknownFieldNewestFirst` | backend/server.test.js:37-43 | an unknown or missing sortBy with any direction other than ASC orders by created_at non-increasing |
| `DueDateApi.TaskTable.constructor` | backend/server.test.js:10-21 | a new table has no rows, has issued no id and assigns id 1 first |
| `DueDateApi.TaskTable.List` | backend/server.test.js:36-65 | GET answers 200 with every stored row exactly once, sorted by the resolved column and direction, each with `is_overdue` equal to the overdue predicate and a valid priority |
| `DueDateApi.TaskTable.Create` | backend/server.test.js:67-116 | a validation error answers 400 with that message and leaves the table unchanged; otherwise exactly one row is added with a fresh id above every id ever issued, defaults "General"/"Medium", a falsy due date stored as null, and is returned with 201 and `is_overdue` false |
| `DueDateApi.DefaultsScenario` | backend/server.test.js:68-96 | a bare title is stored with category "General", priority "Medium", no due date, and is not overdue |
| `DueDateApi.DueDateScenario` | backend/server.test.js:154-171 | a due day not before today answers 201, the row keeps that due day and is not overdue |
| `DueDateApi.PastDueScenario` | backend/server.test.js:173-187 | a due day before today answers 400 "Due date cannot be in the past." and stores nothing |
| `ClientList.Added` | frontend/src/App.js:33-35 | the new todo comes first, followed by the old list unchanged |
| `ClientList.Updated` | frontend/src/App.js:38-42 | length and order are kept, every element with the updated id is replaced and all others are kept |
| `ClientList.Deleted` | frontend/src/App.js:45-47 | the result holds exactly the todos whose id differs |
| `ClientList.DeletedDistributes` | frontend/src/App.js:45-47 | deleting distributes over concatenation, so the remaining todos keep their order |
| `ClientList.DeletedAbsent` | frontend/src/App.js:45-47 | deleting an id no todo has leaves the list unchanged |
| `ClientList.DeletedIdempotent` | frontend/src/App.js:45-47 | deleting the same id twice is deleting it once |
| `ClientList.UpdatedAbsent` | frontend/src/App.js:38-42 | updating with an id no todo has leaves the list unchanged |
| `ClientList.AddThenDelete` | frontend/src/App.js:33-47 | adding a todo with a fresh id and deleting that id restores the list |
| `ClientList.DeleteAfterUpdate` | frontend/src/App.js:38-47 | deleting an id after updating it equals deleting it |
| `Progress.CompletedCount` | frontend/src/ProgressBar.js:12 | the number of completed todos is at most the list length |
| `Progress.RoundedPercent` | frontend/src/ProgressBar.js:13 | the percentage is the nearest whole number to 100·completed/total, halves up, and at most 100 |
| `Progress.Progress` | frontend/src/ProgressBar.js:10-14 | progress is 0 for an empty list and always within 0..100 |
| `Progress.AllCompletedIsFull` | frontend/src/ProgressBar.js:11-13 | a non-empty list with every todo completed is at 100 |
| `Progress.NoneCompletedIsEmpty` | frontend/src/ProgressBar.js:11-13 | a list with no completed todo is at 0 |
| `Progress.RoundedPercentMonotone` | frontend/src/ProgressBar.js:13 | for a fixed total, the percentage never decreases as completed grows |
| `Progress.ProgressMonotone` | frontend/src/ProgressBar.js:12-13 | for lists of one length, more completed todos never lower progress |
| `Progress.ConfettiAsWritten` | frontend/src/ProgressBar.js:28 | the trigger as written: progress is 100 and the list is non-empty |
| `Progress.Confetti` | frontend/src/ProgressBar.js:28 | the intended trigger: the list is non-empty and every todo is completed |
| `Progress.ConfettiWithOneTodoOpen` | frontend/src/ProgressBar.js:28-31 | with 200 or more todos and one open, the trigger as written fires |
| `Progress.ConfettiWhenAllDone` | frontend/src/ProgressBar.js:28-31 | the intended trigger fires exactly for a non-empty list with every todo completed, and only at 100 |
| `Progress.EmojiClass` | frontend/src/ProgressBar.js:57-61 | "emoji-glow" exactly at 100, "emoji-pulse" exactly for other positive values, "" otherwise |
| `Progress.EmojiForProgress` | frontend/src/ProgressBar.js:57-61 | for a computed progress: glow at 100, pulse for 1..99, "" at 0 |
| `Theme.InitialTheme` | frontend/src/ThemeContext.js:9-20 | always light or dark; dark without a window; a saved light or dark wins; otherwise dark exactly when the system prefers dark |
| `Theme.Toggled` | frontend/src/ThemeContext.js:66-68 | the result is a theme, and it is light exactly when the previous value was dark |
| `Theme.Normalized` | frontend/src/ThemeContext.js:71-78 | the result is a theme, and it is light exactly when light was requested |
| `Theme.SystemTheme` | frontend/src/ThemeContext.js:49 | dark exactly when the media query matches |
| `Theme.ToggleTwice` | frontend/src/ThemeContext.js:66-68 | toggling a theme changes it, and toggling twice gives it back |
| `Theme.NormalizedIdempotent` | frontend/src/ThemeContext.js:71-78 | normalising is idempotent and keeps light and dark as they are |
| `Theme.ThemeProvider.constructor` | frontend/src/ThemeContext.js:22 | the state starts at the initial theme; a preference counts as chosen exactly when a theme was saved |
| `Theme.ThemeProvider.PersistTheme` | frontend/src/ThemeContext.js:26-37 | in a browser the current theme is saved; without a window nothing changes |
| `Theme.ThemeProvider.ToggleTheme` | frontend/src/ThemeContext.js:66-68 | the theme becomes the toggled previous theme and stays valid; the user has now chosen |
| `Theme.ThemeProvider.SetSpecificTheme` | frontend/src/ThemeContext.js:71-78 | the theme becomes the normalised request; the user has now chosen |
| `Theme.ThemeProvider.OnSystemThemeChangeAsWritten` | frontend/src/ThemeContext.js:45-51 | in a browser, the theme follows the system exactly when no theme is saved, and is kept otherwise |
| `Theme.ThemeProvider.OnSystemThemeChange` | frontend/src/ThemeContext.js:39-51 | in a browser, the theme follows the system exactly while the user has not chosen a theme |
| `Theme.SystemChangeAfterMountAsWritten` | frontend/src/ThemeContext.js:26-51 | with the listener as written, after the mount effect has saved the theme a system change leaves it unchanged |
| `Theme.SystemChangeFollowedUntilChosen` | frontend/src/ThemeContext.js:39-68 | with the intended listener, a provider that started with nothing saved follows the system after mount and stops following it once the user toggles |

## Findings

| source | as written | input that shows it | evidently intended | confidence | as-written member | corrected member |
|---|---|---|---|---|---|---|
| frontend/src/ProgressBar.js:13-31 | confetti fires when the rounded percentage is 100 | 200 todos with 199 completed: 99.5% rounds to 100 and the confetti fires with one todo open | celebrate only when every todo is completed | low, not executed | `Progress.ConfettiWithOneTodoOpen` | `Progress.ConfettiWhenAllDone` |
| frontend/src/ThemeContext.js:26-51 | the listener updates only while localStorage holds no theme, and the persistence effect saves the theme on mount first | a browser with nothing saved that prefers light: the effect saves "light" on mount, then the system switches to dark and the theme stays "light" | follow the system until the user toggles or sets a theme, as the comments at lines 39 and 46 say | medium, not executed | `Theme.SystemChangeAfterMountAsWritten` | `Theme.SystemChangeFollowedUntilChosen` |

`Progress.ConfettiAsWritten` is the trigger as the code writes it.
`Progress.Confetti` is the corrected trigger. For the theme,
`ThemeProvider.OnSystemThemeChangeAsWritten` is the listener as written and
`ThemeProvider.OnSystemThemeChange` the corrected one. The corrected
listener reads the field `chosen`, which the source does not have: it is
set when a theme was saved at start, or by a toggle or set. Since the mount
effect saves a theme on every visit, this corrected guard also stops
following the system after a reload for a user who never chose; telling the
two apart would need a separate saved flag, which the source does not keep.

## Left out

- SQLite itself: opening the database, `PRAGMA table_info`, the
  `ALTER TABLE` migration and the SQL text (backend/database.js:4-55). Only
  the schema's defaults and AUTOINCREMENT feed the model.
- Store errors: every `500` branch (a failing `db.run`/`db.get`/`db.all`) is
  left out, because the model's table operations cannot fail. This includes
  a PUT with `title: null`, which the NOT NULL constraint rejects.
- Express plumbing: CORS, body parsing, `app.listen` and `/api/health`
  (backend/server.js:6-12, 116-125). Route parameters are modelled as
  integer ids, and request fields the routes test for `undefined` as `Option`.
- Request values of other JSON types: a non-string title, category or
  priority, a `completed` other than a boolean, a non-string `sortOrder`
  (which would throw in `toUpperCase`), and a null category.
- The seed rows that the test suite inserts without validation
  (backend/server.test.js:23-28). The test table starts empty. The
  invariants stated hold for every row inserted through `TaskTable.Create`.
- JavaScript `Date`: which strings `new Date` accepts, UTC versus local
  midnight, and second-resolution `CURRENT_TIMESTAMP` are abstracted to day
  numbers and the timestamp parameter `now`. Due dates are stored as days,
  not as the request's text, so text ORDER BY on due_date is day order here.
- `DueDateApi.IsOverdue`: returns a boolean. The code yields `null` when the
  due date is null (backend/server.test.js:53), while the tests expect a
  boolean false.
- `DueDateApi.Upper`: upper-cases ASCII letters and the long s only. These
  are the only case mappings that can change whether a string upper-cases
  to "ASC"; other Unicode mappings are not modelled.
- `Progress.RoundedPercent`: exact half-up rounding replaces
  `Math.round` on a floating-point ratio, which can differ at .5
  boundaries.
- Concurrency and callbacks: request interleaving, last-write-wins, the
  stale `todos` closure in the App handlers, and the confetti `setTimeout`
  reset. Each handler is a function of the current list.
- `Theme.ThemeProvider.PersistTheme`: writing `data-theme` on the document
  element is left out, as is the `mounted` state (frontend/src/ThemeContext.js:23-28)
  that the context exposes for ThemeToggle, along with `localStorage` I/O beyond the saved value
  itself, the `matchMedia` registration and the `useTheme` error. The
  presence of `window.matchMedia` is folded into `prefersDark`.
- The React components (TodoForm, TodoItem, TodoList, DatePickerModal,
  ThemeToggle), `renderConfetti`'s random particles and all logging. The
  form test file describes UI the form does not implement.
- Ids issued by AUTOINCREMENT are tracked as a ghost set `issued` in both
  tables. They are a proof device: SQLite's `sqlite_sequence` table is not
  modelled as such.
