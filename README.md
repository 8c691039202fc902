# To-do list controller: task-list model

This project models the in-memory task list of the `TodoApp` controller in
`src/modules/crud.js`. The controller keeps the list in `this.todoTask`. It is
an ordered array of records `{description, completed, index}`, where `index`
is the 1-based display rank. Five methods change the list:

- `addTask` ignores input that trims to the empty string. Otherwise it appends
  an open task ranked `length + 1`.
- `deleteTask` splices out one position and renumbers the rest 1..N.
- `editTask` replaces one description in place. It does nothing when the
  position does not exist.
- `sortTasks` sorts by `index`, ascending and stably.
- `clearAllCompletedTasks` replaces the list with the result of the
  `clearAllCompleted` helper and renumbers it 1..N.

`render` sorts the list and persists it after every structural change.

Files:

- `js_string.dfy` (module `JsString`): JavaScript's `String.prototype.trim`.
  It strips the WhiteSpace and LineTerminator code points of ECMA-262
  (sections 12.2 and 12.3).
- `task_list.dfy` (module `TaskList`): the `Task` record and the list
  operations as functions. These are `splice(k, 1)`, the renumbering
  `forEach`, and a stable sort by index.
- `crud.dfy` (module `Crud`): class `TodoApp`. Its field `todoTask` is the
  list. Its field `stored` is the `todoTasks` entry of local storage, holding
  the list last written. Each source method that reads or changes the list
  becomes a method here, and each says exactly what the new list and the new
  storage entry are. The event-wiring methods `DeleteTaskButton`,
  `AddTaskPressIcon` and `AddTaskPressEnter` are not modelled.

The constructor, `Render`, `DeleteTask` and `ClearAllCompletedTasks`
establish `TodoApp.Valid()`, and `AddTask` and `EditTask` keep it: the list is
sorted by index, and local storage holds exactly that list. The sort is characterised
independently of its definition. `SortByIndex(s)` is the only list that is in
ascending index order and keeps, for every index value, the tasks carrying it
in their original order.

Facts about the code that the model records:

- Only `deleteTask` and `clearAllCompletedTasks` renumber the list. A loaded
  list is only sorted, not renumbered. On a list in index order, `addTask`
  gives indices 1..N+1 exactly when the list had indices 1..N before.
- Filtering of completed tasks happens in `clearAllCompleted` (status.js). The
  model takes it as a function parameter.
- A malformed stored entry makes `JSON.parse` throw. The model takes the
  parsed entry.

## Model

| member | source | states |
|---|---|---|
| `JsString.TrimStart` | src/modules/crud.js:137 | the result is a suffix of the input that does not start with whitespace, and every character removed is whitespace |
| `JsString.TrimEnd` | src/modules/crud.js:137 | the result is a prefix of the input that does not end with whitespace, and every character removed is whitespace |
| `JsString.IsWhitespace` | src/modules/crud.js:137 | the characters `trim` strips; among ASCII characters these are exactly space, TAB, LF, VT, FF and CR |
| `JsString.Trim` | src/modules/crud.js:137 | `description.trim()` is the part of the description after its leading whitespace, it neither starts nor ends with whitespace, and every character removed from either end is whitespace |
| `JsString.TrimEmptyIffAllWhitespace` | src/modules/crud.js:137 | `description.trim() !== ''` fails exactly when every character of the description is whitespace (both directions) |
| `TaskList.Splice` | src/modules/crud.js:151 | `splice(k, 1)` removes position `k`: the length drops by one, earlier elements stay put and later ones shift down by one; when `k` is past the end the list is unchanged |
| `TaskList.SpliceReinsert` | src/modules/crud.js:151 | putting the removed task back at position `k` restores the original list |
| `TaskList.SpliceMultiset` | src/modules/crud.js:151 | the spliced list plus the removed task is exactly the original multiset of tasks |
| `TaskList.Renumbered` | src/modules/crud.js:152-154 | the list after the renumbering `forEach` (also at lines 128-130): indices 1..N in order, whatever they were before, with descriptions and completion flags unchanged position by position |
| `TaskList.RenumberedUnique` | src/modules/crud.js:152-154 | the renumbered list is the only list with the same contents and indices 1..N |
| `TaskList.RenumberedContiguousIsIdentity` | src/modules/crud.js:128-130 | renumbering a list that is already numbered 1..N changes nothing |
| `TaskList.DeleteResult` | src/modules/crud.js:150-154 | after splice and renumbering: one task fewer, indices 1..N, tasks before `k` keep their content, and tasks after `k` move up one position with their content intact |
| `TaskList.InsertByIndex` | src/modules/crud.js:46 | one insertion step of the sort adds exactly that task: the length grows by one and the multiset gains that task |
| `TaskList.SortByIndex` | src/modules/crud.js:46 | the sort is a permutation of its input: same length, same multiset |
| `TaskList.InsertKeepsSorted` | src/modules/crud.js:46 | inserting into a list in index order keeps it in index order |
| `TaskList.SortByIndexIsSorted` | src/modules/crud.js:46 | the sorted list is non-decreasing in `index` |
| `TaskList.InsertWithIndex` | src/modules/crud.js:46 | insertion never moves a task past another task with the same index |
| `TaskList.SortByIndexIsStable` | src/modules/crud.js:46 | for every index value, the tasks carrying it keep their relative order through the sort |
| `TaskList.SortedGroupsDetermineList` | src/modules/crud.js:46 | two lists in index order that agree on the tasks of every index value are equal |
| `TaskList.SortByIndexCharacterization` | src/modules/crud.js:45-47 | a list is the sort of `s` if and only if it is in index order and keeps the order of the tasks of each index value |
| `TaskList.SortSortedIsIdentity` | src/modules/crud.js:45-47 | sorting a list that is already in index order leaves it unchanged |
| `TaskList.SortContiguousIsIdentity` | src/modules/crud.js:45-51 | sorting a list numbered 1..N leaves it unchanged |
| `TaskList.AppendNextKeepsContiguous` | src/modules/crud.js:141-145 | appending a task ranked N+1 to a list numbered 1..N gives a list numbered 1..N+1, and the following sort keeps it as it is |
| `TaskList.AppendNextContiguousIff` | src/modules/crud.js:141-145 | on a list in index order, appending a task ranked N+1 and sorting gives indices 1..N+1 if and only if the list had indices 1..N |
| `Crud.TodoApp.constructor` | src/modules/crud.js:5-14 | the list is the saved list, or empty when nothing is saved, sorted by index (a permutation of it), and storage holds it |
| `Crud.TodoApp.SortTasks` | src/modules/crud.js:45-47 | the list becomes its stable sort by index: sorted, a permutation, unchanged if already sorted; storage untouched |
| `Crud.TodoApp.UpdateLocalStorage` | src/modules/crud.js:168-170 | the storage entry becomes the current list and the list is unchanged |
| `Crud.TodoApp.Render` | src/modules/crud.js:50-123 | the list becomes its sort, storage holds it, and `Valid()` holds |
| `Crud.TodoApp.RenumberTasks` | src/modules/crud.js:152-154 | the loop sets every task's index to its position + 1 and changes nothing else |
| `Crud.TodoApp.AddTask` | src/modules/crud.js:136-147 | blank input leaves list and storage unchanged; otherwise the list is the sort of the old list plus `{description, completed: false, index: length + 1}` with the description untrimmed, gains exactly that task, and is stored. From a list numbered 1..N it is exactly the old list plus the new task, numbered 1..N+1; from a list in index order the result is numbered 1..N+1 if and only if the old list was numbered 1..N |
| `Crud.TodoApp.DeleteTask` | src/modules/crud.js:150-157 | the list is the spliced list renumbered 1..N, stored and valid; an in-range position removes exactly that task and keeps the others' order and content; an out-of-range one only renumbers |
| `Crud.TodoApp.EditTask` | src/modules/crud.js:160-165 | in range, only that task's description changes (same length, same flags and indices, other tasks identical) and the list is stored; out of range, nothing changes; validity and contiguity are preserved |
| `Crud.TodoApp.ClearAllCompletedTasks` | src/modules/crud.js:126-133 | the list is the helper's result renumbered 1..N with descriptions and flags untouched, stored and valid |

## Left out

- The DOM: element lookups, building list rows, focus and blur styling, and
  all event-listener wiring (src/modules/crud.js:6-7, 9, 11-42, 52-119). This
  is browser UI glue.
- JSON: `JSON.stringify` and `JSON.parse` of the storage entry. The entry is
  modelled as the list it encodes. The constructor's `saved` parameter is the
  parsed entry, with `None` for an absent or falsy one. A malformed entry
  makes `JSON.parse` throw, and that is not modelled.
- The checkbox listener (src/modules/crud.js:65-72). It replaces the list with
  the result of `updateCompletionStatus` from `status.js`, and `status.js` is
  not part of this model.
- Crud.TodoApp.ClearAllCompletedTasks: does not state that completed tasks are
  removed. The filtering is done by `clearAllCompleted` in `status.js`, which
  is not part of this model, so it is an arbitrary function parameter here.
- The stale position `i` captured by the per-row listeners. It is a timing
  concern of the UI, not list logic.
- JavaScript coercions: `deleteTask` receives `dataset.task` as a string, and
  `splice` accepts negative starts. Positions are modelled as natural numbers.
- Number semantics: indices are unbounded integers. Non-integer, `NaN` or
  huge stored indices, for which `a.index - b.index` is not an exact
  difference, are not modelled.
- Object identity: tasks are values, not shared mutable objects. No code in
  the controller keeps a task object outside `this.todoTask`, so aliasing
  cannot be observed.
- Strings are sequences of Unicode scalar values. Lone UTF-16 surrogates are
  not modelled. `JsString.IsWhitespace` lists the "Zs" space separators of
  one fixed Unicode version. Characters added to "Zs" later are not
  modelled.
- `src/index.js` only creates the controller, wires the clear button and
  calls `render` once more. On a valid list that extra sort changes nothing
  (`TaskList.SortSortedIsIdentity`).
