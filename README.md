# Task list manager — a Dafny model of its task-collection logic

This project models the logic of a browser to-do list over its collection of task records. A task has an
id, a title, a completion flag, an optional due date, a priority, a creation time and a manual `order`.
The model covers the controller's handlers that change the list: add, toggle, delete, clear completed,
drop-reorder, save from the edit dialog, and import. It also covers the visible-set projection (filter,
then title search, then sort), the move-before helper used by drag and drop, the normalisation applied
when tasks are loaded from storage, the theme lookup, and the counters and filter-button rule of the view.

Layout: one module per source file, plus `TaskModel` for the shared `Task` record and `Filter`:

- `task_model.dfy` (`TaskModel`): the `Task` record, `Option`, and `Filter` (`Array.prototype.filter`)
  with its laws. The laws are membership, multiplicity, concatenation, subsequence and the count split.
- `utils.dfy` (`Utils`): `findIndex` by id, and `reorderById`. The latter is a specification function
  `Reordered` plus a method `ReorderById` that runs the copy-and-splice steps.
- `storage.dfy` (`Storage`): parsed JSON as input datatypes, the per-element normalisation, `loadTasks`,
  the synthesised `id-<idx>` identifiers, the save/load round trip, and `loadTheme`.
- `ui.dfy` (`Ui`): the counts of `updateStats` and the rule of `setFilterActive`.
- `app.dfy` (`App`): `trim`, `includes`, the per-task transformations, the five sort comparators, an
  in-place stable insertion sort on an array, and the class `TaskManager`. The class holds the
  controller's `state` object, with one method per handler.

Inputs the program takes from its environment are parameters:

- the text read from `localStorage` and what `JSON.parse` makes of it (`Payload`);
- `Date.now()` (`now`);
- `createId()`: `newId` in `TaskManager.Submit`, and `freshId`, a function from element index to identifier, on import;
- the values of the form fields.

Points where the code behaves other than a summary of it would suggest; the model follows the code:

- The visible list is sorted, so it is a permutation of a subsequence of the tasks, not in general a subsequence.
  `App.MatchingIsSubsequence` proves the subsequence property for the list before sorting.
- `deleteTask` removes every task with the id. It removes exactly one only when ids are unique
  (`App.DeleteUniqueRemovesOne`).
- A title is not always non-empty. Load and import keep an empty stored title, because `??` only replaces
  absent or null values.
- A `null` element in the stored or imported array makes the field access throw. Load then yields `[]`,
  and the import is refused as a whole.
- The import's normalisation is the same code as load's. The model defines it once (`Storage.NormalizeFrom`).
  Only the fallback identifier is a parameter: `id-<idx>` on load, a generated id on import.

## Model

| member | source | states |
|---|---|---|
| `TaskModel.Filter` | js/app.js:197 | the filtered list is no longer than the input and holds exactly the input's elements that satisfy the predicate |
| `TaskModel.FilterMultiset` | js/app.js:101 | a kept element occurs as often as in the input; a dropped one does not occur |
| `TaskModel.FilterAppend` | js/app.js:337-343 | filtering a concatenation is the concatenation of the filtered parts, so kept elements keep their relative order (used by `App.MatchingAppend`) |
| `TaskModel.FilterIsSubsequence` | js/app.js:197 | the filtered list is a subsequence of the input |
| `TaskModel.FilterSplitCount` | js/ui.js:76-77 | elements passing a predicate plus those passing its negation number the whole list |
| `Utils.FirstIndex` | js/utils.js:14 | `findIndex`: -1 exactly when no element has the id; otherwise the index of an element with the id and no earlier one |
| `Utils.FindIndex` | js/utils.js:14 | the linear search returns `FirstIndex` |
| `Utils.Reordered` | js/utils.js:12-31 | the result of `reorderById` has the same length and is a permutation of the input |
| `Utils.RemoveAt` | js/utils.js:16 | `splice(k, 1)`: one element shorter; elements before `k` stay, later ones move down by one |
| `Utils.InsertAt` | js/utils.js:29 | `splice(k, 0, x)`: one element longer with `x` at `k`; elements before `k` stay, later ones move up by one |
| `Utils.NoTarget` | js/utils.js:18 | definition: `!toId` — no target, or the empty id |
| `Utils.ReorderById` | js/utils.js:12-31 | the copy/splice/push steps compute `Reordered` |
| `Utils.ReorderedAbsent` | js/utils.js:14-15 | when no task has `fromId` the list is returned unchanged |
| `Utils.ReorderedToEnd` | js/utils.js:16-27 | with no target, an empty target, or a target not found after removal, the moved task is last and the others are the input without it, in order |
| `Utils.ReorderedBeforeTarget` | js/utils.js:23-29 | with the target found, the moved task sits immediately before it, and removing it again gives the other tasks in their old order |
| `Storage.NormalizeElem` | js/storage.js:10-18 | each present field is kept; absent or null id, title, priority and createdAt take the fallback id, "Untitled task", "medium" and the clock; completed is the truthiness of the stored value; order is kept when a number, else the index |
| `Storage.NormalizeFrom` | js/storage.js:10-18 | fails exactly when an element is null; otherwise the output has the input's length and element i is the normalisation of input element i |
| `Storage.NatToString` | js/storage.js:11 | decimal rendering of the index: a non-empty string of digits (at least two from 10 on), exactly "0" for index 0 and without a leading zero for a positive index, whose decimal value `DigitsValue` is the index; these together determine the string |
| `Storage.NatToStringInjective` | js/storage.js:11 | different indices render differently |
| `Storage.LoadId` | js/storage.js:11 | the synthesised id is "id-" followed by exactly `NatToString` of the index |
| `Storage.Truthy` | js/storage.js:13 | definition: `Boolean(v)` — false for absent, null, `false`, 0 and the empty string, true otherwise |
| `Storage.Serialize` | js/storage.js:27 | a saved task, as read back from `JSON.stringify`, has every field present: string id, title and priority, a boolean `completed`, a number `order` |
| `Storage.SerializeAll` | js/storage.js:27 | the saved array has one element per task, element i being task i saved |
| `Storage.LoadIdsDistinct` | js/storage.js:11 | the synthesised ids `id-<idx>` of different elements differ |
| `Storage.LoadTasks` | js/storage.js:4-23 | a missing or empty stored value, unparseable text, a non-array or a null element gives `[]`; otherwise the output is the stored array element by element normalised with `id-<idx>` |
| `Storage.NormalizeSerialized` | js/storage.js:10-18 | normalising saved tasks gives back exactly those tasks |
| `Storage.SaveLoadRoundTrip` | js/storage.js:25-31 | loading what `saveTasks` stored yields the saved list |
| `Storage.LoadTheme` | js/storage.js:33-35 | "dark" exactly when the stored value is "dark", "light" otherwise |
| `Ui.UpdateStats` | js/ui.js:74-81 | total is the number of tasks; completed is the number of completed ones; active is the number of open ones; 0 <= completed <= total and active + completed = total |
| `Ui.FilterButtonStates` | js/ui.js:83-87 | one flag per button, set exactly when the button's filter name equals the current filter |
| `Ui.SingleActiveButton` | js/ui.js:83-87 | with distinct button names at most one button is active, and one is when the current filter names a button |
| `App.IsWhitespace` | js/app.js:146 | definition: the characters `trim` removes — ECMAScript WhiteSpace (tab, vertical tab, form feed, space, no-break space, byte order mark, the space separators) and LineTerminator (line feed, carriage return, line and paragraph separators) |
| `App.Trim` | js/app.js:146 | the result is a slice `s[a..b]` of the input with only whitespace before `a` and after `b`; it is empty exactly when the input is all whitespace, and otherwise neither starts nor ends with whitespace |
| `App.TrimFixedPoint` | js/app.js:278 | a string without leading or trailing whitespace is unchanged by trimming |
| `App.TrimIdempotent` | js/app.js:278 | trimming twice is trimming once |
| `App.ContainsIff` | js/app.js:340 | `includes` holds exactly when the search string occurs at some position of the title |
| `App.MaxOrder` | js/app.js:156 | `Math.max` over the orders is one of the orders and no order exceeds it |
| `App.NextOrder` | js/app.js:156 | the new task's order is 0 for an empty list, otherwise one more than an existing order and above every existing order |
| `App.ChosenPriority` | js/app.js:154 | the selected priority, "medium" when the selection is empty |
| `App.Toggled` | js/app.js:191 | same length; every field but `completed` unchanged; tasks with the id get the new flag, the others keep theirs |
| `App.Edited` | js/app.js:284-294 | same length; tasks without the id are untouched; tasks with the id keep id, createdAt and order and get the new title, due date, priority and completion |
| `App.Remaining` | js/app.js:197 | no longer than the list, holding exactly the tasks whose id differs |
| `App.DeleteRemovesExactly` | js/app.js:197 | the remaining tasks are exactly those whose id differs, with their multiplicities, as a subsequence; an absent id changes nothing |
| `App.DeleteUniqueRemovesOne` | js/app.js:197 | with unique ids, deleting a present id removes exactly one task |
| `App.ClearCompletedKeepsOpen` | js/app.js:101 | clearing completed tasks keeps exactly the open ones, with their multiplicities, as a subsequence |
| `App.Renumbered` | js/app.js:234 | same length; task i keeps every field but `order`, which becomes i |
| `App.Dropped` | js/app.js:230-234 | the list after a drop has as many tasks as before (`App.DropRenumbers` states the rest) |
| `App.ReorderedSameTasks` | js/app.js:232 | ignoring `order`, the reordered list holds the same tasks as before |
| `App.DropRenumbers` | js/app.js:227-234 | an empty dragged id or a drop on itself changes nothing; otherwise the result has the same length, each task's order is its index, and ignoring order it is a permutation of the old tasks |
| `App.ImportResult` | js/app.js:314-324 | a payload that is not an array is refused; an array is normalised element by element with generated ids |
| `App.ExportImportRoundTrip` | js/app.js:316-324 | importing an exported list yields exactly that list |
| `App.ModeOf` | js/app.js:346-374 | the sort mode is newest, oldest, due date or priority exactly for "newest", "oldest", "duedate" and "priority"; every other value sorts manually |
| `App.DueTime` | js/app.js:356-357 | an undated task's time is `Infinity`; a dated task's time is its due date |
| `App.TimeDiff` | js/app.js:359 | `aTime - bTime` for distinct times: never 0, the plain difference of two dates, positive when `aTime` is `Infinity`, negative when `bTime` is |
| `App.Compare` | js/app.js:346-374 | definition: the five comparators, chosen by `App.ModeOf`; `App.CompareAntisymmetric` and `App.LeTransitive` state their laws |
| `App.Rank` | js/app.js:364-366 | priority rank is between 0 and 2: 0 exactly for "high", 2 exactly for "low", 1 for everything else |
| `App.CompareAntisymmetric` | js/app.js:346-374 | every comparator changes sign when its arguments are swapped |
| `App.LeTransitive` | js/app.js:346-374 | every comparator orders transitively |
| `App.SortTasks` | js/app.js:347-374 | the in-place sort leaves the array sorted by the comparator and a permutation of its old contents |
| `App.Contains` | js/app.js:340 | definition: `includes`, a prefix of the title or of one of its suffixes; `App.ContainsIff` states its meaning |
| `App.Shown` | js/app.js:337-343 | definition: the filter callback — "active" hides completed tasks, "completed" hides open ones, a non-empty search hides titles that do not contain it |
| `App.Matching` | js/app.js:337-343 | no longer than the list, holding exactly the tasks accepted by `App.Shown` |
| `App.MatchingAppend` | js/app.js:337-343 | after appending a task, the tasks on view before sorting are the old ones followed by the new task when it is shown, and the old ones alone otherwise |
| `App.MatchingIsSubsequence` | js/app.js:337-343 | before sorting, the visible tasks are a subsequence of the list and are exactly the tasks passing the filter and the search |
| `App.TaskManager.constructor` | js/app.js:62-69 | the list and theme come from storage; the filter is "all", the sort "manual", the search empty, and no dialog is open |
| `App.TaskManager.Submit` | js/app.js:144-163 | a blank title leaves the list unchanged; otherwise exactly one task is appended, with the trimmed title, not completed, the chosen or default priority, the given id and clock, and `NextOrder` of the old list |
| `App.TaskManager.ToggleComplete` | js/app.js:190-194 | the list becomes `Toggled` of the old list; nothing else in the state changes |
| `App.TaskManager.DeleteTask` | js/app.js:196-200 | the list becomes the old list without the tasks with that id |
| `App.TaskManager.ClearCompleted` | js/app.js:100-104 | the list becomes the old list's open tasks |
| `App.TaskManager.Drop` | js/app.js:222-237 | the list becomes `Dropped` of the old list: unchanged on an empty or self drop, otherwise reordered and renumbered |
| `App.TaskManager.ModalSave` | js/app.js:273-299 | no open task, or a blank title: list unchanged, with the matching outcome; otherwise the open task is `Edited` and the dialog's task id is cleared |
| `App.TaskManager.Import` | js/app.js:308-334 | a refused payload reports failure and leaves the list unchanged; an accepted one replaces the list with the normalised tasks |
| `App.TaskManager.VisibleTasks` | js/app.js:336-375 | the result holds exactly the tasks passing the filter and the search, as a multiset, sorted by the mode: manual by order, newest/oldest by creation time, priority by rank then order, due date with dated before undated, then by date, then by order |

## Left out

- DOM and browser wiring are not modelled: element lookups, event binding, rendering, theme classes,
  and showing or hiding the edit dialog. Also out: keyboard shortcuts, `handleDragStart`, `handleDragEnd`,
  `updateThemeButton`, and `handleDragOver`, which moves page nodes using pixel geometry. The filter, sort
  and search fields are plain fields of `TaskManager`; the handlers that set them only assign them.
- `openModal` and `handleModalDelete` are not modelled (dialog and `confirm` user interface).
  `ModalSave` reads `currentModalTaskId` as the dialog left it.
- The I/O is not modelled: `localStorage` reads and writes, `saveTasks`, `saveTheme`, `persist`,
  the Blob download of `exportTasks`, `FileReader`, and the "no file chosen" return of `handleImport`.
  The stored text and its parsed value are inputs. The saved form of a task is modelled by `Storage.Serialize`.
- JSON parsing itself is not modelled. Stored field values are taken to be of their intended type: a
  string id, title and priority, and an integer due date and creation time. Only `completed` and `order`
  keep the JavaScript value kinds, because `Boolean(...)` and `typeof` inspect them.
- `createId`, `Date.now()` and `debounce` are not modelled: ids and clock readings are parameters. One
  load or import uses a single clock reading for every element, where the source may read the clock
  once per element.
- Numbers are unbounded integers. Fractional values, NaN, precision loss above 2^53 and the argument
  limit of `Math.max(...)` are not modelled.
- Dates are epoch-millisecond integers. Parsing date strings is left out, including the NaN of an
  invalid date; so is locale formatting (`formatDate`, `toLocaleDateString`).
- The search string's lower-casing and the title's `toLowerCase()` are not modelled: titles and search are
  compared as given. `state.tagFilter` is never set and is left out.
- `App.Rank` does not model priority names that are properties of every JavaScript object (for example
  "constructor"). The lookup then yields a non-number, which would make the comparator return NaN.
- `App.TimeDiff` represents a difference involving `Infinity` by -1 or 1: the sort only uses the sign.
- `App.SortTasks`: proves the result sorted and a permutation but does not state stability. `Array.prototype.sort`
  is stable, and the insertion sort used here is stable by construction, but no contract says so.
- `App.TaskManager.VisibleTasks`: orders tasks with equal keys only as the stable sort leaves them; that
  order is not stated.
- `Utils.ReorderById`: returns the input array object itself when `fromId` is absent, and a fresh copy
  otherwise. The model works on sequence values, so that identity and "the input is not mutated" hold by
  construction rather than being stated.
- The fallback stub objects at the top of js/app.js are not modelled; the real storage and utility
  functions are.
