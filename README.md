# Task store of the React Native task manager, in Dafny

This project models the task store of a small to-do application. The store
keeps an ordered list of tasks. Each task has an `id`, a `text`, a
`completed` flag and a `createdAt` time, and the newest task comes first. The
store offers three operations. Each one computes a new list and replaces the
old one with it:

- `addTask(text)` trims the text. If nothing is left, it does nothing.
  Otherwise it puts a new, uncompleted task in front. The task's id is the
  decimal string of the millisecond clock.
- `toggleTask(id)` inverts `completed` on every task with that id.
- `deleteTask(id)` keeps only the tasks with a different id.

The `useTasks` hook returns the store, and throws if no provider is in scope.

The model has three modules:

- `JsString` (`js_string.dfy`) holds the two JavaScript primitives the store
  uses. `Trim` is `String.prototype.trim`. It strips the ECMAScript
  WhiteSpace and LineTerminator code points from both ends. `DecimalString` is
  `Number.prototype.toString` on a non-negative integer.
- `TaskStore` (`task_store.dfy`) holds the `Task` datatype. It has the pure
  transformations `Add`, `Toggle` and `Delete` and the lemmas about them.
- `TasksContext` (`tasks_context.dfy`) holds the `TasksProvider` class. Its
  `tasks` field is the React state, and its three methods overwrite that field
  with the result of the matching pure function. This module also holds
  `UseTasks`, which maps a missing context to a `Failure`.

The code does not guarantee that ids are unique, so the model does not assume
it either. `Toggle` and `Delete` are stated for every task whose id matches.
`UniqueIds` is a predicate that the lemmas take as a hypothesis where it is
needed. The `Task` interface (app/tasks-context.tsx:4-9, modelled by the
`TaskStore.Task` datatype) calls the id a unique identifier, but the code maps
and filters over every task with a matching id, and the model follows the code. `SameMillisecondAddsShareId` shows how two tasks can end up
with the same id. `DistinctClockReadingsDistinctIds` shows that adds at
different milliseconds never share one.

## Model

| member | source | states |
|---|---|---|
| `JsString.IsWhitespace` | app/tasks-context.tsx:27 | the characters `trim` strips are the ECMAScript WhiteSpace and LineTerminator code points, all of them inside the Basic Multilingual Plane |
| `JsString.LeadingWhitespace` | app/tasks-context.tsx:27 | the count of leading characters `trim` removes from the front: all of them are white space, and the character after them is not |
| `JsString.TrailingWhitespaceStart` | app/tasks-context.tsx:27 | the point from which `trim` cuts the end: everything from there on is white space, and the character before it is not |
| `JsString.Trim` | app/tasks-context.tsx:27 | `text.trim()` is a slice of the input with only white space outside it, and it has no white space at either end |
| `JsString.TrimEmptyIffAllWhitespace` | app/tasks-context.tsx:27 | the trimmed text is empty (falsy) exactly when every character of the input is white space |
| `JsString.TrimOfTrimmed` | app/tasks-context.tsx:30 | trimming a string with no white space at its ends gives it back unchanged |
| `JsString.TrimIdempotent` | app/tasks-context.tsx:30 | trimming the stored, already trimmed text again changes nothing |
| `JsString.DecimalString` | app/tasks-context.tsx:29 | `Date.now().toString()` is a non-empty string of decimal digits, one digit long exactly for readings below 10, and starting with `0` only for the reading 0 (no leading zero) |
| `JsString.DecimalStringInjective` | app/tasks-context.tsx:29 | different clock readings give different id strings |
| `TaskStore.CountId` | app/tasks-context.tsx:45 | the number of tasks carrying an id is at most the list length, and it is zero exactly when `HasId` is false |
| `TaskStore.Add` | app/tasks-context.tsx:26-35 | `addTask` leaves the length unchanged for a blank text and adds one otherwise. The old list is always the tail of the new one, and non-empty trimmed texts stay that way. `AddBlankIsNoop` and `AddPrepends` give the two cases in full |
| `TaskStore.AddBlankIsNoop` | app/tasks-context.tsx:27 | when the text is empty or only white space, `addTask` leaves the list exactly as it was |
| `TaskStore.AddPrepends` | app/tasks-context.tsx:27-34 | for a non-blank text, the list grows by one. The new task is at index 0 with the clock's id, the trimmed text (non-empty, a slice of the input), `completed == false` and the given creation time. From index 1 on, the list is the old list |
| `TaskStore.AddPreservesWellFormed` | app/tasks-context.tsx:27-34 | when every stored text is non-empty and trimmed before `addTask`, that is still true after it |
| `TaskStore.AddPreservesUniqueIds` | app/tasks-context.tsx:29-34 | if the clock reading is not already a stored id, unique ids stay unique after `addTask` |
| `TaskStore.SameMillisecondAddsShareId` | app/tasks-context.tsx:29 | two non-blank adds with the same clock reading put two tasks with the same id at the front, so the ids are no longer unique |
| `TaskStore.DistinctClockReadingsDistinctIds` | app/tasks-context.tsx:29 | two non-blank adds at different milliseconds give the two new tasks different ids |
| `TaskStore.Toggle` | app/tasks-context.tsx:38-42 | `toggleTask` keeps the length and the order. Each task keeps its id, text and creation time. Its `completed` is inverted exactly when its id matches |
| `TaskStore.ToggleTwiceIsIdentity` | app/tasks-context.tsx:39-41 | toggling the same id twice in a row gives back the original list |
| `TaskStore.ToggleAbsentIsNoop` | app/tasks-context.tsx:39-41 | toggling an id that no task has leaves the list unchanged |
| `TaskStore.TogglePreservesWellFormed` | app/tasks-context.tsx:39-41 | toggling keeps every stored text non-empty and trimmed |
| `TaskStore.TogglePreservesUniqueIds` | app/tasks-context.tsx:39-41 | toggling keeps unique ids unique |
| `TaskStore.Delete` | app/tasks-context.tsx:44-46 | after `deleteTask`, no task has the id. Every remaining task is an old task, every old task with a different id remains, and the length drops by the number of tasks with that id |
| `TaskStore.DeleteAppend` | app/tasks-context.tsx:45 | deleting from a concatenation is the concatenation of the deletions. The filter works element by element |
| `TaskStore.DeleteIsSubsequence` | app/tasks-context.tsx:45 | the remaining tasks keep their original relative order |
| `TaskStore.DeleteAbsentIsNoop` | app/tasks-context.tsx:45 | deleting an id that no task has leaves the list unchanged |
| `TaskStore.DeleteIdempotent` | app/tasks-context.tsx:45 | deleting the same id twice is the same as deleting it once |
| `TaskStore.DeleteUniquePresentRemovesOne` | app/tasks-context.tsx:45 | when ids are unique and the id is present, deletion removes exactly one task |
| `TaskStore.DeletePreservesWellFormed` | app/tasks-context.tsx:45 | deletion keeps every stored text non-empty and trimmed |
| `TaskStore.DeletePreservesUniqueIds` | app/tasks-context.tsx:45 | deletion keeps unique ids unique |
| `TaskStore.DeleteAfterToggle` | app/tasks-context.tsx:39-45 | toggling an id and then deleting it leaves the same list as deleting it directly |
| `TasksContext.TasksProvider.constructor` | app/tasks-context.tsx:24 | the provider's state starts as the empty list |
| `TasksContext.TasksProvider.AddTask` | app/tasks-context.tsx:26-36 | the new state is `Add` of the old state. A blank text leaves the state unchanged. Otherwise the new task is in front of the unchanged old list. Every stored text stays non-empty and trimmed |
| `TasksContext.TasksProvider.ToggleTask` | app/tasks-context.tsx:38-42 | the new state is `Toggle` of the old state. An absent id leaves the state unchanged. Every stored text stays non-empty and trimmed |
| `TasksContext.TasksProvider.DeleteTask` | app/tasks-context.tsx:44-46 | the new state is `Delete` of the old state. No task has the id afterwards, and an absent id leaves the state unchanged |
| `TasksContext.UseTasks` | app/tasks-context.tsx:56-62 | the hook fails, with the provider-missing message, exactly when the context is undefined. Otherwise it returns the context value |
| `TasksContext.Walkthrough` | app/tasks-context.tsx:26-46 | from an empty list: add "A" then "B" gives `[B, A]`. Toggling B completes it, and deleting A leaves only the completed B |

## Left out

- React rendering, `createContext`, `TasksContext.Provider` and the way `useContext` passes the value down the tree are left out. `UseTasks` takes the context value as an `Option` parameter.
- The clock reads `Date.now()` and `new Date()` are parameters of `Add`. `now` is a `nat`, the milliseconds since the epoch, and `createdAt` is an integer time in milliseconds rather than a `Date` object. JavaScript switches to exponent notation for numbers of 10^21 and above. `DecimalString` does not model that, because a millisecond clock never gets that large.
- The source's state updates differ slightly. `addTask` uses a functional updater on the previous list, while `toggleTask` and `deleteTask` compute from the list captured at render time. This only matters when React batches several updates. The model computes every operation from the current list.
- Re-rendering is not modelled. The source calls `setTasks` on every toggle and delete, even when nothing matched.
- The list and statistics screens are not part of this model. This includes their counts and the completion rate, which uses floating-point rounding.
- `IsWhitespace` is defined on Unicode code points. JavaScript strings are UTF-16 code units. Every character `trim` removes is in the Basic Multilingual Plane, so the difference does not change what gets trimmed.
