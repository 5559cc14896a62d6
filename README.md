# Todo list: store, partition, swipe-to-delete and the add-task input

A model of a single-screen mobile todo list. Users add, complete and delete short text tasks.

- **Store.** An ordered list of tasks, newest first, plus a counter `nextId`. It has three
  operations: `addTodo` trims the text, ignores blank text and puts a new, not completed task at
  the head; `toggleTodo` flips `completed` on the task with a given id; `deleteTodo` removes the
  task with a given id. It is a class `TodoStore.Store` with fields `todos` and `nextId`. The
  list transforms themselves are pure functions: `Toggled` (the `map`), `Without` (the
  `filter`) and the head insertion of `NewTodo`. The class invariant is that ids are pairwise
  distinct and every id the counter made is below its current value.
- **Ids.** A task id is `demo-N` for the three seed tasks and `todo-C-S` for an added task. Here
  C is the counter value and S the clock reading. The model keeps ids as the datatype
  `TodoId = Demo(n) | Generated(counter, stamp)`. `IdText` renders the source's string, and
  `IdTextInjective` proves that two ids have the same string exactly when they are equal. So
  the source's string comparison `t.id === id` is id equality here.
- **Screen.** The screen splits the list into `active` and `completed` tasks, counts them, and
  decides what to show: the progress summary, the active rows, the "Completed" section or the
  empty state. `IndexScreen.Summarize` is that projection. The display conditions are
  predicates over it. Three methods connect the input and the rows to the store:
  `SubmitNewTask`, `TapRow` and `ReleaseRow`.
- **Swipe-to-delete.** Each row keeps where the touch began (`panStartX`), how far the row is
  pushed left (`offset`) and a phase. It is a class `TodoItem.SwipeRow` with one method per
  touch event. A release more than 80 units left of the touch start asks for one delete, of the
  row's own id. Any other release returns the row to offset 0. The source keeps no phase
  variable. `phase` names the states (Idle, Dragging, Committing) and guards nothing, just as
  the source's handlers are not guarded.
- **Add-task input.** The input keeps the text typed so far. Submit hands the trimmed text over
  once and clears the field, or does nothing when the text is blank. The submit button shows
  while the trimmed text is not empty. It is a class `AddTodo.AddTodoInput`.
- **Trim.** `Text.Trim` is `String.prototype.trim`. It strips the ECMAScript white-space and
  line-terminator characters from both ends.
- **Calls to other components.** A component's calls to `onAdd`, `onToggle` and `onDelete`
  are returned as the sequence of arguments it passes. The wiring methods forward them to the
  store.

Where the written design and the code differ, the model follows the code:

- The design speaks of a Returning state after a short drag. The code only starts a spring
  animation to 0, so the model sets the offset to 0 and goes back to Idle.
- The design says a delete shortens the list by exactly one. The code removes every task with
  that id, and `Without` models that. The length drops by exactly one when ids are distinct
  (`DeleteAt`), which the store's invariant guarantees.

## Model

| member | source | states |
|---|---|---|
| `TodoStore.Store.constructor` | src/components/todo-store.tsx:19-41 | The store starts with the three seed tasks and `nextId == 1`, and the id invariant holds |
| `TodoStore.Store.AddTodo` | src/components/todo-store.tsx:43-55 | Blank text leaves the list and `nextId` unchanged. Otherwise the new list is the old list with a not-completed task holding `Trim(text)` and the id `Generated(nextId, idNow)` in front. That id is in no old task, `nextId` grows by one, and the id invariant is kept |
| `TodoStore.Store.ToggleTodo` | src/components/todo-store.tsx:57-61 | The new list is `Toggled(old list, id)`, the counter is unchanged and the id invariant is kept |
| `TodoStore.Store.DeleteTodo` | src/components/todo-store.tsx:63-65 | The new list is `Without(old list, id)`, no task has the id afterwards, the counter is unchanged and the id invariant is kept |
| `TodoStore.SeedFacts` | src/components/todo-store.tsx:22-41 | The seed has three tasks with distinct ids rendered `demo-1`, `demo-2`, `demo-3`; the first two are active and the third completed |
| `TodoStore.IdTextInjective` | src/components/todo-store.tsx:48 | Two ids render to the same string (`demo-N` or `todo-C-S`) exactly when they are the same id |
| `TodoStore.DecimalInjective` | src/components/todo-store.tsx:48 | Different counter or clock values are written as different decimal strings in the id |
| `TodoStore.AddKeepsIdsDistinct` | src/components/todo-store.tsx:46-54 | When ids are distinct and below the counter, the new id `Generated(nextId, _)` is in no task of the list. Prepending the new task keeps ids distinct, and all ids are then below `nextId + 1` |
| `TodoStore.ToggledAt` | src/components/todo-store.tsx:59 | Toggling keeps length and order. It keeps every id, text and creation time, and flips `completed` exactly on the tasks whose id matches |
| `TodoStore.ToggleUnknownIsNoop` | src/components/todo-store.tsx:59 | Toggling an id that no task has returns the list unchanged |
| `TodoStore.ToggleTwiceRestores` | src/components/todo-store.tsx:59 | Toggling the same id twice gives back the original list |
| `TodoStore.ToggleKeepsIds` | src/components/todo-store.tsx:59 | Toggling neither breaks nor creates id distinctness, nor the counter bound |
| `TodoStore.WithoutMembers` | src/components/todo-store.tsx:64 | A task remains after delete exactly when it was in the list and its id differs |
| `TodoStore.DeleteUnknownIsNoop` | src/components/todo-store.tsx:64 | Deleting an id that no task has returns the list unchanged |
| `TodoStore.DeleteAt` | src/components/todo-store.tsx:64 | With distinct ids, deleting the id of the task at position k gives `ts[..k] + ts[k+1..]`: that one task goes, the rest keep their order, and the length drops by 1 |
| `TodoStore.DeleteIdempotent` | src/components/todo-store.tsx:64 | Deleting the same id twice is the same as deleting it once |
| `TodoStore.DeleteKeepsIds` | src/components/todo-store.tsx:63-65 | Deleting keeps ids distinct and below the counter, and no remaining task has the deleted id |
| `Text.TrimSlice` | src/components/todo-store.tsx:44 | `Trim(s)` is a slice `s[i..j]`: everything before `i` and from `j` on is white space, and a non-empty result starts and ends with a non-white-space character |
| `Text.TrimmedHasNoOuterWhitespace` | src/components/add-todo.tsx:15 | A non-empty trimmed text neither starts nor ends with white space |
| `Text.TrimIdempotent` | src/components/todo-store.tsx:44 | Trimming an already trimmed text changes nothing. The store's second trim of the input's text has no effect |
| `Text.TrimEmptyIff` | src/components/todo-store.tsx:44-45 | The trimmed text is empty exactly when every character is white space, so that is when `addTodo` and submit ignore the text |
| `Lists.FilterMembers` | src/app/index.tsx:17-18 | An element survives `filter` exactly when it is in the input and satisfies the predicate |
| `Lists.FilterConcat` | src/app/index.tsx:17-18 | `filter` of a concatenation is the concatenation of the filtered parts, so relative order is kept |
| `Lists.FilterIdempotent` | src/components/todo-store.tsx:64 | Filtering twice with one predicate equals filtering once |
| `Lists.FilterSplit` | src/app/index.tsx:17-18 | Filtering by a predicate and by its negation puts every element on exactly one side: the multisets add up to the input and so do the lengths |
| `IndexScreen.Summarize` | src/app/index.tsx:16-23 | `active` holds exactly the tasks that are not completed, and `completed` exactly the completed ones. Every task is in exactly one of them, the lengths add up to `totalCount`, and `completedCount <= totalCount` |
| `IndexScreen.PartitionKeepsOrder` | src/app/index.tsx:17-18 | The active and completed parts of `a + b` are the parts of `a` followed by the parts of `b`, so both keep store order |
| `IndexScreen.PartitionOfOne` | src/app/index.tsx:17-18 | A single task goes to the part its `completed` flag names |
| `IndexScreen.PartitionOfPrepend` | src/app/index.tsx:17-18 | A task at the head of the list is at the head of its part, and the other part is unchanged |
| `IndexScreen.ProgressOrEmptyState` | src/app/index.tsx:126 | The empty state (line 126) and the progress summary (line 41) are never shown together, and one of them is always shown. The empty state never appears beside a row section. The progress summary is shown exactly when some row section is |
| `IndexScreen.ActiveRowsShownIff` | src/app/index.tsx:86 | The active rows are shown exactly when some task is not completed |
| `IndexScreen.CompletedSectionShownIff` | src/app/index.tsx:100 | The completed header and its rows are shown exactly when some task is completed |
| `IndexScreen.SeedPartition` | src/components/todo-store.tsx:22-41 | The seed list shows two active tasks and one completed |
| `IndexScreen.SeedScenarioAdd` | src/components/todo-store.tsx:46-54 | Adding "Test" to the seed gives four tasks, three of them active |
| `IndexScreen.SeedScenarioToggle` | src/components/todo-store.tsx:57-61 | Toggling the new task flips only it, leaving two active and two completed tasks |
| `IndexScreen.SeedScenarioDelete` | src/components/todo-store.tsx:63-65 | Deleting the new task then gives back exactly the seed list of three |
| `IndexScreen.SubmitNewTask` | src/app/index.tsx:83 | Submitting blank text changes neither the input nor the store. Otherwise the store gains one task at its head, with the input's trimmed text (the store's second trim changes nothing), and the input is cleared |
| `IndexScreen.TapRow` | src/app/index.tsx:92 | A tap on a row toggles exactly that row's id in the store |
| `IndexScreen.ReleaseRow` | src/components/todo-item.tsx:33-40 | A committing release deletes exactly the row's id from the store. Any other release leaves the store's list alone and puts the row back at offset 0 |
| `TodoItem.CommitsIff` | src/components/todo-item.tsx:83-84 | A release commits exactly when `pageX < panStartX - 80`. A drag of exactly -80 does not commit and one of -81 does, and the offset is not consulted |
| `TodoItem.MoveKeepsOffsetNonPositive` | src/components/todo-item.tsx:76-81 | From a non-positive offset, a move leaves it non-positive. A leftward drag sets it to the drag, and any other drag leaves it as it was |
| `TodoItem.SwipeRow.constructor` | src/components/todo-item.tsx:25-26 | A row starts at offset 0 with touch start 0, idle, with its task's id |
| `TodoItem.SwipeRow.Grant` | src/components/todo-item.tsx:73-75 | Touch start sets `panStartX` to `pageX` whatever it held before (the last touch wins) and leaves the offset |
| `TodoItem.SwipeRow.Move` | src/components/todo-item.tsx:76-81 | The offset becomes `pageX - panStartX` when that is negative and is otherwise unchanged. The invariant `offset <= 0` is kept, so the offset is never positive after any sequence of events |
| `TodoItem.SwipeRow.Release` | src/components/todo-item.tsx:82-92 | Past the threshold it asks for exactly one delete, of the row's own id. Otherwise it asks for none and the offset returns to 0. The decision depends only on `pageX` and `panStartX` |
| `TodoItem.SwipeRow.Tap` | src/components/todo-item.tsx:28-31 | A tap asks for exactly one toggle, of this row's id |
| `AddTodo.SubmitVisibleIff` | src/components/add-todo.tsx:56 | The submit button is shown exactly when the text holds a character that is not white space |
| `AddTodo.AddTodoInput.constructor` | src/components/add-todo.tsx:12 | The field starts empty |
| `AddTodo.AddTodoInput.ChangeText` | src/components/add-todo.tsx:44 | Typing replaces the whole text |
| `AddTodo.AddTodoInput.Submit` | src/components/add-todo.tsx:14-20 | Blank text asks for no add and keeps the text. Otherwise it asks for exactly one add, of `Trim(text)`, and clears the field. What it hands over is never empty, has no white space at either end, and is its own trim |

## Left out

- Styling, layout, colours, icons and the progress bar's width percentage: they are
  presentation, and the width is a floating-point division used only for rendering.
- Haptic feedback calls: foreign side effects with no bearing on state.
- Animation mechanics: the 250 ms off-screen slide to -400, the spring curve, and the fade and
  layout transitions.
- TodoItem.SwipeRow.Release: returns the delete request at the moment of release. The source
  calls `onDelete` when the 250 ms slide ends, and the model does not capture that delay.
  A second touch during the slide is not modelled either; the scheduled delete cannot be
  cancelled anyway.
- TodoItem.SwipeRow.Release: the spring back is collapsed to its end state (offset 0). The
  committing slide leaves the offset where the drag left it, and its -400 target is not modelled.
- The clock (`Date.now()`) is a parameter: `now` for the seed's creation times, `idNow` for
  the stamp in a new id, `createdNow` for its `createdAt`. The source reads the clock twice
  when adding. Creation times play no part in ordering.
- Touch coordinates are integers rather than floating-point numbers.
- React machinery: context, state hooks, memoisation and re-rendering. The provider's state is
  one `Store` object.
- The `useTodos` throw outside a provider: the wiring methods take a non-null `Store`, so a
  missing provider cannot be expressed.
- TodoStore.Store.constructor: `nextId` lives at module level in the source and survives a
  remount of the provider. The model gives the one store its own counter starting at 1.
- TodoStore.Store.AddTodo: React may run the state updater twice in development mode, and then
  `nextId` grows by two. The model increments it once. Uniqueness holds either way.
- Ids that are neither `demo-N` nor `todo-C-S` strings: `toggleTodo` and `deleteTodo` take a
  `TodoId`. An id string no task has is any `TodoId` not in the list.
- Rendering the rows (keys, row order on screen, text styling of completed tasks).
