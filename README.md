# Task list engine, modelled in Dafny

This project models the engine of a browser to-do list. The engine exists in
three successive revisions, `scripting.js`, `script.js` and `nscript.js`.
Under the DOM calls sits a small state machine:

- the `.list` elements in document order, newest first, each a text and a
  `completed` flag;
- the filter drop-down value;
- two storage slots, `tasks` (the list, oldest first) and `filterOption`.

Its operations are:

- adding a task, refused on an exact trimmed-text duplicate;
- deleting one task and clearing all, each behind a confirmation dialog;
- toggling a task's status, with rules for empty text and confirmations;
- reconciling an edited task on blur or on Enter;
- filtering the visible tasks and showing the "no tasks" message;
- the three badge counts;
- saving, and loading by replaying the saved list through the add operation.

`nscript.js` also routes add, delete, clear and toggle through a FIFO
action queue.

Files:

- `text.dfy` (module `TaskText`): the string operations the engine applies
  to task text. These are `trim()`, `slice(0, 100)`, the collapse of
  whitespace runs, the paste filter and the classification of keystrokes in
  the main input.
- `tasks.dfy` (module `Tasks`): the list as a value. It holds the duplicate
  test, removal, the saved snapshot and its replay, the counts and the
  filter's visibility rule, with the lemmas that relate them.
- `engine.dfy` (module `Engine`): class `TodoList`, whose fields are the
  list, the drop-down value and the two slots. Its methods are the handlers
  of `scripting.js` and `script.js`. Where the revisions differ, one method
  per revision models it: the status toggle and the Enter-key save.
- `queue.dfy` (module `Queue`): class `ActionQueue` for `nscript.js`, with
  the queued handlers and the dialog callbacks that run outside the queue.
- `findings.dfy` (module `Findings`): concrete pages showing the two
  Enter-key save defects listed under Findings.

A confirmation dialog is modelled as a `confirmed` argument: true for the
confirm button, false for cancel. Where the source reads `filterTasks`'s
option from the `filterOption` slot and not from the drop-down, so does the
model.

## Model

| member | source | states |
|---|---|---|
| TaskText.TrimStart | script.js:61 | the dropped prefix is whitespace, the result does not start with whitespace, is empty iff the text is all whitespace, keeps every non-whitespace character, and leaves a text alone when it does not start with whitespace |
| TaskText.TrimEnd | script.js:61 | the dropped suffix is whitespace, the result does not end with whitespace, starts where the text starts, is empty iff the text is all whitespace, and leaves a text alone when it does not end with whitespace |
| TaskText.TrimStartIsSuffix | script.js:61 | what is left after the leading whitespace is exactly the matching suffix of the text |
| TaskText.TrimEndIsPrefix | script.js:61 | what is left before the trailing whitespace is exactly the matching prefix of the text |
| TaskText.Trim | scripting.js:258 | neither end of the trimmed text is whitespace, it is no longer than the text, and it is empty exactly when the text is all whitespace |
| TaskText.TrimIsStretch | scripting.js:258 | the trimmed text is the contiguous stretch of the text after its leading whitespace, with only whitespace after it; with `Trim`'s contract this fixes its value |
| TaskText.TrimIdempotent | script.js:69 | trimming an already trimmed text changes nothing, so the second trim of the main input is a no-op |
| TaskText.Collapse | scripting.js:264 | `replace(/\s+/g, ' ')` keeps every non-whitespace character in order, leaves single plain spaces only, is empty only for the empty text, keeps whether the text starts and whether it ends with whitespace, and never lengthens the text |
| TaskText.CollapseWords | scripting.js:264 | collapsing keeps the words (maximal runs of non-whitespace), in order and each intact; with `Collapse`'s contract this fixes its value |
| TaskText.Truncate | scripting.js:259-261 | `slice(0, 100)` on a text longer than 100 gives its first 100 characters, and a text of at most 100 is left alone |
| TaskText.BlurText | scripting.js:258-264 | the blur handler's text is `Collapse(Truncate(Trim(live)))`; its properties are stated by `BlurTextBounds` |
| TaskText.BlurTextBounds | scripting.js:258-264 | the text the blur handler settles on has at most 100 characters, is single-spaced, and is empty exactly when the live text was all whitespace |
| TaskText.PasteFilter | script.js:94 | the paste filter's result holds only `[a-zA-Z0-9 ]`, is a subsequence of the pasted text, and keeps every occurrence of every allowed character |
| TaskText.PasteFilterKeepsAllowed | script.js:104 | a text made only of allowed characters passes the filter unchanged |
| TaskText.PasteFilterIdempotent | script.js:94 | filtering twice is filtering once |
| TaskText.ClassifyMainKey | script.js:60-88 | at 100 or more trimmed characters every key except Backspace is blocked, Enter included, and below 100 nothing is blocked for length; Enter on a shorter non-empty trimmed input submits exactly the trimmed input; below 100 a key is blocked as special exactly when it is outside `[a-zA-Z0-9 ]` and is not Backspace; every other key, Enter on an empty input included, takes its default effect; Backspace is never blocked |
| Tasks.IsDuplicateTask | scripting.js:364-367 | the walk over the list comparing trimmed texts; its meaning is stated by `IsDuplicateTaskMeaning` |
| Tasks.IsDuplicateTaskMeaning | scripting.js:364-367 | a text is a duplicate exactly when some task's trimmed text equals it, case-sensitively and with the argument untrimmed |
| Tasks.PrependKeepsDistinct | scripting.js:371-384 | prepending a trimmed text that is not a duplicate keeps all trimmed texts pairwise distinct (no duplicate after add) |
| Tasks.Remove | script.js:156 | removing one element shortens the list by one and keeps every other task in its relative order |
| Tasks.RemoveKeepsDistinct | script.js:156 | removing a task keeps the remaining trimmed texts pairwise distinct |
| Tasks.RemoveNotDuplicate | scripting.js:267-269 | a text no task has is a text no remaining task has once one is removed |
| Tasks.Snapshot | scripting.js:55-59 | the saved list has one entry per task, in reverse document order (oldest first), each with its text and flag |
| Tasks.ReplayStep | scripting.js:14-16 | one `addTaskToList` call of the load loop: a duplicate entry is skipped, any other is prepended |
| Tasks.Replay | scripting.js:14-16 | the load loop over the saved entries, oldest first; its properties are stated by `ReplayAppend`, `ReplayGrows`, `ReplayKeepsDistinct` and `ReplaySnapshot` |
| Tasks.ReplayAppend | scripting.js:13-15 | replaying one more saved entry applies one more `addTaskToList` step to the page replay produced |
| Tasks.ReplayGrows | scripting.js:13-15 | replay never removes or changes a task already on the page: the starting list is a suffix of the result, and at most one task is added per saved entry |
| Tasks.ReplaySnapshot | scripting.js:10-19 | loading what was saved onto an empty page rebuilds the list, newest first with every flag intact, when the trimmed texts are pairwise distinct |
| Tasks.ReplayKeepsDistinct | scripting.js:13-15 | loading saved entries whose texts are already trimmed onto a page whose trimmed texts are pairwise distinct keeps them pairwise distinct |
| Tasks.ReplayKeepsUntrimmedRepeat | scripting.js:364-373 | an untrimmed saved text is not recognised as a repeat of the same trimmed text: saved "a" then " a" loads both, and the page is no longer pairwise distinct |
| Tasks.ReplayDropsRepeatedEntry | scripting.js:371-373 | a saved list holding the same trimmed text twice, as two equal entries, loads it once |
| Tasks.CountCompleted | scripting.js:24 | the completed count never exceeds the number of tasks |
| Tasks.TaskCounts | scripting.js:22-32 | the All badge is the list length, Completed plus In-Progress equals All, and In-Progress (computed as All minus Completed) is the number of uncompleted tasks, over the whole list whatever the filter |
| Tasks.CountsSplit | scripting.js:24-25 | every task is either completed or uncompleted |
| Tasks.SelectedOption | scripting.js:505 | the option applied is the stored filter, or "all" when the slot is missing or empty |
| Tasks.DisplayFor | scripting.js:519-536 | the switch of `filterTasks` for one task; what it shows is stated by `FilterTasks`, `CountShownZero` and `BadgesMatchViews` |
| Tasks.CountShownZero | scripting.js:538-544 | a view counts zero tasks exactly when it shows none |
| Tasks.BadgesMatchViews | scripting.js:22-32 | the "all", "completed" and "uncompleted" views show as many tasks as the All, Completed and In-Progress badges |
| Engine.TodoList.constructor | scripting.js:10 | a page before loading has no tasks, the drop-down on "all", and the slots as stored |
| Engine.TodoList.UpdateLocalStorage | scripting.js:577-584 | the tasks slot holds the snapshot of the current list |
| Engine.TodoList.AllTasks | script.js:35-57 | both slots are rewritten: the snapshot of the list and the drop-down value |
| Engine.TodoList.InsertTask | nscript.js:351-358 | the new task is first, the others follow in order, the drop-down is "all" and both slots hold the new state |
| Engine.TodoList.AddTaskToList | scripting.js:371-395 | a duplicate changes nothing; otherwise exactly one task with the given text and flag is prepended, the rest keep their order, the filter becomes "all" and both slots are rewritten |
| Engine.TodoList.Load | scripting.js:10-19 | the page becomes the replay of the saved entries (or of none); the drop-down is the stored filter (or "all") unless a task was replayed, in which case it is "all"; both slots are rewritten |
| Engine.TodoList.SelectFilter | scripting.js:498-501 | changing the drop-down leaves the list alone and stores the new filter value |
| Engine.TodoList.FilterTasks | scripting.js:504-545 | "all" shows every task, "completed" exactly the completed ones, "uncompleted" exactly the others, any other value touches none; the "no tasks" message is set iff no task is shown, iff the matching view counts zero |
| Engine.TodoList.KeydownMain | scripting.js:67-95 | a submitted text that is not a duplicate is prepended and the input cleared; anything else changes nothing; at 100 trimmed characters nothing is ever added |
| Engine.TodoList.NoteIconClick | script.js:112-124 | a non-empty trimmed input that is not a duplicate is prepended and the input cleared, with no length limit; anything else changes nothing |
| Engine.TodoList.RemoveTask | scripting.js:162-168 | the task at the position is removed, the rest keep their order, both slots are rewritten, and distinct texts stay distinct |
| Engine.TodoList.DeleteTask | script.js:149-163 | a confirmed delete removes exactly that task and keeps the order of the rest; a cancelled one changes nothing |
| Engine.TodoList.RemoveAll | scripting.js:199-205 | removing every element one by one leaves an empty list and saves it |
| Engine.TodoList.ClearAll | script.js:188-204 | the dialog opens iff the list is non-empty; a confirmed clear empties the list; otherwise nothing changes |
| Engine.TodoList.UpdateTaskStatus | scripting.js:588-629 | checking an empty-text task is refused and the box reset; checking another task completes it at once; unchecking needs confirmation and a cancel re-ticks the box; only that task's flag changes and no completed task ever has empty text |
| Engine.TodoList.HandleTaskStatusUpdate | script.js:380-414 | completing an empty-text task changes nothing; un-completing one removes it; otherwise only that task's flag changes; both slots are rewritten whenever something changed |
| Engine.TodoList.UpdateTaskStatusAlwaysConfirm | script.js:364-376 | every toggle is confirmed and the drop-down never changes; a cancel restores the box to its value before the click and changes nothing; a confirmed completion of an empty task changes nothing and leaves the box ticked on an uncompleted task; a confirmed un-completion of an empty task removes it; otherwise only that task's flag changes; both slots are rewritten whenever something changed |
| Engine.TodoList.EditText | scripting.js:224-227 | only a task that is not completed is edited, and only its text changes |
| Engine.TodoList.EditBlur | scripting.js:257-285 | a settled text of the original's length changes nothing but the sliced span; otherwise the task is removed first, an empty text is saved as removed, a non-duplicate is prepended with the task's flag, and on a duplicate the task is gone while the slots keep their old content |
| Engine.TodoList.Resettle | scripting.js:266-282 | the edited task is removed; an empty text is saved as removed; a non-empty text no remaining task has is prepended with the task's flag; on a duplicate the task is gone and the slots keep their old content |
| Engine.TodoList.SaveEditedTaskScripting | scripting.js:313-345 | a changed text that is empty or a duplicate of any task, the edited one included, removes the task; a changed non-duplicate replaces it at the front |
| Engine.TodoList.EditEnterScripting | scripting.js:229-235 | with the duplicate test run while the edited task is in the list, Enter on a changed edit removes the task and saves the list without it; the drop-down and the filter slot are untouched; an unchanged edit changes nothing |
| Engine.TodoList.SaveEditedTaskByLength | script.js:291-313 | only a change of length counts; an empty text removes the task; a duplicate, the edited task included, changes nothing; a non-duplicate replaces the task at the front |
| Engine.TodoList.EditEnterByLength | script.js:216-221 | Enter never saves a changed non-empty edit and then changes nothing; it only removes a task emptied to a different length, saving the list without it and leaving the drop-down and the filter slot alone |
| Engine.TodoList.SaveEditedTaskScriptingExcludingSelf | scripting.js:313-345 | scripting.js's save with one change, the edited task left out of the duplicate test: texts are compared as written; a changed text that is empty or that another task has removes the task; any other changed text replaces it at the front with its flag, the drop-down goes to "all" and both slots are saved; distinct trimmed texts stay distinct |
| Engine.TodoList.EditEnterScriptingExcludingSelf | scripting.js:229-235 | Enter with that corrected test: an unchanged edit changes nothing; a changed edit emptied to whitespace, or repeating another task's text, removes the task and saves the list without it; any other changed edit replaces the task at the front; distinct texts stay distinct |
| Engine.TodoList.SaveEditedTaskByLengthExcludingSelf | script.js:291-313 | script.js's save with one change, the edited task left out of the duplicate test (what the `listItem` argument at script.js:294 was for): only a change of length counts, as written; an empty text removes the task; a text another task has changes nothing; any other text replaces the task at the front, the drop-down goes to "all" and both slots are saved; distinct trimmed texts stay distinct |
| Engine.TodoList.EditEnterByLengthExcludingSelf | script.js:216-221 | Enter with that corrected test: an edit of the original's length changes nothing; an edit emptied to whitespace removes the task; an edit repeating another task's text changes nothing; any other edit replaces the task at the front; distinct texts stay distinct |
| Engine.Reload | scripting.js:10-19 | saving and loading on a new page gives the same tasks in the same order with the same flags when trimmed texts are distinct, and the drop-down comes back as "all" whenever there was a task |
| Queue.ActionQueue.constructor | nscript.js:2 | the queue starts empty |
| Queue.ActionQueue.Run | nscript.js:351-358 | an insertion prepends its task, sets the filter to "all" and saves; a dialog opening changes no task |
| Queue.ActionQueue.ProcessNextAction | nscript.js:5-10 | on an empty queue nothing happens; otherwise exactly the head is removed and run, and executed plus pending stays the submitted sequence |
| Queue.ActionQueue.QueueAction | nscript.js:13-16 | the action is appended and the head run, so the queue keeps its length; from an empty queue the action runs at once; FIFO order is kept |
| Queue.ActionQueue.AddTaskToListQueued | nscript.js:338-362 | the duplicate test runs at call time; an accepted task is queued and, on an empty queue, prepended at once with the filter set to "all" |
| Queue.ActionQueue.LoadQueued | nscript.js:27-36 | loading through the queue leaves it empty and gives the same page as the replay of the saved entries |
| Queue.ActionQueue.DeleteTaskQueued | nscript.js:157-173 | the queued action only opens the delete dialog; no task changes |
| Queue.ActionQueue.ClearQueued | nscript.js:198-216 | on an empty list nothing is queued; otherwise the queued action only opens the clear dialog |
| Queue.ActionQueue.UpdateTaskStatusQueued | nscript.js:365-380 | the flag at click time is captured and the queued action only opens the dialog |
| Queue.ActionQueue.NotificationTimeout | nscript.js:471-475 | the timeout's extra `processNextAction` does nothing on an empty queue |
| Queue.ResolveStatus | nscript.js:371-379 | a cancel restores the box to the flag captured at click and re-saves the unchanged list; a confirm applies `handleTaskStatusUpdate`, whose empty-text completion is a no-op, and saves; the drop-down never changes, and the filter slot is rewritten with it whenever the confirm changed something |
| Queue.ResolveRemoval | nscript.js:163-170 | a confirmed delete removes exactly that task, a confirmed clear empties the list, both rewrite the slots with the drop-down unchanged, and a cancel changes nothing |
| Findings.EnterDeletesEditScripting | scripting.js:313-345 | "tea" edited to "coffee" and saved with Enter disappears from the page and from the slot |
| Findings.EnterKeepsStaleSlotByLength | script.js:291-313 | the same edit stays on screen while the slot still holds "tea" |
| Findings.EnterSavesEditScriptingExcludingSelf | scripting.js:313-345 | with scripting.js's duplicate test corrected, "tea" edited to "coffee" and saved with Enter is kept on screen and in the slot |
| Findings.EnterSavesEditByLengthExcludingSelf | script.js:294 | with script.js's duplicate test corrected, the same edit is kept on screen and in the slot |

## Left out

- Styling and layout: margins, the clear button's visibility, hover highlighting, note-icon animation, scrolling and the `selected` class.
- Notifications and their 1500 ms lifetime: `setTimeout` is a timer. The queue's extra dequeue at its end is kept as `NotificationTimeout`.
- `showConfirmationDialog` wiring: each call adds another listener pair to the same buttons and never removes them. The model treats each dialog as resolved once, by its own callback.
- `JSON.parse`/`JSON.stringify` and `localStorage`: the slots are fields holding the saved list and the filter string.
- Editing mechanics: caret insertion of pasted text, `contentEditable`, `focus`, and the document-level click routing. Only the paste character filter is modelled.
- Engine.TodoList.EditText: any live text is accepted. The edit-mode keydown checks on special characters and on the 100-character limit only block keystrokes, and the `input` handler only toggles scrolling.
- Engine.TodoList.EditEnterScripting: models the Enter handler alone. A browser may then fire the span's blur handler (scripting.js:257-272) on the removed span; there `listItem.remove()` does nothing and, since the list no longer holds the text, `addTaskToList` adds the edited text back. That blur on a detached span is not modelled (`EditBlur` works on a task still in the list), so the first finding below holds for browsers that do not fire it.
- TaskText.IsSpace: whitespace is ASCII whitespace plus the no-break space, not the full Unicode set that `trim()` and `\s` strip.
- Engine.TodoList.FilterTasks: returns each task's display instead of storing it. A task under an unknown filter value keeps whatever display it had.
- Tasks.TaskCounts: computes the badges, and the badge text on the option elements is not kept as state.
- Queue.ResolveRemoval and Queue.ResolveStatus: a delete dialog and a toggle dialog (`StatusDialog`) capture the task's position, not the element itself, where nscript.js:161-172 and 366-378 capture `listItem` and `checkbox`; a task moved or removed while the dialog is open is not followed. A clear empties the list present at confirmation, not only the elements captured when the button was clicked.
- Queue.ActionQueue.Run: a closure is one of the two kinds the handlers queue, not an arbitrary function.
- Text length: `.length` and `slice(0, 100)` (scripting.js:73, 259-265) count UTF-16 code units, while the model counts characters. The two differ for characters outside the Basic Multilingual Plane.
- HTML parsing of task text: `insertAdjacentHTML` (scripting.js:384) parses the text as HTML, so the span's `textContent` can differ from the text that was added. The model stores the text as given.
- Repeated edit mode: each click on an uncompleted task calls `enableEditMode` (scripting.js:376), and each call registers another keydown and blur pair with its own `originalText` (scripting.js:219, 229, 257). The model runs exactly one reconcile per event.
- Drop-down options: `filterTodo` is a `<select>`. Assigning a stored value that names no option leaves its value `""` (scripting.js:13), and `allTasks` then stores `""` (scripting.js:62-63). `Engine.TodoList.Load` keeps the value itself in `filter`.
- The first, superseded definition of `updateTaskStatus` in `scripting.js` (scripting.js:397-438) is replaced by the second one at load, so only the second is modelled.

## Findings

| source | as written | input that shows it | evidently intended | confidence | as-written member | corrected member |
|---|---|---|---|---|---|---|
| scripting.js:313-345 | the duplicate test runs while the edited task is still in the list, so its own live text always matches, and with the single keydown listener of a first click, and in a browser that fires no blur on the removed span, a changed non-empty edit saved with Enter deletes the task | one task "tea", edited to "coffee", then Enter | the task becomes "coffee" unless another task already has that text | medium, not executed | Findings.EnterDeletesEditScripting | Engine.TodoList.EditEnterScriptingExcludingSelf |
| script.js:291-313 | `isDuplicateTask(newText, listItem)` ignores its second argument, so the edited task's own text is a duplicate and Enter saves nothing (same code at nscript.js:299-319) | one task "tea", edited to "coffee", then Enter | the edit is saved unless another task already has that text | medium, not executed | Findings.EnterKeepsStaleSlotByLength | Engine.TodoList.EditEnterByLengthExcludingSelf |
