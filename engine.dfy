/** The page state of the task list and the handlers of scripting.js and
    script.js that change it. The two revisions share every handler except
    the status toggle and the Enter-key save of an edited task, which appear
    here once per revision. Confirmation dialogs are a `confirmed` argument:
    true when the user presses the confirm button, false on cancel. */
module Engine {
  import opened TaskText
  import opened Tasks

  class TodoList {
    /** The `.list` elements in document order, newest first. */
    var tasks: seq<Task>
    /** `filterTodo.value`, the filter drop-down. */
    var filter: string
    /** The `tasks` storage slot: the saved list, oldest first. */
    var storedTasks: Option<seq<Task>>
    /** The `filterOption` storage slot. */
    var storedFilter: Option<string>

    /** A page before its DOMContentLoaded handler: no tasks, the drop-down
        on its first option, and whatever the storage slots hold. */
    constructor (savedTasks: Option<seq<Task>>, savedFilter: Option<string>)
      ensures tasks == [] && filter == FilterAll
      ensures storedTasks == savedTasks && storedFilter == savedFilter
    {
      tasks := [];
      filter := FilterAll;
      storedTasks := savedTasks;
      storedFilter := savedFilter;
    }

    /** `updateLocalStorage()`: writes the list, oldest first. */
    method UpdateLocalStorage()
      modifies this`storedTasks
      ensures storedTasks == Some(Snapshot(tasks))
    {
      storedTasks := Some(Snapshot(tasks));
    }

    /** `allTasks()`: writes the list, oldest first, and the drop-down value. */
    method AllTasks()
      modifies this`storedTasks, this`storedFilter
      ensures storedTasks == Some(Snapshot(tasks)) && storedFilter == Some(filter)
    {
      storedTasks := Some(Snapshot(tasks));
      storedFilter := Some(filter);
    }

    /** The insertion part of `addTaskToList`: the new element goes first,
        the drop-down returns to "all" and both slots are rewritten. */
    method InsertTask(t: Task)
      modifies this
      ensures tasks == [t] + old(tasks) && filter == FilterAll
      ensures storedTasks == Some(Snapshot(tasks)) && storedFilter == Some(FilterAll)
    {
      tasks := [t] + tasks;
      filter := FilterAll;
      UpdateLocalStorage();
      AllTasks();
    }

    /** `addTaskToList(taskText, isCompleted)`: a text equal to some task's
        trimmed text is refused and nothing changes; otherwise exactly one
        task is prepended and the others keep their order; by
        `PrependKeepsDistinct` an added trimmed text keeps the trimmed texts
        pairwise distinct. */
    method AddTaskToList(text: string, completed: bool) returns (added: bool)
      modifies this
      ensures added <==> !IsDuplicateTask(old(tasks), text)
      ensures added ==> tasks == [Task(text, completed)] + old(tasks) && filter == FilterAll
      ensures added ==> storedTasks == Some(Snapshot(tasks)) && storedFilter == Some(FilterAll)
      ensures !added ==> unchanged(this)
    {
      added := !IsDuplicateTask(tasks, text);
      if added {
        InsertTask(Task(text, completed));
      }
    }

    /** The DOMContentLoaded handler: the drop-down takes the stored filter
        (or "all"), every saved entry is replayed through `addTaskToList`
        (oldest first, so the newest ends up first), and both slots are
        rewritten. Any replayed task puts the drop-down back on "all". */
    method Load()
      modifies this
      ensures tasks == Replay(if old(storedTasks).Some? then old(storedTasks).value else [], old(tasks))
      ensures |tasks| > |old(tasks)| ==> filter == FilterAll
      ensures |tasks| == |old(tasks)| ==> filter == SelectedOption(old(storedFilter))
      ensures storedTasks == Some(Snapshot(tasks)) && storedFilter == Some(filter)
    {
      var saved := if storedTasks.Some? then storedTasks.value else [];
      filter := SelectedOption(storedFilter);
      ghost var start := tasks;
      var k := 0;
      while k < |saved|
        invariant 0 <= k <= |saved|
        invariant Replay(saved[k..], tasks) == Replay(saved, start)
        invariant |tasks| >= |start|
        invariant |tasks| > |start| ==> filter == FilterAll
        invariant |tasks| == |start| ==> filter == SelectedOption(old(storedFilter))
      {
        ghost var before := tasks;
        var entry := saved[k];
        var added := AddTaskToList(entry.text, entry.completed);
        assert tasks == ReplayStep(before, entry);
        ReplayUnfold(saved[k..], before);
        assert saved[k..][1..] == saved[k + 1..];
        k := k + 1;
      }
      AllTasks();
    }

    /** The drop-down's change handler: `allTasks()` then `filterTasks()`.
        The list is untouched; both slots are rewritten, the filter slot with
        the new value that `filterTasks` then applies. */
    method SelectFilter(value: string)
      modifies this
      ensures tasks == old(tasks) && filter == value
      ensures storedTasks == Some(Snapshot(tasks)) && storedFilter == Some(value)
    {
      filter := value;
      AllTasks();
    }

    /** `filterTasks()`: the option is read from the filter SLOT. Under "all"
        every task is shown, under "completed" exactly the completed ones,
        under "uncompleted" exactly the others, and any other option touches
        no task. The "no tasks" message is set exactly when no task was
        shown, which for the three known options is when the matching badge
        is zero. */
    method FilterTasks() returns (display: seq<Display>, message: string)
      ensures |display| == |tasks|
      ensures forall k :: 0 <= k < |tasks| ==>
        display[k] == DisplayFor(SelectedOption(storedFilter), tasks[k].completed)
      ensures message == NoTasksMessage <==> forall k :: 0 <= k < |display| ==> display[k] != Shown
      ensures message == NoTasksMessage || message == ""
      ensures message == NoTasksMessage <==> CountShown(tasks, SelectedOption(storedFilter)) == 0
    {
      var selectedOption := SelectedOption(storedFilter);
      var tasksExist := false;
      display := [];
      var k := 0;
      while k < |tasks|
        invariant 0 <= k <= |tasks| && |display| == k
        invariant forall j :: 0 <= j < k ==> display[j] == DisplayFor(selectedOption, tasks[j].completed)
        invariant tasksExist <==> exists j :: 0 <= j < k && display[j] == Shown
      {
        var isCompleted := tasks[k].completed;
        if selectedOption == FilterAll {
          display := display + [Shown];
          tasksExist := true;
        } else if selectedOption == FilterCompleted {
          display := display + [if isCompleted then Shown else Hidden];
          tasksExist := tasksExist || isCompleted;
        } else if selectedOption == FilterUncompleted {
          display := display + [if isCompleted then Hidden else Shown];
          tasksExist := tasksExist || !isCompleted;
        } else {
          display := display + [Unchanged];
        }
        k := k + 1;
      }
      message := if !tasksExist then NoTasksMessage else "";
      CountShownZero(tasks, selectedOption);
    }

    /** A keydown on the main input (script.js:60-88; the same at
        scripting.js:67-95). A submitted text is added only if it is not a
        duplicate, and then the input is cleared; nothing else changes the
        state. At 100 trimmed characters nothing is ever added. */
    method KeydownMain(input: string, key: string) returns (outcome: KeyOutcome, newInput: string)
      modifies this
      ensures outcome == ClassifyMainKey(input, key)
      ensures outcome.Submit? && !IsDuplicateTask(old(tasks), outcome.text) ==>
        tasks == [Task(outcome.text, false)] + old(tasks) && filter == FilterAll &&
        storedTasks == Some(Snapshot(tasks)) && storedFilter == Some(FilterAll) && newInput == ""
      ensures !(outcome.Submit? && !IsDuplicateTask(old(tasks), outcome.text)) ==>
        unchanged(this) && newInput == input
      ensures |Trim(input)| >= MaxLength ==> tasks == old(tasks)
    {
      outcome := ClassifyMainKey(input, key);
      newInput := input;
      if outcome.Submit? && !IsDuplicateTask(tasks, outcome.text) {
        var _ := AddTaskToList(outcome.text, false);
        newInput := "";
        AllTasks();
      }
    }

    /** A click on the note icon (script.js:112-124): the trimmed input is
        added when it is non-empty and not a duplicate, and the input is
        cleared; unlike the Enter key there is no length limit. */
    method NoteIconClick(input: string) returns (newInput: string)
      modifies this
      ensures Trim(input) != [] && !IsDuplicateTask(old(tasks), Trim(input)) ==>
        tasks == [Task(Trim(input), false)] + old(tasks) && filter == FilterAll &&
        storedTasks == Some(Snapshot(tasks)) && storedFilter == Some(FilterAll) && newInput == ""
      ensures !(Trim(input) != [] && !IsDuplicateTask(old(tasks), Trim(input))) ==>
        unchanged(this) && newInput == input
    {
      var inputVal := Trim(input);
      newInput := input;
      if |inputVal| > 0 {
        if !IsDuplicateTask(tasks, inputVal) {
          var _ := AddTaskToList(inputVal, false);
          newInput := "";
          AllTasks();
        }
      }
    }

    /** The confirm callback of `deleteTask`: the element is removed, the
        others keep their order, and both slots are rewritten. */
    method RemoveTask(i: nat)
      requires i < |tasks|
      modifies this
      ensures tasks == Remove(old(tasks), i) && filter == old(filter)
      ensures storedTasks == Some(Snapshot(tasks)) && storedFilter == Some(filter)
      ensures old(Distinct(tasks)) ==> Distinct(tasks)
    {
      if Distinct(tasks) {
        RemoveKeepsDistinct(tasks, i);
      }
      tasks := Remove(tasks, i);
      AllTasks();
      UpdateLocalStorage();
    }

    /** `deleteTask` (script.js:149-163): a confirmed delete removes exactly
        that task; a cancelled one changes nothing. */
    method DeleteTask(i: nat, confirmed: bool)
      requires i < |tasks|
      modifies this
      ensures confirmed ==>
        tasks == Remove(old(tasks), i) && filter == old(filter) &&
        storedTasks == Some(Snapshot(tasks)) && storedFilter == Some(filter)
      ensures !confirmed ==> unchanged(this)
    {
      if confirmed {
        RemoveTask(i);
      }
    }

    /** The confirm callback of the clear button: every element of the list
        is removed, one by one, and both slots are rewritten. */
    method RemoveAll()
      modifies this
      ensures tasks == [] && filter == old(filter)
      ensures storedTasks == Some([]) && storedFilter == Some(filter)
    {
      var n := |tasks|;
      var k := 0;
      while k < n
        invariant 0 <= k <= n && tasks == old(tasks)[k..]
        invariant filter == old(filter)
      {
        tasks := Remove(tasks, 0);
        k := k + 1;
      }
      AllTasks();
      UpdateLocalStorage();
    }

    /** The clear button (script.js:188-204): on an empty list it only
        notifies and opens no dialog; otherwise a confirmed clear empties the
        list and a cancelled one changes nothing. */
    method ClearAll(confirmed: bool) returns (dialogShown: bool)
      modifies this
      ensures dialogShown <==> old(tasks) != []
      ensures dialogShown && confirmed ==>
        tasks == [] && filter == old(filter) &&
        storedTasks == Some([]) && storedFilter == Some(filter)
      ensures !(dialogShown && confirmed) ==> unchanged(this)
    {
      dialogShown := |tasks| > 0;
      if dialogShown && confirmed {
        RemoveAll();
      }
    }

    /** `updateTaskStatus(checkbox)` of scripting.js (its second definition,
        scripting.js:588-629). `checked` is the box's value after the click;
        the result is its value once the handler is done. Checking a task
        whose trimmed text is empty is refused and the box is reset;
        checking any other task completes it at once; unchecking needs
        confirmation, and a cancel puts the tick back. */
    method UpdateTaskStatus(i: nat, checked: bool, confirmed: bool) returns (checkbox: bool)
      requires i < |tasks|
      modifies this
      ensures checked && Trim(old(tasks)[i].text) == [] ==> !checkbox && unchanged(this)
      ensures checked && Trim(old(tasks)[i].text) != [] ==>
        checkbox && tasks == old(tasks)[i := old(tasks)[i].(completed := true)] &&
        storedTasks == Some(Snapshot(tasks)) && filter == old(filter) && storedFilter == old(storedFilter)
      ensures !checked && confirmed ==>
        !checkbox && tasks == old(tasks)[i := old(tasks)[i].(completed := false)] &&
        storedTasks == Some(Snapshot(tasks)) && filter == old(filter) && storedFilter == old(storedFilter)
      ensures !checked && !confirmed ==> checkbox && unchanged(this)
      ensures old(CompletedHaveText(tasks)) ==> CompletedHaveText(tasks)
    {
      var isCompleted := checked;
      var newText := Trim(tasks[i].text);
      if isCompleted && |newText| == 0 {
        checkbox := false;
        return;
      }
      if !isCompleted {
        if confirmed {
          tasks := tasks[i := tasks[i].(completed := isCompleted)];
          UpdateLocalStorage();
          checkbox := isCompleted;
        } else {
          checkbox := true;
        }
      } else {
        tasks := tasks[i := tasks[i].(completed := isCompleted)];
        UpdateLocalStorage();
        checkbox := isCompleted;
      }
    }

    /** `handleTaskStatusUpdate(listItem, isCompleted)` of script.js
        (script.js:380-414) and nscript.js (nscript.js:383-417). Completing a
        task with an empty trimmed text changes nothing: script.js throws at
        the assignment to the undeclared `checkbox`, nscript.js assigns to a
        property of the literal `true`. Un-completing such a task removes it.
        Otherwise the flag is set to `isCompleted` and both slots are
        rewritten. */
    method HandleTaskStatusUpdate(i: nat, isCompleted: bool)
      requires i < |tasks|
      modifies this
      ensures isCompleted && Trim(old(tasks)[i].text) == [] ==> unchanged(this)
      ensures !isCompleted && Trim(old(tasks)[i].text) == [] ==>
        tasks == Remove(old(tasks), i) && filter == old(filter) &&
        storedTasks == Some(Snapshot(tasks)) && storedFilter == Some(filter)
      ensures Trim(old(tasks)[i].text) != [] ==>
        tasks == old(tasks)[i := old(tasks)[i].(completed := isCompleted)] && filter == old(filter) &&
        storedTasks == Some(Snapshot(tasks)) && storedFilter == Some(filter)
      ensures old(CompletedHaveText(tasks)) ==> CompletedHaveText(tasks)
    {
      var newText := Trim(tasks[i].text);
      if isCompleted {
        if |newText| > 0 {
          tasks := tasks[i := tasks[i].(completed := true)];
        } else {
          return;
        }
      } else {
        if |newText| > 0 {
          tasks := tasks[i := tasks[i].(completed := false)];
        } else {
          tasks := Remove(tasks, i);
          UpdateLocalStorage();
          AllTasks();
          return;
        }
      }
      UpdateLocalStorage();
      AllTasks();
    }

    /** `updateTaskStatus(checkbox)` of script.js (script.js:364-376): every
        toggle asks for confirmation. On cancel the box goes back to its
        value before the click and nothing changes; on confirm the update is
        applied and the box keeps the clicked value, so a confirmed
        completion of an empty task leaves the box ticked on an uncompleted
        task. */
    method UpdateTaskStatusAlwaysConfirm(i: nat, checked: bool, confirmed: bool) returns (checkbox: bool)
      requires i < |tasks|
      modifies this
      ensures !confirmed ==> checkbox == !checked && unchanged(this)
      ensures confirmed ==> checkbox == checked
      ensures filter == old(filter)
      ensures confirmed && checked && Trim(old(tasks)[i].text) == [] ==> unchanged(this) && checkbox
      ensures confirmed && checked && !old(tasks)[i].completed && Trim(old(tasks)[i].text) == [] ==>
        checkbox != tasks[i].completed
      ensures confirmed && Trim(old(tasks)[i].text) != [] ==>
        tasks == old(tasks)[i := old(tasks)[i].(completed := checked)] &&
        storedTasks == Some(Snapshot(tasks)) && storedFilter == Some(filter)
      ensures confirmed && !checked && Trim(old(tasks)[i].text) == [] ==>
        tasks == Remove(old(tasks), i) && storedTasks == Some(Snapshot(tasks)) && storedFilter == Some(filter)
      ensures old(CompletedHaveText(tasks)) ==> CompletedHaveText(tasks)
    {
      if confirmed {
        HandleTaskStatusUpdate(i, checked);
        checkbox := checked;
      } else {
        checkbox := !checked;
      }
    }

    /** Typing into the span of a task made editable by `enableEditMode`,
        which only does so for a task that is not completed
        (scripting.js:224): the task's text is the live text. */
    method EditText(i: nat, live: string)
      requires i < |tasks| && !tasks[i].completed
      modifies this`tasks
      ensures tasks == old(tasks)[i := Task(live, false)]
      ensures old(CompletedHaveText(tasks)) ==> CompletedHaveText(tasks)
    {
      tasks := tasks[i := Task(live, false)];
    }

    /** The blur handler of an edited task (scripting.js:257-285; the same
        in script.js and nscript.js), `originalText` being the text captured
        when editing began. The live text is trimmed, sliced to 100 and
        single-spaced. A result of the original's length changes nothing but
        the sliced span text, and saves nothing. Otherwise the task is removed
        first; an empty result is saved as removed; a non-empty result is
        added back only when no remaining task has it as trimmed text, and on
        a duplicate the task is simply gone and the slots keep their old
        content. */
    method EditBlur(i: nat, originalText: string)
      requires i < |tasks|
      modifies this
      ensures var live := old(tasks)[i].text;
        |BlurText(live)| == |originalText| ==>
          tasks == old(tasks)[i := old(tasks)[i].(text := if |Trim(live)| > MaxLength then Truncate(Trim(live)) else live)] &&
          filter == old(filter) && storedTasks == old(storedTasks) && storedFilter == old(storedFilter)
      ensures var live := old(tasks)[i].text;
        |BlurText(live)| != |originalText| && BlurText(live) == [] ==>
          tasks == Remove(old(tasks), i) && filter == old(filter) &&
          storedTasks == Some(Snapshot(tasks)) && storedFilter == old(storedFilter)
      ensures var live := old(tasks)[i].text; var rest := Remove(old(tasks), i);
        |BlurText(live)| != |originalText| && BlurText(live) != [] && IsDuplicateTask(rest, BlurText(live)) ==>
          tasks == rest && filter == old(filter) && storedTasks == old(storedTasks) && storedFilter == old(storedFilter)
      ensures var live := old(tasks)[i].text; var rest := Remove(old(tasks), i);
        |BlurText(live)| != |originalText| && BlurText(live) != [] && !IsDuplicateTask(rest, BlurText(live)) ==>
          tasks == [Task(BlurText(live), old(tasks)[i].completed)] + rest && filter == FilterAll &&
          storedTasks == Some(Snapshot(tasks)) && storedFilter == Some(FilterAll)
      ensures |tasks| <= |old(tasks)|
    {
      var live := tasks[i].text;
      var newText := Trim(live);
      if |newText| > MaxLength {
        newText := Truncate(newText);
        tasks := tasks[i := tasks[i].(text := newText)];
      }
      newText := Collapse(newText);
      assert newText == BlurText(live);
      if |newText| != |originalText| {
        RemoveAfterUpdate(old(tasks), i, tasks[i]);
        Resettle(i, newText);
      }
    }

    /** The tail of the blur handler: the edited task is removed; an empty
        text is saved as removed; a non-empty text is added back, keeping the
        task's flag, only when no remaining task has it as trimmed text, and
        on a duplicate the slots keep their old content. */
    method Resettle(i: nat, newText: string)
      requires i < |tasks|
      modifies this
      ensures newText == [] ==>
        tasks == Remove(old(tasks), i) && filter == old(filter) &&
        storedTasks == Some(Snapshot(tasks)) && storedFilter == old(storedFilter)
      ensures newText != [] && IsDuplicateTask(Remove(old(tasks), i), newText) ==>
        tasks == Remove(old(tasks), i) && filter == old(filter) &&
        storedTasks == old(storedTasks) && storedFilter == old(storedFilter)
      ensures newText != [] && !IsDuplicateTask(Remove(old(tasks), i), newText) ==>
        tasks == [Task(newText, old(tasks)[i].completed)] + Remove(old(tasks), i) && filter == FilterAll &&
        storedTasks == Some(Snapshot(tasks)) && storedFilter == Some(FilterAll)
    {
      var completed := tasks[i].completed;
      tasks := Remove(tasks, i);
      if |newText| > 0 {
        if !IsDuplicateTask(tasks, newText) {
          var _ := AddTaskToList(newText, completed);
          UpdateLocalStorage();
        }
      } else {
        UpdateLocalStorage();
      }
    }

    /** `saveEditedTask` of scripting.js (scripting.js:313-345), as written:
        the duplicate test looks at the whole list, the edited task included.
        A text that differs from the original is, if empty, removed; if it is
        not a duplicate it replaces the task at the front; if it is, the task
        is removed. */
    method SaveEditedTaskScripting(i: nat, originalText: string, newText: string)
      requires i < |tasks|
      modifies this
      ensures newText == originalText ==> unchanged(this)
      ensures newText != originalText && (newText == [] || IsDuplicateTask(old(tasks), newText)) ==>
        tasks == Remove(old(tasks), i) && filter == old(filter) &&
        storedTasks == Some(Snapshot(tasks)) && storedFilter == old(storedFilter)
      ensures newText != originalText && newText != [] && !IsDuplicateTask(old(tasks), newText) ==>
        tasks == [Task(newText, old(tasks)[i].completed)] + Remove(old(tasks), i) && filter == FilterAll &&
        storedTasks == Some(Snapshot(tasks)) && storedFilter == Some(FilterAll)
    {
      if |newText| != |originalText| || newText != originalText {
        if |newText| > 0 {
          var isDuplicate := IsDuplicateTask(tasks, newText);
          var completed := tasks[i].completed;
          if !isDuplicate {
            RemoveNotDuplicate(tasks, i, newText);
            tasks := Remove(tasks, i);
            var _ := AddTaskToList(newText, completed);
            UpdateLocalStorage();
            assert tasks == [Task(newText, old(tasks)[i].completed)] + Remove(old(tasks), i);
          } else {
            tasks := Remove(tasks, i);
            UpdateLocalStorage();
            assert tasks == Remove(old(tasks), i);
          }
        } else {
          tasks := Remove(tasks, i);
          UpdateLocalStorage();
          assert tasks == Remove(old(tasks), i);
        }
      }
    }

    /** Enter in an edited span, scripting.js (scripting.js:233-235): the
        trimmed live text is handed to `saveEditedTask` while the edited task
        is still in the list, so its own text is found as a duplicate and
        every changed edit deletes the task. */
    method EditEnterScripting(i: nat, originalText: string)
      requires i < |tasks|
      modifies this
      ensures Trim(old(tasks)[i].text) == originalText ==> unchanged(this)
      ensures Trim(old(tasks)[i].text) != originalText ==>
        tasks == Remove(old(tasks), i) && filter == old(filter) &&
        storedTasks == Some(Snapshot(tasks)) && storedFilter == old(storedFilter)
    {
      var newText := Trim(tasks[i].text);
      IsDuplicateTaskMeaning(tasks, newText);
      SaveEditedTaskScripting(i, originalText, newText);
    }

    /** `saveEditedTask` of script.js and nscript.js (script.js:291-313,
        nscript.js:299-319), as written: lengths alone decide whether the
        text changed, and the edited element passed to `isDuplicateTask` is
        ignored, so the whole list is searched. */
    method SaveEditedTaskByLength(i: nat, originalText: string, newText: string)
      requires i < |tasks|
      modifies this
      ensures |newText| == |originalText| ==> unchanged(this)
      ensures |newText| != |originalText| && newText == [] ==>
        tasks == Remove(old(tasks), i) && filter == old(filter) &&
        storedTasks == Some(Snapshot(tasks)) && storedFilter == old(storedFilter)
      ensures |newText| != |originalText| && newText != [] && IsDuplicateTask(old(tasks), newText) ==>
        unchanged(this)
      ensures |newText| != |originalText| && newText != [] && !IsDuplicateTask(old(tasks), newText) ==>
        tasks == [Task(newText, old(tasks)[i].completed)] + Remove(old(tasks), i) && filter == FilterAll &&
        storedTasks == Some(Snapshot(tasks)) && storedFilter == Some(FilterAll)
    {
      if |newText| != |originalText| {
        if |newText| > 0 {
          var isDuplicate := IsDuplicateTask(tasks, newText);
          if !isDuplicate {
            var completed := tasks[i].completed;
            RemoveNotDuplicate(tasks, i, newText);
            tasks := Remove(tasks, i);
            var _ := AddTaskToList(newText, completed);
            UpdateLocalStorage();
            assert tasks == [Task(newText, old(tasks)[i].completed)] + Remove(old(tasks), i);
          }
        } else {
          tasks := Remove(tasks, i);
          UpdateLocalStorage();
          assert tasks == Remove(old(tasks), i);
        }
      }
    }

    /** Enter in an edited span, script.js and nscript.js (script.js:220-223):
        the task's own trimmed text is always a duplicate, so Enter never
        saves a changed, non-empty edit; it only removes a task emptied to a
        different length. */
    method EditEnterByLength(i: nat, originalText: string)
      requires i < |tasks|
      modifies this
      ensures |Trim(old(tasks)[i].text)| == |originalText| ==> unchanged(this)
      ensures |Trim(old(tasks)[i].text)| != |originalText| && Trim(old(tasks)[i].text) != [] ==> unchanged(this)
      ensures |Trim(old(tasks)[i].text)| != |originalText| && Trim(old(tasks)[i].text) == [] ==>
        tasks == Remove(old(tasks), i) && filter == old(filter) &&
        storedTasks == Some(Snapshot(tasks)) && storedFilter == old(storedFilter)
    {
      var newText := Trim(tasks[i].text);
      IsDuplicateTaskMeaning(tasks, newText);
      SaveEditedTaskByLength(i, originalText, newText);
    }

    /** scripting.js's `saveEditedTask` (scripting.js:313-345) with one
        change: the edited task is left out of the duplicate test. Everything
        else is as written: the texts are compared, an empty text removes the
        task, and a text that another task already has removes the edited
        task too. */
    method SaveEditedTaskScriptingExcludingSelf(i: nat, originalText: string, newText: string)
      requires i < |tasks|
      modifies this
      ensures newText == originalText ==> unchanged(this)
      ensures newText != originalText && (newText == [] || IsDuplicateTask(Remove(old(tasks), i), newText)) ==>
        tasks == Remove(old(tasks), i) && filter == old(filter) &&
        storedTasks == Some(Snapshot(tasks)) && storedFilter == old(storedFilter)
      ensures newText != originalText && newText != [] && !IsDuplicateTask(Remove(old(tasks), i), newText) ==>
        tasks == [Task(newText, old(tasks)[i].completed)] + Remove(old(tasks), i) && filter == FilterAll &&
        storedTasks == Some(Snapshot(tasks)) && storedFilter == Some(FilterAll)
      ensures old(Distinct(tasks)) && Trim(newText) == newText ==> Distinct(tasks)
    {
      if newText != originalText {
        if Distinct(tasks) {
          RemoveKeepsDistinct(tasks, i);
        }
        if |newText| > 0 && !IsDuplicateTask(Remove(tasks, i), newText) {
          var completed := tasks[i].completed;
          if Distinct(tasks) && Trim(newText) == newText {
            PrependKeepsDistinct(Remove(tasks, i), Task(newText, completed));
          }
          tasks := Remove(tasks, i);
          var _ := AddTaskToList(newText, completed);
          UpdateLocalStorage();
        } else {
          tasks := Remove(tasks, i);
          UpdateLocalStorage();
        }
      }
    }

    /** Enter in an edited span, scripting.js, with the corrected duplicate
        test: a changed non-empty edit that no other task has is saved at the
        front; an edit emptied to whitespace, or repeating another task's
        text, removes the task. */
    method EditEnterScriptingExcludingSelf(i: nat, originalText: string)
      requires i < |tasks|
      modifies this
      ensures Trim(old(tasks)[i].text) == originalText ==> unchanged(this)
      ensures var newText := Trim(old(tasks)[i].text);
        newText != originalText && (newText == [] || IsDuplicateTask(Remove(old(tasks), i), newText)) ==>
          tasks == Remove(old(tasks), i) && filter == old(filter) &&
          storedTasks == Some(Snapshot(tasks)) && storedFilter == old(storedFilter)
      ensures var newText := Trim(old(tasks)[i].text);
        newText != originalText && newText != [] && !IsDuplicateTask(Remove(old(tasks), i), newText) ==>
          tasks == [Task(newText, old(tasks)[i].completed)] + Remove(old(tasks), i) && filter == FilterAll &&
          storedTasks == Some(Snapshot(tasks)) && storedFilter == Some(FilterAll)
      ensures old(Distinct(tasks)) ==> Distinct(tasks)
    {
      var newText := Trim(tasks[i].text);
      TrimIdempotent(tasks[i].text);
      SaveEditedTaskScriptingExcludingSelf(i, originalText, newText);
    }

    /** script.js's `saveEditedTask` (script.js:291-313) with one change: the
        edited task is left out of the duplicate test, which is what passing
        `listItem` at script.js:294 was meant to do. Everything else is as
        written: only the lengths decide whether the text changed, and a text
        that another task already has changes nothing. */
    method SaveEditedTaskByLengthExcludingSelf(i: nat, originalText: string, newText: string)
      requires i < |tasks|
      modifies this
      ensures |newText| == |originalText| ==> unchanged(this)
      ensures |newText| != |originalText| && newText == [] ==>
        tasks == Remove(old(tasks), i) && filter == old(filter) &&
        storedTasks == Some(Snapshot(tasks)) && storedFilter == old(storedFilter)
      ensures |newText| != |originalText| && newText != [] && IsDuplicateTask(Remove(old(tasks), i), newText) ==>
        unchanged(this)
      ensures |newText| != |originalText| && newText != [] && !IsDuplicateTask(Remove(old(tasks), i), newText) ==>
        tasks == [Task(newText, old(tasks)[i].completed)] + Remove(old(tasks), i) && filter == FilterAll &&
        storedTasks == Some(Snapshot(tasks)) && storedFilter == Some(FilterAll)
      ensures old(Distinct(tasks)) && Trim(newText) == newText ==> Distinct(tasks)
    {
      if |newText| != |originalText| {
        if |newText| > 0 {
          if !IsDuplicateTask(Remove(tasks, i), newText) {
            var completed := tasks[i].completed;
            if Distinct(tasks) && Trim(newText) == newText {
              RemoveKeepsDistinct(tasks, i);
              PrependKeepsDistinct(Remove(tasks, i), Task(newText, completed));
            }
            tasks := Remove(tasks, i);
            var _ := AddTaskToList(newText, completed);
            UpdateLocalStorage();
          }
        } else {
          if Distinct(tasks) {
            RemoveKeepsDistinct(tasks, i);
          }
          tasks := Remove(tasks, i);
          UpdateLocalStorage();
        }
      }
    }

    /** Enter in an edited span, script.js and nscript.js, with the corrected
        duplicate test: an edit of the original's length changes nothing, an
        edit emptied to whitespace removes the task, an edit repeating another
        task's text is refused and changes nothing, and any other edit is
        saved at the front. */
    method EditEnterByLengthExcludingSelf(i: nat, originalText: string)
      requires i < |tasks|
      modifies this
      ensures |Trim(old(tasks)[i].text)| == |originalText| ==> unchanged(this)
      ensures var newText := Trim(old(tasks)[i].text);
        |newText| != |originalText| && newText == [] ==>
          tasks == Remove(old(tasks), i) && filter == old(filter) &&
          storedTasks == Some(Snapshot(tasks)) && storedFilter == old(storedFilter)
      ensures var newText := Trim(old(tasks)[i].text);
        |newText| != |originalText| && newText != [] && IsDuplicateTask(Remove(old(tasks), i), newText) ==>
          unchanged(this)
      ensures var newText := Trim(old(tasks)[i].text);
        |newText| != |originalText| && newText != [] && !IsDuplicateTask(Remove(old(tasks), i), newText) ==>
          tasks == [Task(newText, old(tasks)[i].completed)] + Remove(old(tasks), i) && filter == FilterAll &&
          storedTasks == Some(Snapshot(tasks)) && storedFilter == Some(FilterAll)
      ensures old(Distinct(tasks)) ==> Distinct(tasks)
    {
      var newText := Trim(tasks[i].text);
      TrimIdempotent(tasks[i].text);
      SaveEditedTaskByLengthExcludingSelf(i, originalText, newText);
    }
  }

  /** A page reload after a save: `allTasks()` writes both slots, and a new
      page loading them shows the same tasks in the same order with the same
      flags, provided their trimmed texts were pairwise distinct. The
      drop-down comes back as "all" whenever there was a task. */
  method Reload(page: TodoList) returns (next: TodoList)
    requires Distinct(page.tasks)
    modifies page
    ensures fresh(next)
    ensures next.tasks == old(page.tasks)
    ensures next.filter == if old(page.tasks) == [] then SelectedOption(Some(old(page.filter))) else FilterAll
    ensures next.storedTasks == Some(Snapshot(next.tasks))
  {
    page.AllTasks();
    next := new TodoList(page.storedTasks, page.storedFilter);
    ReplaySnapshot(page.tasks);
    next.Load();
  }
}
