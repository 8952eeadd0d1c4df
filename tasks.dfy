/** The task list as a value: the `.list` elements of the page in document
    order (newest first), duplicate detection, the saved snapshot and its
    replay on load, the badge counts and the per-filter visibility. */
module Tasks {
  import opened TaskText

  datatype Option<T> = None | Some(value: T)

  /** One `.list` element: the text of its `.task` span and whether it
      carries the `completed` class. */
  datatype Task = Task(text: string, completed: bool)

  /** `isDuplicateTask(taskText)`: walks the list comparing each task's
      trimmed text with `text` (case-sensitive; `text` itself is not
      trimmed). */
  function IsDuplicateTask(tasks: seq<Task>, text: string): bool {
    |tasks| > 0 && (Trim(tasks[0].text) == text || IsDuplicateTask(tasks[1..], text))
  }

  /** A text is a duplicate exactly when some task's trimmed text equals it. */
  lemma {:induction false} IsDuplicateTaskMeaning(tasks: seq<Task>, text: string)
    ensures IsDuplicateTask(tasks, text) <==> exists k :: 0 <= k < |tasks| && Trim(tasks[k].text) == text
  {
    if tasks != [] {
      IsDuplicateTaskMeaning(tasks[1..], text);
      assert forall k :: 0 < k < |tasks| ==> tasks[k] == tasks[1..][k - 1];
    }
  }

  /** No two tasks have the same trimmed text. */
  predicate Distinct(tasks: seq<Task>) {
    forall a, b :: 0 <= a < b < |tasks| ==> Trim(tasks[a].text) != Trim(tasks[b].text)
  }

  /** A trimmed text that is not a duplicate can be prepended without
      breaking `Distinct`. */
  lemma PrependKeepsDistinct(tasks: seq<Task>, t: Task)
    requires Distinct(tasks) && !IsDuplicateTask(tasks, t.text) && Trim(t.text) == t.text
    ensures Distinct([t] + tasks)
  {
    var r := [t] + tasks;
    IsDuplicateTaskMeaning(tasks, t.text);
    assert forall k :: 0 <= k < |tasks| ==> Trim(tasks[k].text) != t.text;
    forall a, b | 0 <= a < b < |r|
      ensures Trim(r[a].text) != Trim(r[b].text)
    {
      assert r[b] == tasks[b - 1];
      if a != 0 {
        assert r[a] == tasks[a - 1];
      }
    }
  }

  /** `listItem.remove()`: the task at `i` is gone and the others keep their
      order. */
  function Remove(tasks: seq<Task>, i: nat): (r: seq<Task>)
    requires i < |tasks|
    ensures |r| == |tasks| - 1
    ensures forall k :: 0 <= k < i ==> r[k] == tasks[k]
    ensures forall k :: i <= k < |r| ==> r[k] == tasks[k + 1]
  {
    tasks[..i] + tasks[i + 1..]
  }

  /** Rewriting a task and then removing it is removing it. */
  lemma RemoveAfterUpdate(tasks: seq<Task>, i: nat, t: Task)
    requires i < |tasks|
    ensures Remove(tasks[i := t], i) == Remove(tasks, i)
  {
    assert tasks[i := t][..i] == tasks[..i];
    assert tasks[i := t][i + 1..] == tasks[i + 1..];
  }

  /** A text no task has is a text no remaining task has. */
  lemma RemoveNotDuplicate(tasks: seq<Task>, i: nat, text: string)
    requires i < |tasks| && !IsDuplicateTask(tasks, text)
    ensures !IsDuplicateTask(Remove(tasks, i), text)
  {
    var r := Remove(tasks, i);
    IsDuplicateTaskMeaning(tasks, text);
    IsDuplicateTaskMeaning(r, text);
    forall k | 0 <= k < |r|
      ensures Trim(r[k].text) != text
    {
      assert r[k] == tasks[if k < i then k else k + 1];
    }
  }

  /** Removing a task keeps the others pairwise distinct. */
  lemma RemoveKeepsDistinct(tasks: seq<Task>, i: nat)
    requires i < |tasks| && Distinct(tasks)
    ensures Distinct(Remove(tasks, i))
  {
    var r := Remove(tasks, i);
    forall a, b | 0 <= a < b < |r|
      ensures Trim(r[a].text) != Trim(r[b].text)
    {
      var a' := if a < i then a else a + 1;
      var b' := if b < i then b else b + 1;
      assert r[a] == tasks[a'] && r[b] == tasks[b'];
    }
  }

  /** The saved form of the list, `Array.from(tasks).reverse().map(...)`
      (scripting.js:55-59, 577-584): one entry per task, oldest first. */
  function Snapshot(tasks: seq<Task>): (r: seq<Task>)
    ensures |r| == |tasks|
    ensures forall k :: 0 <= k < |tasks| ==> r[k] == tasks[|tasks| - 1 - k]
  {
    if tasks == [] then [] else Snapshot(tasks[1..]) + [tasks[0]]
  }

  /** One step of the load loop: `addTaskToList(task.text, task.completed)`
      prepends the entry unless its text is a duplicate. */
  function ReplayStep(tasks: seq<Task>, entry: Task): seq<Task> {
    if IsDuplicateTask(tasks, entry.text) then tasks else [entry] + tasks
  }

  /** `savedTasks.forEach(task => addTaskToList(...))` started on `tasks`. */
  function Replay(saved: seq<Task>, tasks: seq<Task>): seq<Task>
    decreases |saved|
  {
    if saved == [] then tasks else Replay(saved[1..], ReplayStep(tasks, saved[0]))
  }

  lemma ReplayUnfold(saved: seq<Task>, tasks: seq<Task>)
    requires saved != []
    ensures Replay(saved, tasks) == Replay(saved[1..], ReplayStep(tasks, saved[0]))
  {
  }

  lemma {:induction false} ReplayAppend(saved: seq<Task>, entry: Task, tasks: seq<Task>)
    ensures Replay(saved + [entry], tasks) == ReplayStep(Replay(saved, tasks), entry)
    decreases |saved|
  {
    if saved == [] {
      assert [] + [entry] == [entry];
    } else {
      assert (saved + [entry])[1..] == saved[1..] + [entry];
      ReplayAppend(saved[1..], entry, ReplayStep(tasks, saved[0]));
    }
  }

  /** Replay only ever prepends: the list it starts on is a suffix of the
      result, and nothing is added exactly when the result has the length it
      started with. */
  lemma {:induction false} ReplayGrows(saved: seq<Task>, tasks: seq<Task>)
    ensures |Replay(saved, tasks)| >= |tasks|
    ensures |Replay(saved, tasks)| <= |tasks| + |saved|
    ensures Replay(saved, tasks)[|Replay(saved, tasks)| - |tasks|..] == tasks
    decreases |saved|
  {
    if saved != [] {
      var next := ReplayStep(tasks, saved[0]);
      var r := Replay(saved, tasks);
      ReplayGrows(saved[1..], next);
      assert r == Replay(saved[1..], next);
      assert next[|next| - |tasks|..] == tasks;
      assert r[|r| - |tasks|..] == r[|r| - |next|..][|next| - |tasks|..];
    }
  }

  /** Save/load round trip: replaying the snapshot of a list whose trimmed
      texts are pairwise distinct onto an empty page rebuilds the list,
      newest first, with every completed flag intact. */
  lemma {:induction false} ReplaySnapshot(tasks: seq<Task>)
    requires Distinct(tasks)
    ensures Replay(Snapshot(tasks), []) == tasks
  {
    if tasks != [] {
      var rest := tasks[1..];
      assert Distinct(rest) by {
        forall a, b | 0 <= a < b < |rest|
          ensures Trim(rest[a].text) != Trim(rest[b].text)
        {
          assert rest[a] == tasks[a + 1] && rest[b] == tasks[b + 1];
        }
      }
      ReplaySnapshot(rest);
      ReplayAppend(Snapshot(rest), tasks[0], []);
      forall k | 0 <= k < |rest|
        ensures Trim(rest[k].text) != tasks[0].text
      {
        TrimIdempotent(rest[k].text);
        assert rest[k] == tasks[k + 1];
      }
      IsDuplicateTaskMeaning(rest, tasks[0].text);
      assert [tasks[0]] + rest == tasks;
    }
  }

  /** Load never creates a duplicate when every saved text is already
      trimmed: an entry whose text a task on the page has is skipped, and
      any other is prepended by `PrependKeepsDistinct`. */
  lemma {:induction false} ReplayKeepsDistinct(saved: seq<Task>, tasks: seq<Task>)
    requires Distinct(tasks)
    requires forall k :: 0 <= k < |saved| ==> Trim(saved[k].text) == saved[k].text
    ensures Distinct(Replay(saved, tasks))
    decreases |saved|
  {
    if saved != [] {
      if !IsDuplicateTask(tasks, saved[0].text) {
        PrependKeepsDistinct(tasks, saved[0]);
      }
      assert forall k :: 0 <= k < |saved[1..]| ==> saved[1..][k] == saved[k + 1];
      ReplayKeepsDistinct(saved[1..], ReplayStep(tasks, saved[0]));
    }
  }

  /** The duplicate test compares a task's trimmed text with the entry's
      text as saved, so an untrimmed saved text is not recognised as a
      repeat: both entries are loaded and the page holds two tasks with the
      same trimmed text. */
  lemma ReplayKeepsUntrimmedRepeat()
    ensures Replay([Task("a", false), Task(" a", false)], []) == [Task(" a", false), Task("a", false)]
    ensures !Distinct(Replay([Task("a", false), Task(" a", false)], []))
  {
    var first := Task("a", false);
    var second := Task(" a", false);
    assert ReplayStep([], first) == [first];
    assert [first, second][1..] == [second];
    assert Trim(first.text) == "a";
    assert !IsDuplicateTask([first], second.text);
    assert Trim(second.text) == "a" by {
      assert TrimStart(second.text) == TrimStart(second.text[1..]);
      assert second.text[1..] == "a";
    }
    assert ReplayStep([first], second) == [second, first];
    assert Replay([first, second], []) == Replay([second], [first]);
    assert Replay([second], [first]) == Replay([], [second, first]);
    var r := [second, first];
    assert Trim(r[0].text) == Trim(r[1].text);
  }

  /** A saved list holding the same trimmed text twice loses the later
      entry on load. */
  lemma ReplayDropsRepeatedEntry(t: Task)
    requires Trim(t.text) == t.text
    ensures Replay([t, t], []) == [t]
  {
    assert !IsDuplicateTask([], t.text);
    assert ReplayStep([], t) == [t];
    assert [t, t][1..] == [t];
    assert Replay([t, t], []) == Replay([t], [t]);
    assert IsDuplicateTask([t], t.text) by {
      assert Trim([t][0].text) == t.text;
    }
    assert ReplayStep([t], t) == [t];
  }

  /** Number of tasks with the completed flag: `.list.completed`. */
  function CountCompleted(tasks: seq<Task>): (n: nat)
    ensures n <= |tasks|
  {
    if tasks == [] then 0 else (if tasks[0].completed then 1 else 0) + CountCompleted(tasks[1..])
  }

  /** Number of tasks without the completed flag. */
  function CountUncompleted(tasks: seq<Task>): nat {
    if tasks == [] then 0 else (if tasks[0].completed then 0 else 1) + CountUncompleted(tasks[1..])
  }

  /** The three badges of the filter options. */
  datatype Counts = Counts(all: nat, completed: nat, inProgress: nat)

  /** `updateTaskCounts()` (scripting.js:22-32): counts over the whole list,
      whatever the filter; the in-progress badge, computed as
      all − completed, is the number of uncompleted tasks. */
  function TaskCounts(tasks: seq<Task>): (c: Counts)
    ensures c.all == |tasks|
    ensures c.completed + c.inProgress == c.all
    ensures c.inProgress == CountUncompleted(tasks)
  {
    CountsSplit(tasks);
    Counts(|tasks|, CountCompleted(tasks), |tasks| - CountCompleted(tasks))
  }

  lemma {:induction false} CountsSplit(tasks: seq<Task>)
    ensures CountCompleted(tasks) + CountUncompleted(tasks) == |tasks|
  {
    if tasks != [] {
      CountsSplit(tasks[1..]);
    }
  }

  /** The filter values the page offers. */
  const FilterAll := "all"
  const FilterCompleted := "completed"
  const FilterUncompleted := "uncompleted"

  /** The option `filterTasks` applies: the stored filter slot, or "all"
      when the slot is missing or empty (`getItem(...) || "all"`). */
  function SelectedOption(slot: Option<string>): (option: string)
    ensures option != ""
    ensures slot.Some? && slot.value != "" ==> option == slot.value
    ensures slot == None || slot.value == "" ==> option == FilterAll
  {
    if slot.Some? && slot.value != "" then slot.value else FilterAll
  }

  /** What `filterTasks` does to one task's inline display. */
  datatype Display = Shown | Hidden | Unchanged

  /** The `switch (selectedOption)` of `filterTasks` (scripting.js:519-536,
      nscript.js:440-458): an unknown option falls through and touches no
      task. */
  function DisplayFor(option: string, completed: bool): Display {
    if option == FilterAll then Shown
    else if option == FilterCompleted then (if completed then Shown else Hidden)
    else if option == FilterUncompleted then (if completed then Hidden else Shown)
    else Unchanged
  }

  /** The text of the "no tasks" paragraph when nothing is visible. */
  const NoTasksMessage := "    You don't have any tasks here."

  /** Number of tasks `filterTasks` shows under `option`. */
  function CountShown(tasks: seq<Task>, option: string): nat {
    if tasks == [] then 0
    else (if DisplayFor(option, tasks[0].completed) == Shown then 1 else 0) + CountShown(tasks[1..], option)
  }

  /** The badges agree with the filter: the "all" view shows as many tasks as
      the All badge, the "completed" view as many as the Completed badge and
      the "uncompleted" view as many as the In-Progress badge. */
  lemma {:induction false} BadgesMatchViews(tasks: seq<Task>)
    ensures CountShown(tasks, FilterAll) == TaskCounts(tasks).all
    ensures CountShown(tasks, FilterCompleted) == TaskCounts(tasks).completed
    ensures CountShown(tasks, FilterUncompleted) == TaskCounts(tasks).inProgress
  {
    if tasks != [] {
      BadgesMatchViews(tasks[1..]);
    }
  }

  /** A view is empty exactly when it shows no task. */
  lemma {:induction false} CountShownZero(tasks: seq<Task>, option: string)
    ensures CountShown(tasks, option) == 0 <==>
      forall k :: 0 <= k < |tasks| ==> DisplayFor(option, tasks[k].completed) != Shown
  {
    if tasks != [] {
      CountShownZero(tasks[1..], option);
      assert forall k :: 0 < k < |tasks| ==> tasks[k] == tasks[1..][k - 1];
    }
  }

  /** No completed task has an all-whitespace text. */
  predicate CompletedHaveText(tasks: seq<Task>) {
    forall k :: 0 <= k < |tasks| && tasks[k].completed ==> Trim(tasks[k].text) != []
  }
}
