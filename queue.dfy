/** The action queue of nscript.js: a FIFO array of closures with `push` and
    `shift`, the handlers that go through it, and the dialog callbacks that
    run later, outside it. A closure is one of two kinds here: the insertion
    that `addTaskToList` queues, and the opening of a confirmation dialog
    that delete, clear and the status toggle queue. */
module Queue {
  import opened TaskText
  import opened Tasks
  import opened Engine

  /** A confirmation dialog a queued action opens, with what its callbacks
      captured: the task's position, and for a toggle the box's value after
      the click and the task's flag before it. */
  datatype Dialog =
    | DeleteDialog(index: nat)
    | ClearDialog
    | StatusDialog(index: nat, checked: bool, originalState: bool)

  /** A closure in `actionQueue`. */
  datatype Action =
    | Insert(task: Task)
    | Open(dialog: Dialog)

  class ActionQueue {
    /** `actionQueue`, head first. */
    var pending: seq<Action>
    /** The dialogs opened so far, oldest first. */
    var dialogs: seq<Dialog>
    /** Every action ever pushed, in push order. */
    ghost var submitted: seq<Action>
    /** Every action ever shifted and run, in run order. */
    ghost var executed: seq<Action>

    /** First in, first out: the actions run so far followed by those still
        waiting are exactly the actions submitted, in order. */
    ghost predicate Valid()
      reads this
    {
      executed + pending == submitted
    }

    constructor ()
      ensures pending == [] && dialogs == [] && submitted == [] && executed == []
      ensures Valid()
    {
      pending := [];
      dialogs := [];
      submitted := [];
      executed := [];
    }

    /** What running `a` did between the two states: an insertion prepends
        its task, puts the drop-down on "all" and rewrites both slots; an
        opening adds its dialog and touches no task. */
    twostate predicate Performed(a: Action, list: TodoList)
      reads this, list
    {
      match a
      case Insert(t) =>
        && list.tasks == [t] + old(list.tasks) && list.filter == FilterAll
        && list.storedTasks == Some(Snapshot(list.tasks)) && list.storedFilter == Some(FilterAll)
        && dialogs == old(dialogs)
      case Open(d) =>
        && dialogs == old(dialogs) + [d]
        && unchanged(list)
    }

    /** Runs one closure. */
    method Run(a: Action, list: TodoList)
      modifies this`dialogs, list
      ensures Performed(a, list)
    {
      match a
      case Insert(t) =>
        list.InsertTask(t);
      case Open(d) =>
        dialogs := dialogs + [d];
    }

    /** `processNextAction()` (nscript.js:5-10): on an empty queue nothing
        happens; otherwise exactly the head is removed and run. */
    method ProcessNextAction(list: TodoList)
      requires Valid()
      modifies this, list
      ensures Valid() && submitted == old(submitted)
      ensures old(pending) == [] ==> unchanged(this) && unchanged(list)
      ensures old(pending) != [] ==>
        pending == old(pending)[1..] && executed == old(executed) + [old(pending)[0]] &&
        Performed(old(pending)[0], list)
    {
      if |pending| > 0 {
        var action := pending[0];
        pending := pending[1..];
        executed := executed + [action];
        assert old(executed) + old(pending) == old(executed) + [action] + pending;
        Run(action, list);
      }
    }

    /** `queueAction(action)` (nscript.js:13-16): the action is pushed and
        the head is run, so the queue keeps its length. From an empty queue
        the action runs at once and the queue is empty again. */
    method QueueAction(a: Action, list: TodoList)
      requires Valid()
      modifies this, list
      ensures Valid() && submitted == old(submitted) + [a]
      ensures |pending| == |old(pending)|
      ensures old(pending) == [] ==> pending == [] && executed == old(executed) + [a] && Performed(a, list)
      ensures old(pending) != [] ==>
        pending == old(pending)[1..] + [a] && executed == old(executed) + [old(pending)[0]] &&
        Performed(old(pending)[0], list)
    {
      pending := pending + [a];
      submitted := submitted + [a];
      ProcessNextAction(list);
    }

    /** `addTaskToList(taskText, isCompleted)` of nscript.js
        (nscript.js:338-362): the duplicate test runs at call time; an
        accepted text queues its insertion, which on the empty queue of a
        page at rest happens at once. */
    method AddTaskToListQueued(text: string, completed: bool, list: TodoList) returns (queued: bool)
      requires Valid()
      modifies this, list
      ensures Valid()
      ensures queued <==> !IsDuplicateTask(old(list.tasks), text)
      ensures !queued ==> unchanged(this) && unchanged(list)
      ensures queued ==> submitted == old(submitted) + [Insert(Task(text, completed))] && |pending| == |old(pending)|
      ensures queued && old(pending) == [] ==>
        pending == [] && list.tasks == [Task(text, completed)] + old(list.tasks) && list.filter == FilterAll &&
        list.storedTasks == Some(Snapshot(list.tasks)) && list.storedFilter == Some(FilterAll)
    {
      queued := !IsDuplicateTask(list.tasks, text);
      if queued {
        QueueAction(Insert(Task(text, completed)), list);
      }
    }

    /** The DOMContentLoaded handler of nscript.js (nscript.js:27-37): every
        saved entry goes through the queued `addTaskToList`. The queue is
        still the empty array it was declared as, so each insertion runs at
        once, so the page ends as the replay of
        the saved entries, exactly as without a queue. */
    method LoadQueued(list: TodoList)
      requires Valid() && pending == []
      modifies this, list
      ensures Valid() && pending == []
      ensures list.tasks == Replay(if old(list.storedTasks).Some? then old(list.storedTasks).value else [], old(list.tasks))
      ensures |list.tasks| > |old(list.tasks)| ==> list.filter == FilterAll
      ensures |list.tasks| == |old(list.tasks)| ==> list.filter == SelectedOption(old(list.storedFilter))
      ensures list.storedTasks == Some(Snapshot(list.tasks)) && list.storedFilter == Some(list.filter)
    {
      var saved := if list.storedTasks.Some? then list.storedTasks.value else [];
      list.filter := SelectedOption(list.storedFilter);
      ghost var start := list.tasks;
      var k := 0;
      while k < |saved|
        invariant 0 <= k <= |saved|
        invariant Valid() && pending == []
        invariant Replay(saved[k..], list.tasks) == Replay(saved, start)
        invariant |list.tasks| >= |start|
        invariant |list.tasks| > |start| ==> list.filter == FilterAll
        invariant |list.tasks| == |start| ==> list.filter == SelectedOption(old(list.storedFilter))
      {
        ghost var before := list.tasks;
        var entry := saved[k];
        var _ := AddTaskToListQueued(entry.text, entry.completed, list);
        assert list.tasks == ReplayStep(before, entry);
        ReplayUnfold(saved[k..], before);
        assert saved[k..][1..] == saved[k + 1..];
        k := k + 1;
      }
      list.AllTasks();
    }

    /** `deleteTask` of nscript.js (nscript.js:157-173): the dialog opening
        is queued; on the empty queue of a page at rest it opens at once, and
        no task changes until its callback runs. */
    method DeleteTaskQueued(i: nat, list: TodoList)
      requires Valid()
      modifies this, list
      ensures Valid() && submitted == old(submitted) + [Open(DeleteDialog(i))]
      ensures old(pending) == [] ==> pending == [] && dialogs == old(dialogs) + [DeleteDialog(i)] && unchanged(list)
    {
      QueueAction(Open(DeleteDialog(i)), list);
    }

    /** The clear button of nscript.js (nscript.js:199-217): on an empty list
        it only notifies and queues nothing; otherwise it queues the opening
        of the dialog, which on an empty queue opens at once and changes no
        task. */
    method ClearQueued(list: TodoList) returns (queued: bool)
      requires Valid()
      modifies this, list
      ensures Valid()
      ensures queued <==> old(list.tasks) != []
      ensures !queued ==> unchanged(this) && unchanged(list)
      ensures queued ==> submitted == old(submitted) + [Open(ClearDialog)]
      ensures queued && old(pending) == [] ==> pending == [] && dialogs == old(dialogs) + [ClearDialog] && unchanged(list)
    {
      queued := |list.tasks| > 0;
      if queued {
        QueueAction(Open(ClearDialog), list);
      }
    }

    /** `updateTaskStatus(checkbox)` of nscript.js (nscript.js:365-381): the
        task's flag at click time is captured and the queued action only
        opens the dialog. */
    method UpdateTaskStatusQueued(i: nat, checked: bool, list: TodoList)
      requires Valid() && i < |list.tasks|
      modifies this, list
      ensures Valid()
      ensures submitted == old(submitted) + [Open(StatusDialog(i, checked, old(list.tasks)[i].completed))]
      ensures old(pending) == [] ==>
        pending == [] && unchanged(list) &&
        dialogs == old(dialogs) + [StatusDialog(i, checked, old(list.tasks)[i].completed)]
    {
      var originalState := list.tasks[i].completed;
      QueueAction(Open(StatusDialog(i, checked, originalState)), list);
    }

    /** The end of a notification's lifetime (nscript.js:471-475): one more
        `processNextAction`, which on the empty queue of a page at rest does
        nothing. */
    method NotificationTimeout(list: TodoList)
      requires Valid()
      modifies this, list
      ensures Valid()
      ensures old(pending) == [] ==> unchanged(this) && unchanged(list)
    {
      ProcessNextAction(list);
    }
  }

  /** The confirm callback of a queued toggle (nscript.js:372-375): the
      update of `handleTaskStatusUpdate`, whose empty-text completion is a
      no-op because its `checkbox` argument is the literal `true`, then a
      save; the box keeps the clicked value. The cancel callback
      (nscript.js:376-379) puts the box back to the flag captured at click
      time and re-saves the unchanged list. */
  method ResolveStatus(list: TodoList, i: nat, checked: bool, originalState: bool, confirmed: bool)
    returns (checkbox: bool)
    requires i < |list.tasks|
    modifies list
    ensures !confirmed ==>
      checkbox == originalState && list.tasks == old(list.tasks) && list.filter == old(list.filter) &&
      list.storedTasks == Some(Snapshot(list.tasks)) && list.storedFilter == old(list.storedFilter)
    ensures confirmed ==> checkbox == checked && list.storedTasks == Some(Snapshot(list.tasks))
    ensures list.filter == old(list.filter)
    ensures confirmed && checked && Trim(old(list.tasks)[i].text) == [] ==> list.storedFilter == old(list.storedFilter)
    ensures confirmed && !(checked && Trim(old(list.tasks)[i].text) == []) ==> list.storedFilter == Some(list.filter)
    ensures confirmed && checked && Trim(old(list.tasks)[i].text) == [] ==> list.tasks == old(list.tasks)
    ensures confirmed && !checked && Trim(old(list.tasks)[i].text) == [] ==> list.tasks == Remove(old(list.tasks), i)
    ensures confirmed && Trim(old(list.tasks)[i].text) != [] ==>
      list.tasks == old(list.tasks)[i := old(list.tasks)[i].(completed := checked)]
    ensures old(CompletedHaveText(list.tasks)) ==> CompletedHaveText(list.tasks)
  {
    if confirmed {
      list.HandleTaskStatusUpdate(i, checked);
      list.UpdateLocalStorage();
      checkbox := checked;
    } else {
      checkbox := originalState;
      list.UpdateLocalStorage();
    }
  }

  /** The confirm callbacks of the queued delete and clear dialogs
      (nscript.js:163-170, 204-210): a delete removes the captured task and
      keeps the order of the rest, a clear empties the list; a cancel
      changes nothing. */
  method ResolveRemoval(list: TodoList, d: Dialog, confirmed: bool)
    requires d.DeleteDialog? ==> d.index < |list.tasks|
    requires !d.StatusDialog?
    modifies list
    ensures !confirmed ==> unchanged(list)
    ensures confirmed && d.DeleteDialog? ==>
      list.tasks == Remove(old(list.tasks), d.index) && list.storedTasks == Some(Snapshot(list.tasks))
    ensures confirmed && d.ClearDialog? ==> list.tasks == [] && list.storedTasks == Some([])
    ensures list.filter == old(list.filter)
    ensures confirmed ==> list.storedFilter == Some(list.filter)
  {
    if confirmed {
      match d
      case DeleteDialog(i) =>
        list.RemoveTask(i);
      case ClearDialog =>
        list.RemoveAll();
    }
  }
}
