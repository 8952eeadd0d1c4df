/** Two pages edited through the Enter key, as each revision's
    `saveEditedTask` is written and with the duplicate test corrected to
    leave the edited task out. */
module Findings {
  import opened TaskText
  import opened Tasks
  import opened Engine

  /** scripting.js as written: "tea" edited to "coffee" and saved
      with Enter disappears, and the saved list is empty too. */
  method EnterDeletesEditScripting() returns (before: seq<Task>, after: seq<Task>, saved: Option<seq<Task>>)
    ensures before == [Task("tea", false)]
    ensures after == [] && saved == Some([])
  {
    var page := new TodoList(None, None);
    var _ := page.AddTaskToList("tea", false);
    before := page.tasks;
    page.EditText(0, "coffee");
    assert page.tasks == [Task("coffee", false)];
    assert !IsSpace('c') && !IsSpace('e');
    assert Trim("coffee") == "coffee";
    page.EditEnterScripting(0, "tea");
    assert Remove([Task("coffee", false)], 0) == [];
    after := page.tasks;
    saved := page.storedTasks;
  }

  /** script.js and nscript.js as written: the same edit stays on screen
      but Enter saves nothing, so the slot still holds "tea". */
  method EnterKeepsStaleSlotByLength() returns (after: seq<Task>, saved: Option<seq<Task>>)
    ensures after == [Task("coffee", false)]
    ensures saved == Some([Task("tea", false)])
  {
    var page := new TodoList(None, None);
    var _ := page.AddTaskToList("tea", false);
    assert Snapshot([Task("tea", false)]) == [Task("tea", false)];
    assert page.storedTasks == Some([Task("tea", false)]);
    page.EditText(0, "coffee");
    assert page.tasks == [Task("coffee", false)];
    assert !IsSpace('c') && !IsSpace('e');
    assert Trim("coffee") == "coffee";
    assert |Trim(page.tasks[0].text)| != |"tea"| && Trim(page.tasks[0].text) != [];
    page.EditEnterByLength(0, "tea");
    after := page.tasks;
    saved := page.storedTasks;
  }

  /** scripting.js with the edited task left out of the duplicate test:
      the same edit is kept on screen and in the slot. */
  method EnterSavesEditScriptingExcludingSelf() returns (after: seq<Task>, saved: Option<seq<Task>>)
    ensures after == [Task("coffee", false)]
    ensures saved == Some([Task("coffee", false)])
  {
    var page := new TodoList(None, None);
    var _ := page.AddTaskToList("tea", false);
    page.EditText(0, "coffee");
    assert !IsSpace('c') && !IsSpace('e');
    assert Trim("coffee") == "coffee";
    assert Remove([Task("coffee", false)], 0) == [];
    page.EditEnterScriptingExcludingSelf(0, "tea");
    after := page.tasks;
    assert Snapshot(after) == [Task("coffee", false)];
    saved := page.storedTasks;
  }

  /** script.js and nscript.js with the edited task left out of the
      duplicate test: the same edit is kept on screen and in the slot. */
  method EnterSavesEditByLengthExcludingSelf() returns (after: seq<Task>, saved: Option<seq<Task>>)
    ensures after == [Task("coffee", false)]
    ensures saved == Some([Task("coffee", false)])
  {
    var page := new TodoList(None, None);
    var _ := page.AddTaskToList("tea", false);
    page.EditText(0, "coffee");
    assert !IsSpace('c') && !IsSpace('e');
    assert Trim("coffee") == "coffee";
    assert Remove([Task("coffee", false)], 0) == [];
    page.EditEnterByLengthExcludingSelf(0, "tea");
    after := page.tasks;
    assert Snapshot(after) == [Task("coffee", false)];
    saved := page.storedTasks;
  }
}
