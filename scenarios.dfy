/**
 Concrete runs of the to-do widget's handlers, each from any state whose
 list and input field hold the values given.
 */
module Scenarios {
  import opened JsString
  import opened TodoList

  lemma TrimBuyMilk()
    ensures Trim("Buy milk") == "Buy milk"
  {
    TrimOfTrimmed("Buy milk");
  }

  /** On an empty list, adding the input "Buy milk" lists exactly that task,
      clears the field and reports success. */
  lemma BuyMilkScenario(s: State)
    requires s.tasks == [] && s.input == "Buy milk"
    ensures var r := AddTask(s);
            && r.tasks == [Entry(s.nextId, "Buy milk")] && r.input == ""
            && r.feedback.text == AddedMessage
  {
    TrimBuyMilk();
  }

  /** A whitespace-only input is rejected: list and field stay as they were. */
  lemma BlankInputScenario(s: State)
    requires s.input == " \t "
    ensures var r := AddTask(s);
            && r.tasks == s.tasks && r.input == " \t "
            && r.feedback.text == EmptyInputMessage
  {
    AddTaskRejectsBlank(s);
  }

  /** Removing "a" from the list a, b leaves b. */
  lemma RemoveFirstScenario(s: State)
    requires s.tasks == [Entry(0, "a"), Entry(1, "b")]
    ensures var r := RemoveEntry(s, 0);
            r.Some? && r.value.tasks == [Entry(1, "b")] && r.value.feedback.text == RemovedMessage
  {
    assert s.tasks[1..] == [Entry(1, "b")];
  }

  /** Of two entries both reading "milk", the second one's button removes the
      second one only. */
  lemma RemoveDuplicateScenario(s: State)
    requires s.tasks == [Entry(0, "milk"), Entry(1, "milk")]
    ensures var r := RemoveEntry(s, 1);
            r.Some? && r.value.tasks == [Entry(0, "milk")]
  {
    assert s.tasks[1..] == [Entry(1, "milk")];
    assert Find(s.tasks, 1) == 1;
    assert s.tasks[..1] == [Entry(0, "milk")] && s.tasks[2..] == [];
  }
}
