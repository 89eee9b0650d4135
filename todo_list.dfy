/**
 The to-do widget's state and its event handlers as functions on values.

 The state is the ordered task list, the text of the input field and the
 feedback region. Each list entry carries an identity: the remove button's
 handler captures its own list item, not the item's text, so identities
 tell apart entries whose texts are equal. `nextId` is the identity the next
 new entry receives, standing for the allocation of a fresh element.
 */
module TodoList {
  import opened JsString
  import Feedback

  datatype Option<T> = None | Some(value: T)

  datatype Entry = Entry(id: nat, text: string)

  datatype State = State(
    tasks: seq<Entry>,
    input: string,
    nextId: nat,
    feedback: Feedback.Region
  )

  const EmptyInputMessage: string := "Please enter a task."
  const AddedMessage: string := "Task added successfully!"
  const RemovedMessage: string := "Task removed successfully!"

  /** Every entry's text is non-empty and trimmed, identities are distinct
      and all below `nextId`. */
  predicate ValidTasks(tasks: seq<Entry>, nextId: nat) {
    && (forall i :: 0 <= i < |tasks| ==>
          tasks[i].text != "" && IsTrimmed(tasks[i].text) && tasks[i].id < nextId)
    && (forall i, j :: 0 <= i < j < |tasks| ==> tasks[i].id != tasks[j].id)
  }

  /** The list invariant; it does not depend on the input or the feedback. */
  predicate Valid(s: State) {
    ValidTasks(s.tasks, s.nextId)
  }

  /** Cutting one entry out of a valid list leaves a valid list. */
  lemma CutPreservesValid(tasks: seq<Entry>, nextId: nat, k: nat)
    requires ValidTasks(tasks, nextId) && k < |tasks|
    ensures ValidTasks(tasks[..k] + tasks[k + 1..], nextId)
  {
    var rest := tasks[..k] + tasks[k + 1..];
    forall i | 0 <= i < |rest|
      ensures rest[i] == tasks[if i < k then i else i + 1]
    {
    }
  }

  /** The page as loaded: an empty list, an empty input field and a feedback
      region with no text, no inline display and whatever classes the page
      gives it. The page's HTML decides these starting values; an empty
      input and display are taken as its defaults. */
  function Initial(feedbackClasses: set<string>): (s: State)
    ensures Valid(s) && s.tasks == [] && s.input == ""
  {
    State([], "", 0, Feedback.Region("", "", feedbackClasses, 0))
  }

  /** `addTask()`: reject a blank input with an error message, otherwise
      append the trimmed text, clear the input and report success. */
  function AddTask(s: State): (r: State)
    ensures Trim(s.input) == "" ==>
              && r.tasks == s.tasks && r.input == s.input && r.nextId == s.nextId
              && r.feedback == Feedback.Show(s.feedback, EmptyInputMessage, "error")
    ensures Trim(s.input) != "" ==>
              && |r.tasks| == |s.tasks| + 1
              && r.tasks[..|s.tasks|] == s.tasks
              && r.tasks[|s.tasks|] == Entry(s.nextId, Trim(s.input))
              && r.input == "" && r.nextId == s.nextId + 1
              && r.feedback == Feedback.Show(s.feedback, AddedMessage, "success")
  {
    var taskText := Trim(s.input);
    if taskText == "" then
      s.(feedback := Feedback.Show(s.feedback, EmptyInputMessage, "error"))
    else
      State(s.tasks + [Entry(s.nextId, taskText)], "", s.nextId + 1,
            Feedback.Show(s.feedback, AddedMessage, "success"))
  }

  /** The position of the first entry with identity `id`, or `|tasks|` if none has it. */
  function Find(tasks: seq<Entry>, id: nat): (k: nat)
    ensures k <= |tasks|
    ensures k < |tasks| ==> tasks[k].id == id
    ensures forall j :: 0 <= j < k ==> tasks[j].id != id
  {
    if tasks == [] then 0
    else if tasks[0].id == id then 0
    else 1 + Find(tasks[1..], id)
  }

  /** The remove button of entry `id`: `taskList.removeChild(listItem)` and
      then the success message. When the entry is no longer in the list,
      `removeChild` throws before the message is shown and nothing changes
      (`None`). */
  function RemoveEntry(s: State, id: nat): (r: Option<State>)
    ensures r.None? <==> forall i :: 0 <= i < |s.tasks| ==> s.tasks[i].id != id
    ensures r.Some? ==>
              exists k :: 0 <= k < |s.tasks| && s.tasks[k].id == id
                          && r.value.tasks == s.tasks[..k] + s.tasks[k + 1..]
    ensures r.Some? ==>
              && r.value.input == s.input && r.value.nextId == s.nextId
              && r.value.feedback == Feedback.Show(s.feedback, RemovedMessage, "success")
  {
    var k := Find(s.tasks, id);
    if k == |s.tasks| then None
    else Some(s.(tasks := s.tasks[..k] + s.tasks[k + 1..],
                 feedback := Feedback.Show(s.feedback, RemovedMessage, "success")))
  }

  /** The input field's keypress listener: Enter runs `addTask`, which always
      shows a message, and any other key is ignored. */
  function KeyPress(s: State, key: string): (r: State)
    ensures r == s <==> key != "Enter"
    ensures r != s ==> r == AddTask(s) && r.feedback.pending == s.feedback.pending + 1
  {
    if key == "Enter" then AddTask(s) else s
  }

  /** A blank input changes neither the list nor the input field; the
      feedback shows the error message in red only. */
  lemma AddTaskRejectsBlank(s: State)
    requires forall k :: 0 <= k < |s.input| ==> IsWhitespace(s.input[k])
    ensures var r := AddTask(s);
            && r.tasks == s.tasks && r.input == s.input
            && r.feedback.text == EmptyInputMessage && r.feedback.display == "block"
            && Feedback.Red <= r.feedback.classes
            && r.feedback.classes * (Feedback.Green + Feedback.Blue) == {}
  {
    TrimEmptyIff(s.input);
    Feedback.ShowColours(s.feedback, EmptyInputMessage, "error");
  }

  /** A successful add appends one trimmed, fresh entry and keeps every
      earlier entry in place. */
  lemma AddTaskAppends(s: State)
    requires Valid(s)
    requires exists k :: 0 <= k < |s.input| && !IsWhitespace(s.input[k])
    ensures var r := AddTask(s);
            && |r.tasks| == |s.tasks| + 1
            && (forall i :: 0 <= i < |s.tasks| ==> r.tasks[i] == s.tasks[i])
            && r.tasks[|s.tasks|].text == Trim(s.input) && r.tasks[|s.tasks|].text != ""
            && (forall e :: e in s.tasks ==> e.id != r.tasks[|s.tasks|].id)
            && r.input == "" && r.feedback.text == AddedMessage
            && Feedback.Green <= r.feedback.classes
  {
    TrimEmptyIff(s.input);
    Feedback.ShowColours(s.feedback, AddedMessage, "success");
    var r := AddTask(s);
    forall i | 0 <= i < |s.tasks|
      ensures r.tasks[i] == s.tasks[i]
    {
      assert r.tasks[i] == r.tasks[..|s.tasks|][i];
    }
  }

  /** In a valid state every stored text is a fixed point of trim. */
  lemma ValidTextsAreTrimFixedPoints(s: State, i: nat)
    requires Valid(s) && i < |s.tasks|
    ensures Trim(s.tasks[i].text) == s.tasks[i].text != ""
  {
    TrimOfTrimmed(s.tasks[i].text);
  }

  /** `addTask` keeps the list invariant: the text it stores is trimmed and
      non-empty, and the identity it gives is new. */
  lemma AddTaskPreservesValid(s: State)
    requires Valid(s)
    ensures Valid(AddTask(s))
  {
    var r := AddTask(s);
    if Trim(s.input) != "" {
      forall i | 0 <= i < |r.tasks| - 1
        ensures r.tasks[i] == s.tasks[i]
      {
        assert r.tasks[i] == r.tasks[..|s.tasks|][i];
      }
    }
  }

  /** With distinct identities, the remove button of the entry at position `i`
      deletes exactly that entry, even if other entries have the same text;
      the rest keep their order and the input field is untouched. */
  lemma RemoveDeletesThatEntry(s: State, i: nat)
    requires Valid(s) && i < |s.tasks|
    ensures RemoveEntry(s, s.tasks[i].id)
            == Some(s.(tasks := s.tasks[..i] + s.tasks[i + 1..],
                       feedback := Feedback.Show(s.feedback, RemovedMessage, "success")))
  {
    var k := Find(s.tasks, s.tasks[i].id);
    assert k == i;
  }

  /** Removing one of two entries with equal text leaves the other one in place. */
  lemma RemoveKeepsDuplicate(s: State, i: nat, j: nat)
    requires Valid(s) && i < |s.tasks| && j < |s.tasks| && i != j
    requires s.tasks[i].text == s.tasks[j].text
    ensures var r := RemoveEntry(s, s.tasks[i].id);
            && r.Some? && |r.value.tasks| + 1 == |s.tasks|
            && s.tasks[j] in r.value.tasks && s.tasks[i] !in r.value.tasks
  {
    RemoveDeletesThatEntry(s, i);
    var rest := s.tasks[..i] + s.tasks[i + 1..];
    forall m | 0 <= m < |rest|
      ensures rest[m] == s.tasks[if m < i then m else m + 1]
    {
    }
    assert rest[if j < i then j else j - 1] == s.tasks[j];
  }

  /** Removal keeps the list invariant. */
  lemma RemovePreservesValid(s: State, id: nat)
    requires Valid(s)
    ensures RemoveEntry(s, id).Some? ==> Valid(RemoveEntry(s, id).value)
  {
    var k := Find(s.tasks, id);
    if k < |s.tasks| {
      CutPreservesValid(s.tasks, s.nextId, k);
    }
  }

  /** A key press adds an entry exactly when the key is "Enter" and the input
      is not blank; it never removes or reorders entries and keeps the list
      invariant. */
  lemma KeyPressAddsIff(s: State, key: string)
    requires Valid(s)
    ensures var r := KeyPress(s, key);
            && Valid(r)
            && |s.tasks| <= |r.tasks| && r.tasks[..|s.tasks|] == s.tasks
            && (|r.tasks| == |s.tasks| + 1 <==> key == "Enter" && Trim(s.input) != "")
  {
    if key == "Enter" {
      AddTaskPreservesValid(s);
    }
  }

  /** The events the page reacts to: a click on the add button, a key press in
      the input field, a click on an entry's remove button, a dismissal
      callback coming due, and the user editing the input field. */
  datatype Action =
    | AddClick
    | Key(key: string)
    | RemoveClick(id: nat)
    | DismissalDue
    | Edit(value: string)

  /** One event. A dismissal with none pending cannot happen and changes nothing.
      Only the add paths and a removal touch the list, each by at most one
      entry, and only a successful add consumes an identity. */
  function Step(s: State, a: Action): (r: State)
    ensures r.nextId == s.nextId || r.nextId == s.nextId + 1
    ensures r.nextId == s.nextId + 1 ==> |r.tasks| == |s.tasks| + 1
    ensures (a.DismissalDue? || a.Edit?) ==> r.tasks == s.tasks
    ensures a.RemoveClick? ==> r.nextId == s.nextId && |r.tasks| <= |s.tasks|
    ensures |r.tasks| <= |s.tasks| + 1
  {
    match a
    case AddClick => AddTask(s)
    case Key(key) => KeyPress(s, key)
    case RemoveClick(id) =>
      (match RemoveEntry(s, id)
       case None => s
       case Some(r) => r)
    case DismissalDue =>
      if s.feedback.pending > 0 then s.(feedback := Feedback.Dismiss(s.feedback)) else s
    case Edit(value) => s.(input := value)
  }

  /** The state after a sequence of events, first to last. Identities are
      never handed out twice: the counter only grows, and the list grows by
      at most one entry per event. */
  function Run(s: State, actions: seq<Action>): (r: State)
    ensures r.nextId >= s.nextId
    ensures |r.tasks| <= |s.tasks| + |actions|
    decreases |actions|
  {
    if actions == [] then s else Run(Step(s, actions[0]), actions[1..])
  }

  lemma StepPreservesValid(s: State, a: Action)
    requires Valid(s)
    ensures Valid(Step(s, a))
  {
    match a
    case AddClick => AddTaskPreservesValid(s);
    case Key(key) => AddTaskPreservesValid(s);
    case RemoveClick(id) => RemovePreservesValid(s, id);
    case DismissalDue =>
    case Edit(value) =>
  }

  /** Whatever the user does, every stored text stays non-empty and trimmed
      and identities stay distinct. */
  lemma {:induction false} RunPreservesValid(s: State, actions: seq<Action>)
    requires Valid(s)
    ensures Valid(Run(s, actions))
    decreases |actions|
  {
    if actions != [] {
      StepPreservesValid(s, actions[0]);
      RunPreservesValid(Step(s, actions[0]), actions[1..]);
    }
  }

  lemma StepKeepsHidden(s: State, a: Action)
    requires Feedback.HiddenClass in s.feedback.classes
    ensures Feedback.HiddenClass in Step(s, a).feedback.classes
  {
    match a
    case AddClick =>
      Feedback.ShowKeepsHidden(s.feedback, EmptyInputMessage, "error");
      Feedback.ShowKeepsHidden(s.feedback, AddedMessage, "success");
    case Key(key) =>
      Feedback.ShowKeepsHidden(s.feedback, EmptyInputMessage, "error");
      Feedback.ShowKeepsHidden(s.feedback, AddedMessage, "success");
    case RemoveClick(id) =>
      Feedback.ShowKeepsHidden(s.feedback, RemovedMessage, "success");
    case DismissalDue =>
    case Edit(value) =>
  }

  /** Every `showFeedback` starts from the classes the previous one left, and
      none removes "hidden": once a dismissal has run, the class stays for
      the rest of the page's life. */
  lemma {:induction false} HiddenStaysHidden(s: State, actions: seq<Action>)
    requires Feedback.HiddenClass in s.feedback.classes
    ensures Feedback.HiddenClass in Run(s, actions).feedback.classes
    decreases |actions|
  {
    if actions != [] {
      var next := Step(s, actions[0]);
      StepKeepsHidden(s, actions[0]);
      HiddenStaysHidden(next, actions[1..]);
    }
  }
}
