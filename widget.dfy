/**
 The widget as the page runs it: one object whose fields are the list, the
 input field and the feedback element, updated in place by the handlers.
 AddTask, RemoveTask and KeyPress are proved to leave the object in the
 state the corresponding function of module TodoList gives, and to keep the
 list invariant. ShowFeedback and DismissFeedback are proved to replace the
 feedback part by Feedback.Show and Feedback.Dismiss of it, leaving the rest
 alone, so a valid state stays valid.
 */
module Widget {
  import opened JsString
  import Feedback
  import opened TodoList

  class TodoWidget {
    var tasks: seq<Entry>          // the children of `task-list`
    var input: string              // taskInput.value
    var nextId: nat                // identity of the next list item created
    var feedbackText: string       // taskFeedback.textContent
    var display: string            // taskFeedback.style.display, as last assigned
    var classes: set<string>       // taskFeedback.classList
    var pending: nat               // dismissal callbacks scheduled, not yet run

    /** The abstract state the fields represent. */
    function Model(): State
      reads this
    {
      State(tasks, input, nextId, Feedback.Region(feedbackText, display, classes, pending))
    }

    ghost predicate Valid()
      reads this
    {
      TodoList.Valid(Model())
    }

    /** The page once loaded: nothing listed, nothing typed, no message. */
    constructor (feedbackClasses: set<string>)
      ensures Valid() && Model() == Initial(feedbackClasses)
    {
      tasks, input, nextId := [], "", 0;
      feedbackText, display, classes, pending := "", "", feedbackClasses, 0;
    }

    /** `showFeedback(message, messageType)`; the dismissal it schedules is
        counted in `pending` and runs later as DismissFeedback. */
    method ShowFeedback(message: string, messageType: string)
      modifies this
      ensures Model() == old(Model()).(feedback := Feedback.Show(old(Model()).feedback, message, messageType))
      ensures old(Valid()) ==> Valid()
    {
      feedbackText := message;
      display := "block";
      classes := classes - Feedback.ColourClasses;
      if messageType == "success" {
        classes := classes + Feedback.Green;
      } else if messageType == "error" {
        classes := classes + Feedback.Red;
      } else if messageType == "info" {
        classes := classes + Feedback.Blue;
      }
      pending := pending + 1;
    }

    /** The timer callback scheduled by ShowFeedback. */
    method DismissFeedback()
      requires pending > 0
      modifies this
      ensures Model() == old(Model()).(feedback := Feedback.Dismiss(old(Model()).feedback))
      ensures old(Valid()) ==> Valid()
    {
      display := "hidden";
      classes := classes + {Feedback.HiddenClass};
      pending := pending - 1;
    }

    /** `addTask()`, run by the add button and by the Enter key. */
    method AddTask()
      requires Valid()
      modifies this
      ensures Valid() && Model() == TodoList.AddTask(old(Model()))
    {
      AddTaskPreservesValid(Model());
      var taskText := Trim(input);
      if taskText == "" {
        ShowFeedback(EmptyInputMessage, "error");
        return;
      }
      tasks := tasks + [Entry(nextId, taskText)];
      nextId := nextId + 1;
      input := "";
      ShowFeedback(AddedMessage, "success");
    }

    /** The remove button of the list item with identity `id`. `removed` is
        false when that item is no longer in the list: `removeChild` then
        throws and nothing changes. */
    method RemoveTask(id: nat) returns (removed: bool)
      requires Valid()
      modifies this
      ensures Valid()
      ensures removed <==> exists i :: 0 <= i < |old(tasks)| && old(tasks)[i].id == id
      ensures removed ==> Model() == RemoveEntry(old(Model()), id).value
      ensures !removed ==> Model() == old(Model())
    {
      RemovePreservesValid(Model(), id);
      var k := Find(tasks, id);
      if k == |tasks| {
        return false;
      }
      tasks := tasks[..k] + tasks[k + 1..];
      ShowFeedback(RemovedMessage, "success");
      removed := true;
    }

    /** The input field's keypress listener. */
    method KeyPress(key: string)
      requires Valid()
      modifies this
      ensures Valid() && Model() == TodoList.KeyPress(old(Model()), key)
    {
      if key == "Enter" {
        AddTask();
      }
    }
  }

  /** A page session: type the same task twice, add both (by button and by
      Enter), remove the first. The two entries have the same text, and the
      one left is the one whose button was not pressed. */
  method DuplicateSession(typed: string) returns (removed: bool, left: seq<Entry>, message: string)
    requires Trim(typed) != ""
    ensures removed && left == [Entry(1, Trim(typed))] && message == RemovedMessage
  {
    var w := new TodoWidget({});
    w.input := typed;
    w.AddTask();
    assert w.tasks == [Entry(0, Trim(typed))];
    var first := w.tasks[0];
    w.input := typed;
    ghost var before := w.Model();
    w.KeyPress("Enter");
    assert w.Model() == TodoList.AddTask(before);
    assert w.tasks[..1] == [first] && w.tasks[1] == Entry(1, Trim(typed));
    assert w.tasks == [first, Entry(1, Trim(typed))];
    removed := w.RemoveTask(first.id);
    left, message := w.tasks, w.feedbackText;
  }
}
