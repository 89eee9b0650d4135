# Dynamic to-do list widget, modelled in Dafny

The widget is one page script, `script.js`. The user types a task into an input
field and adds it with the add button or the Enter key. Each task appears in a
list with its own remove button. A feedback region shows a coloured message
after every add, remove or rejected add. A timer callback then sets the
region's `style.display` to "hidden" and adds the class `hidden`, which no
later message removes.

The model has four layers:

- `js_string.dfy` (module `JsString`) specifies `String.prototype.trim`. A
  predicate lists ECMAScript's WhiteSpace and LineTerminator code points, and
  `Trim` cuts them from both ends.
- `feedback.dfy` (module `Feedback`) models the feedback element as a value:
  its text, its inline `display`, its class set, and the number of dismissal
  callbacks scheduled but not yet run. `Show` is `showFeedback`. `Dismiss` is
  the deferred callback, modelled as an explicit event with no clock.
- `todo_list.dfy` (module `TodoList`) models the whole page state as a value:
  the ordered entries, the input text and the feedback region. Each entry has
  an identity and a text. `AddTask`, `RemoveEntry` and `KeyPress` model the
  three handlers. `Step` and `Run` apply sequences of user and timer events.
  The lemmas prove the properties below for every input their
  preconditions admit.
- `widget.dfy` (module `Widget`) holds the class `TodoWidget`. Its fields are
  what the handlers change in place. `AddTask`, `RemoveTask` and `KeyPress`
  are proved to end in exactly the state the matching `TodoList` function
  gives, and to keep the list invariant. `ShowFeedback` and `DismissFeedback`
  are proved to replace the feedback part of the state by `Feedback.Show` and
  `Feedback.Dismiss` of it, leaving the rest alone, so a valid state stays
  valid. `scenarios.dfy` (module `Scenarios`) checks concrete runs.

The remove button's handler captures its own list item, not the item's text.
So an entry is removed by identity, and an entry with the same text stays in
the list. In the model, entry identities come from a counter (`nextId`). The
counter stands for the creation of a fresh element.

## Model

| member | source | states |
|---|---|---|
| `JsString.Trim` | script.js:44 | the trimmed text has no whitespace at either end and is a slice of the input with only whitespace before and after it |
| `JsString.TrimEmptyIff` | script.js:44-47 | trimming gives `""` exactly when every character of the input is whitespace |
| `JsString.TrimOfTrimmed` | script.js:44 | a text with no whitespace at its ends is its own trim |
| `JsString.TrimIdempotent` | script.js:44 | trimming twice gives the same text as trimming once |
| `Feedback.GroupFor` | script.js:24-30 | the group a message type selects is the green, red or blue group or none; which type selects which is stated by `Feedback.ShowColours` |
| `Feedback.Show` | script.js:14-36 | after `showFeedback(m, t)` the text is `m` and display is "block"; the green, red and blue classes present are exactly those of `t`'s group; every other class is kept as it was; one more dismissal is pending |
| `Feedback.Dismiss` | script.js:33-36 | a pending dismissal sets display to "hidden", adds the class "hidden" and nothing else, keeps the text, and uses up one pending dismissal |
| `Feedback.ShowColours` | script.js:19-30 | after `showFeedback(m, t)` the green group is wholly present for "success" and absent otherwise, red likewise for "error", blue for "info" |
| `Feedback.ShowColoursExclusive` | script.js:19-30 | after any `showFeedback`, at most one colour group is present |
| `Feedback.ShowKeepsHidden` | script.js:19-21 | `showFeedback` never removes the class "hidden" |
| `Feedback.ShowAll` | script.js:14-36 | after a run of `showFeedback` calls, the text is the last message and one dismissal is pending per call |
| `Feedback.HiddenSticky` | script.js:19-35 | once "hidden" is present, it stays through every later sequence of `showFeedback` calls |
| `Feedback.StaleDismissalActsOnLaterMessage` | script.js:33-36 | when two messages are shown in a row, the first one's dismissal runs while the second message is shown: the text stays the second message, display is set to "hidden", the class "hidden" is added, and the second's dismissal is still pending |
| `TodoList.Initial` | script.js:95-99 | the loaded page has no tasks and an empty input, and satisfies the list invariant |
| `TodoList.AddTask` | script.js:42-79 | blank input: list, input field and identity counter unchanged, error message shown; otherwise exactly one entry is appended with the trimmed text and a fresh identity, earlier entries keep their places, the field is cleared and success is shown |
| `TodoList.Find` | script.js:66 | gives the position of the first entry with the identity, or the list length if there is none |
| `TodoList.RemoveEntry` | script.js:65-68 | the click does nothing exactly when no entry has the identity; otherwise one entry with that identity is cut out, the others keep their order, the input is untouched and "Task removed successfully!" is shown as success |
| `TodoList.AddTaskRejectsBlank` | script.js:44-50 | a whitespace-only input leaves the list and the input field as they were and shows "Please enter a task." in red only |
| `TodoList.AddTaskAppends` | script.js:53-78 | an input with a non-whitespace character grows the list, empty or not, by one; every earlier entry keeps its place unchanged; the new text is the non-empty trimmed input; its identity is new; the field is cleared; "Task added successfully!" is shown in green |
| `TodoList.ValidTextsAreTrimFixedPoints` | script.js:44-56 | in a valid state, every stored text is non-empty and a fixed point of trim |
| `TodoList.AddTaskPreservesValid` | script.js:44-74 | `addTask` keeps the list invariant: texts non-empty and trimmed, identities distinct and below the counter |
| `TodoList.RemoveDeletesThatEntry` | script.js:65-67 | with distinct identities, the button of the entry at position `i` removes exactly position `i`, keeps the rest in order, and shows the removed message |
| `TodoList.RemoveKeepsDuplicate` | script.js:65-66 | removing one of two entries with the same text leaves the other one in the list and the list one shorter |
| `TodoList.RemovePreservesValid` | script.js:65-66 | a removal keeps the list invariant |
| `TodoList.KeyPress` | script.js:88-92 | the state is unchanged exactly when the key is not Enter; otherwise it is the result of `addTask`, which always schedules one more dismissal |
| `TodoList.KeyPressAddsIff` | script.js:88-92 | in a valid state a key press adds an entry exactly when the key is Enter and the input is not blank; it never removes or reorders entries and keeps the list invariant |
| `TodoList.Step` | script.js:84-93 | one event hands out at most one identity, and then the list grows by exactly one entry; typing and a dismissal leave the list alone; a removal consumes no identity and does not grow the list; no event grows the list by more than one |
| `TodoList.Run` | script.js:84-93 | over any sequence of events the identity counter never goes back, and the list grows by at most one entry per event |
| `TodoList.StepPreservesValid` | script.js:84-93 | every user or timer event keeps the list invariant |
| `TodoList.RunPreservesValid` | script.js:84-93 | every sequence of events keeps the list invariant |
| `TodoList.StepKeepsHidden` | script.js:14-35 | no event removes the class "hidden" from the feedback region |
| `TodoList.HiddenStaysHidden` | script.js:19-35 | once a dismissal has added "hidden", it stays through every later sequence of events |
| `Scenarios.BuyMilkScenario` | script.js:42-79 | adding "Buy milk" to an empty list gives exactly that one task, clears the field and shows the added message |
| `Scenarios.BlankInputScenario` | script.js:44-50 | adding a whitespace-only input leaves the list and the field unchanged and shows the empty-input message |
| `Scenarios.RemoveFirstScenario` | script.js:65-67 | removing the first of the tasks "a" and "b" leaves only "b" |
| `Scenarios.RemoveDuplicateScenario` | script.js:65-67 | of two entries both reading "milk", the second one's button removes only the second |
| `Widget.TodoWidget.constructor` | script.js:4-7 | the new widget is in the initial state: no tasks, an empty input, no message, and the page's feedback classes |
| `Widget.TodoWidget.ShowFeedback` | script.js:14-37 | the fields change to exactly `Feedback.Show` of the old region; the list and the input are not touched |
| `Widget.TodoWidget.DismissFeedback` | script.js:33-36 | the fields change to exactly `Feedback.Dismiss` of the old region; the list and the input are not touched |
| `Widget.TodoWidget.AddTask` | script.js:42-79 | the fields change to exactly `TodoList.AddTask` of the old state, and the list invariant still holds |
| `Widget.TodoWidget.RemoveTask` | script.js:65-68 | reports whether an entry had the identity; if one did, the fields change to exactly `TodoList.RemoveEntry` of the old state, and otherwise nothing changes; the invariant holds |
| `Widget.TodoWidget.KeyPress` | script.js:88-92 | the fields change to exactly `TodoList.KeyPress` of the old state, and the list invariant still holds |
| `Widget.DuplicateSession` | script.js:53-67 | adding the same text twice, by button and then by Enter, and pressing the first entry's remove button reports a removal, leaves only the second entry (identity 1, the trimmed text) and shows the removed message |

## Left out

- Persistence: `script.js` never reads or writes browser storage. No load or save path is modelled.
- DOM construction: the creation of the `li` and `button` elements, their Tailwind class strings, and the button's "Remove" label (script.js:53-61, 71) are presentation. Only the entry's identity and text are kept.
- Element identity: a list item is an object in the page. The model gives each entry a number from a counter instead.
- A click on the button of an entry that is no longer listed cannot happen in the page, because the button leaves with its item. If it did happen, `removeChild` would throw before any message is shown. `TodoList.RemoveEntry` models this as "nothing changes".
- Timing of `setTimeout`: the model has no clock. A dismissal is an explicit event, allowed only while one is pending. `TodoList.Step` treats a dismissal with none pending as no change.
- Rendering: the model does not say what the browser shows. Two points depend on it. Browsers ignore the assignment `style.display = 'hidden'`, because "hidden" is not a valid display value. An inline `display: block` outranks a class rule that is not marked `!important`, so in the usual case the `hidden` class does not hide the region either. Only with such a marking would every message after the first dismissal stay hidden. The stylesheet is not part of this model. The model keeps the string last assigned and the class set, and nothing more.
- Event-listener registration and `DOMContentLoaded` (script.js:2, 84, 88) are host plumbing. The events they deliver are the `Action` cases of `TodoList`.
- Typing in the input field is done by the browser. It is modelled as direct assignment to the `input` field, or as the `Edit` action.
- The internals of `String.prototype.trim` are not modelled. Trimming is specified by a whitespace predicate over Unicode code points. JavaScript strings are UTF-16 code units, so a lone surrogate cannot be written in this model.
- The starting values of the feedback element's classes, text and inline display, and of the input field, come from the page's HTML; a browser may also restore a typed value on reload. HTML is not part of this model. The classes are a constructor parameter, and the text, the display string and the input start empty.
