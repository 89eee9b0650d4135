/**
 The feedback region of the to-do widget (the `task-feedback` element) as a value.

 `showFeedback(message, type)` overwrites the text, sets the inline display to
 "block", strips the three colour groups and applies the one belonging to the
 type, and schedules a dismissal. The dismissal is modelled as an explicit
 event: `pending` counts the dismissals scheduled and not yet run, and each
 run sets the inline display to "hidden" and adds the class "hidden".
 */
module Feedback {

  const Green: set<string> := {"bg-green-100", "text-green-700", "border-green-300"}
  const Red: set<string> := {"bg-red-100", "text-red-700", "border-red-300"}
  const Blue: set<string> := {"bg-blue-100", "text-blue-700", "border-blue-300"}

  /** The nine classes `showFeedback` removes before styling. */
  const ColourClasses: set<string> := Green + Red + Blue

  /** The utility class the dismissal adds. */
  const HiddenClass: string := "hidden"

  datatype Region = Region(
    text: string,          // textContent
    display: string,       // style.display, as last assigned
    classes: set<string>,  // classList
    pending: nat           // dismissals scheduled and not yet run
  )

  /** The colour group a message type selects; other types select none. */
  function GroupFor(messageType: string): (g: set<string>)
    ensures g == {} || g == Green || g == Red || g == Blue
  {
    if messageType == "success" then Green
    else if messageType == "error" then Red
    else if messageType == "info" then Blue
    else {}
  }

  /** The class set holds classes of at most one colour group. */
  predicate ColoursExclusive(classes: set<string>) {
    && (classes * Green == {} || classes * Red == {})
    && (classes * Green == {} || classes * Blue == {})
    && (classes * Red == {} || classes * Blue == {})
  }

  /** `showFeedback(message, messageType)`: the colour classes afterwards are
      exactly the group of the type, and every other class is as it was. */
  function Show(r: Region, message: string, messageType: string): (r': Region)
    ensures r'.text == message && r'.display == "block"
    ensures r'.classes * ColourClasses == GroupFor(messageType)
    ensures r'.classes - ColourClasses == r.classes - ColourClasses
    ensures r'.pending == r.pending + 1
  {
    Region(message, "block", (r.classes - ColourClasses) + GroupFor(messageType), r.pending + 1)
  }

  /** The scheduled callback: it runs only when a dismissal is pending. */
  function Dismiss(r: Region): (r': Region)
    requires r.pending > 0
    ensures r'.text == r.text && r'.display == "hidden"
    ensures HiddenClass in r'.classes && r.classes <= r'.classes
    ensures r'.classes - r.classes <= {HiddenClass}
    ensures r'.pending + 1 == r.pending
  {
    Region(r.text, "hidden", r.classes + {HiddenClass}, r.pending - 1)
  }

  /** No class belongs to two colour groups. */
  lemma GroupsDisjoint()
    ensures Green * Red == {} && Green * Blue == {} && Red * Blue == {}
  {
    assert "bg-green-100" != "bg-red-100" && "bg-green-100" != "bg-blue-100";
  }

  /** After `showFeedback(m, t)` the whole group of `t` is present and no class
      of the other two groups. */
  lemma ShowColours(r: Region, message: string, messageType: string)
    ensures var c := Show(r, message, messageType).classes;
            && c * Green == (if messageType == "success" then Green else {})
            && c * Red == (if messageType == "error" then Red else {})
            && c * Blue == (if messageType == "info" then Blue else {})
  {
    GroupsDisjoint();
    var c := Show(r, message, messageType).classes;
    assert c * Green == (c * ColourClasses) * Green;
    assert c * Red == (c * ColourClasses) * Red;
    assert c * Blue == (c * ColourClasses) * Blue;
  }

  /** After any `showFeedback` at most one colour group is present. */
  lemma ShowColoursExclusive(r: Region, message: string, messageType: string)
    ensures ColoursExclusive(Show(r, message, messageType).classes)
  {
    ShowColours(r, message, messageType);
  }

  /** `showFeedback` never removes "hidden": its removal list omits it. */
  lemma ShowKeepsHidden(r: Region, message: string, messageType: string)
    requires HiddenClass in r.classes
    ensures HiddenClass in Show(r, message, messageType).classes
  {
    assert HiddenClass !in ColourClasses;
    assert HiddenClass in r.classes - ColourClasses;
  }

  /** The region after a run of `showFeedback` calls, first to last. */
  function ShowAll(r: Region, messages: seq<(string, string)>): (r': Region)
    ensures r'.pending == r.pending + |messages|
    ensures messages != [] ==> r'.text == messages[|messages| - 1].0
    decreases |messages|
  {
    if messages == [] then r
    else ShowAll(Show(r, messages[0].0, messages[0].1), messages[1..])
  }

  /** Once a dismissal has added "hidden", no later `showFeedback` takes it away. */
  lemma {:induction false} HiddenSticky(r: Region, messages: seq<(string, string)>)
    requires HiddenClass in r.classes
    ensures HiddenClass in ShowAll(r, messages).classes
    decreases |messages|
  {
    if messages != [] {
      var next := Show(r, messages[0].0, messages[0].1);
      ShowKeepsHidden(r, messages[0].0, messages[0].1);
      HiddenSticky(next, messages[1..]);
    }
  }

  /** Dismissals are not cancelled: when two messages are shown in quick
      succession, the first one's dismissal runs while the second message is
      shown. It sets the display string to "hidden" and adds the class
      "hidden" while the second's own dismissal is still pending. */
  lemma StaleDismissalActsOnLaterMessage(r: Region, m1: string, t1: string, m2: string, t2: string)
    ensures var later := Dismiss(Show(Show(r, m1, t1), m2, t2));
            later.text == m2 && later.display == "hidden" && HiddenClass in later.classes
            && later.pending == r.pending + 1
  {
  }
}
