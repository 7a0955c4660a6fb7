/**
 * The content script (src/pages/Content/script.ts): the list of e-mail
 * inputs it tracks on the page as nodes come and go, the in-page button it
 * enables or disables, and what each message from the extension writes.
 * `isEqualNode` compares nodes by structure, so an input is tracked by its
 * `Shape`, which its `value` property is not part of.
 */
module ContentScript {
  import opened Wrappers
  import opened Text

  const StyleClassPrefix: string := "ca4e8d3c-6b2f-4e91-a5f9-d8c7b3f2e140"

  /** `className(shortName)`: the short name behind the extension's own prefix and a dash. */
  function ClassName(shortName: string): (c: string)
    ensures StartsWith(c, StyleClassPrefix + "-")
    ensures c[|StyleClassPrefix| + 1..] == shortName
  {
    StyleClassPrefix + "-" + shortName
  }

  /** Different short names give different class names. */
  lemma ClassNameInjective(a: string, b: string)
    requires ClassName(a) == ClassName(b)
    ensures a == b
  {
    assert a == ClassName(a)[|StyleClassPrefix| + 1..];
  }

  /** What `isEqualNode` compares: the element's name and attributes. */
  datatype Shape = Shape(tag: string, attributes: seq<(string, string)>)

  class InputElement {
    const shape: Shape
    var value: string

    constructor(shape: Shape, value: string)
      ensures this.shape == shape && this.value == value
    {
      this.shape := shape;
      this.value := value;
    }
  }

  class Button {
    var innerHtml: string
    var disabled: bool
    var classes: set<string>

    constructor(innerHtml: string, disabled: bool, classes: set<string>)
      ensures this.innerHtml == innerHtml && this.disabled == disabled && this.classes == classes
    {
      this.innerHtml := innerHtml;
      this.disabled := disabled;
      this.classes := classes;
    }
  }

  /** The markup of the spinner a disabled button shows when given no text. */
  function SpinnerHtml(): string {
    "<div class=\"" + ClassName("spinner") + "\"></div>"
  }

  predicate IsCursorClass(name: string) {
    StartsWith(name, ClassName("cursor-"))
  }

  /** A JavaScript string in a condition: `undefined` and `""` are false. */
  predicate Truthy(s: Option<string>) {
    s.Some? && s.value != ""
  }

  /** The classes after dropping every cursor class and adding `cursor`. */
  function WithCursor(classes: set<string>, cursor: string): (r: set<string>)
    ensures ClassName(cursor) in r
    ensures forall n :: n in r && IsCursorClass(n) ==> n == ClassName(cursor)
    ensures forall n :: n in classes && !IsCursorClass(n) ==> n in r
    ensures forall n :: n in r ==> n in classes || n == ClassName(cursor)
  {
    (set n | n in classes && !IsCursorClass(n)) + {ClassName(cursor)}
  }

  /**
   * `disableButton(btn, cursorClass, copy)`: the copy, or the spinner when
   * there is none, as content; disabled; no hover class and exactly one
   * cursor class.
   */
  method DisableButton(btn: Button, cursorClass: string, copy: Option<string>)
    modifies btn
    ensures btn.innerHtml == if Truthy(copy) then copy.value else SpinnerHtml()
    ensures btn.disabled
    ensures btn.classes == WithCursor(old(btn.classes) - {ClassName("hover-button")}, cursorClass)
  {
    if !Truthy(copy) {
      btn.innerHtml := SpinnerHtml();
    } else {
      btn.innerHtml := copy.value;
    }
    btn.disabled := true;
    btn.classes := WithCursor(btn.classes - {ClassName("hover-button")}, cursorClass);
  }

  /** `enableButton(btn, cursorClass, copy)`: emptied, enabled, the icon class and exactly one cursor class. */
  method EnableButton(btn: Button, cursorClass: string)
    modifies btn
    ensures btn.innerHtml == "" && !btn.disabled
    ensures btn.classes == WithCursor(old(btn.classes) + {ClassName("icon")}, cursorClass)
  {
    btn.innerHtml := "";
    btn.disabled := false;
    btn.classes := WithCursor(btn.classes + {ClassName("icon")}, cursorClass);
  }

  /** `findIndex` by `isEqualNode`: the first tracked input with the shape, if any. */
  function FirstIndex(tracked: seq<InputElement>, s: Shape): (r: Option<nat>)
    ensures r.Some? ==> r.value < |tracked| && tracked[r.value].shape == s
    ensures r.Some? ==> forall j :: 0 <= j < r.value ==> tracked[j].shape != s
    ensures r.None? <==> forall j :: 0 <= j < |tracked| ==> tracked[j].shape != s
  {
    if tracked == [] then None
    else if tracked[0].shape == s then Some(0)
    else
      match FirstIndex(tracked[1..], s)
      case None => None
      case Some(k) => Some(k + 1)
  }

  /** No two tracked inputs are equal nodes. */
  predicate NoTwins(tracked: seq<InputElement>) {
    forall i, j :: 0 <= i < j < |tracked| ==> tracked[i].shape != tracked[j].shape
  }

  /** One added input: appended unless an equal node is already tracked. */
  function AddOne(tracked: seq<InputElement>, el: InputElement): (r: seq<InputElement>)
    ensures FirstIndex(tracked, el.shape).Some? ==> r == tracked
    ensures FirstIndex(tracked, el.shape).None? ==> r == tracked + [el]
    ensures NoTwins(tracked) ==> NoTwins(r)
  {
    if FirstIndex(tracked, el.shape).Some? then tracked else tracked + [el]
  }

  /** The added inputs in the order the callback visits them. */
  function AddAll(tracked: seq<InputElement>, els: seq<InputElement>): (r: seq<InputElement>)
    ensures NoTwins(tracked) ==> NoTwins(r)
    ensures tracked <= r
    ensures forall e :: e in els ==> FirstIndex(r, e.shape).Some?
  {
    if els == [] then tracked
    else
      var before := AddAll(tracked, els[..|els| - 1]);
      var r := AddOne(before, els[|els| - 1]);
      assert before <= r;
      forall e | e in els
        ensures FirstIndex(r, e.shape).Some?
      {
        if e != els[|els| - 1] {
          assert e in els[..|els| - 1];
          var k := FirstIndex(before, e.shape).value;
          assert r[k] == before[k] && r[k].shape == e.shape;
        } else if FirstIndex(before, e.shape).None? {
          assert r[|before|] == e;
        }
      }
      r
  }

  /** One removed input: the first equal tracked node spliced out, the others kept in order. */
  function RemoveOne(tracked: seq<InputElement>, el: InputElement): (r: seq<InputElement>)
    ensures FirstIndex(tracked, el.shape).None? ==> r == tracked
    ensures FirstIndex(tracked, el.shape).Some? ==>
      var k := FirstIndex(tracked, el.shape).value;
      |r| == |tracked| - 1 && r == tracked[..k] + tracked[k + 1..]
  {
    match FirstIndex(tracked, el.shape)
    case None => tracked
    case Some(k) => tracked[..k] + tracked[k + 1..]
  }

  /** Without twins, removing a node leaves no equal node tracked. */
  lemma RemoveOneGone(tracked: seq<InputElement>, el: InputElement)
    requires NoTwins(tracked)
    ensures FirstIndex(RemoveOne(tracked, el), el.shape).None?
    ensures NoTwins(RemoveOne(tracked, el))
  {
    var r := RemoveOne(tracked, el);
    if FirstIndex(tracked, el.shape).Some? {
      var k := FirstIndex(tracked, el.shape).value;
      forall j | 0 <= j < |r|
        ensures r[j].shape != el.shape
      {
        if j >= k {
          assert r[j] == tracked[j + 1];
        }
      }
      forall i, j | 0 <= i < j < |r|
        ensures r[i].shape != r[j].shape
      {
        var i' := if i < k then i else i + 1;
        var j' := if j < k then j else j + 1;
        assert r[i] == tracked[i'] && r[j] == tracked[j'];
      }
    }
  }

  /** Removing a node that was just added, and was not tracked before, gives the list back. */
  lemma RemoveAfterAdd(tracked: seq<InputElement>, el: InputElement)
    requires FirstIndex(tracked, el.shape).None?
    ensures RemoveOne(AddOne(tracked, el), el) == tracked
  {
    var added := tracked + [el];
    assert FirstIndex(added, el.shape) == Some(|tracked|) by {
      assert added[|tracked|] == el;
      assert forall j :: 0 <= j < |tracked| ==> added[j] == tracked[j];
    }
    assert added[..|tracked|] == tracked;
  }

  function RemoveAll(tracked: seq<InputElement>, els: seq<InputElement>): seq<InputElement> {
    if els == [] then tracked
    else RemoveOne(RemoveAll(tracked, els[..|els| - 1]), els[|els| - 1])
  }

  /** The inputs under a mutation's added nodes and under its removed nodes. */
  datatype Mutation = Mutation(added: seq<InputElement>, removed: seq<InputElement>)

  /** The mutation callback: each mutation's additions, then its removals. */
  function Mutated(tracked: seq<InputElement>, ms: seq<Mutation>): seq<InputElement> {
    if ms == [] then tracked
    else
      var m := ms[|ms| - 1];
      RemoveAll(AddAll(Mutated(tracked, ms[..|ms| - 1]), m.added), m.removed)
  }

  /** The message data of `GenerateResponse` and `ReservationResponse`. */
  datatype ResponseData = ResponseData(email: Option<string>, error: Option<string>, elementId: string)

  datatype Message =
    | Autofill(text: string)
    | GenerateResponse(data: ResponseData)
    | ReservationResponse(data: ResponseData)
    | ActiveInputElementWrite(text: string, copyToClipboard: bool)
    | OtherMessage

  /**
   * The script's state: the tracked inputs. Button support is never made
   * (both branches of `makeAutofillableInputElement` leave it undefined),
   * so a tracked entry is its input alone.
   */
  class Page {
    var tracked: seq<InputElement>

    /** The inputs matching the e-mail query when the script starts. */
    constructor(initial: seq<InputElement>)
      ensures tracked == initial
    {
      tracked := initial;
    }

    method AddInputs(els: seq<InputElement>)
      modifies this
      ensures tracked == AddAll(old(tracked), els)
    {
      var i := 0;
      while i < |els|
        invariant 0 <= i <= |els|
        invariant tracked == AddAll(old(tracked), els[..i])
      {
        assert els[..i + 1][..i] == els[..i];
        var el := els[i];
        if FirstIndex(tracked, el.shape).None? {
          tracked := tracked + [el];
        }
        i := i + 1;
      }
      assert els[..|els|] == els;
    }

    method RemoveInputs(els: seq<InputElement>)
      modifies this
      ensures tracked == RemoveAll(old(tracked), els)
    {
      var i := 0;
      while i < |els|
        invariant 0 <= i <= |els|
        invariant tracked == RemoveAll(old(tracked), els[..i])
      {
        assert els[..i + 1][..i] == els[..i];
        var found := FirstIndex(tracked, els[i].shape);
        if found.Some? {
          tracked := tracked[..found.value] + tracked[found.value + 1..];
        }
        i := i + 1;
      }
      assert els[..|els|] == els;
    }

    /** `mutationCallback(mutations)`. */
    method OnMutations(ms: seq<Mutation>)
      modifies this
      ensures tracked == Mutated(old(tracked), ms)
    {
      var i := 0;
      while i < |ms|
        invariant 0 <= i <= |ms|
        invariant tracked == Mutated(old(tracked), ms[..i])
      {
        assert ms[..i + 1][..i] == ms[..i];
        AddInputs(ms[i].added);
        RemoveInputs(ms[i].removed);
        i := i + 1;
      }
      assert ms[..|ms|] == ms;
    }

    /** `Autofill`: the text written into every tracked input; nothing else changes. */
    method Fill(text: string)
      modifies tracked
      ensures forall i :: 0 <= i < |tracked| ==> tracked[i].value == text
    {
      var i := 0;
      while i < |tracked|
        invariant 0 <= i <= |tracked|
        invariant forall j :: 0 <= j < i ==> tracked[j].value == text
      {
        tracked[i].value := text;
        i := i + 1;
      }
    }

    /**
     * `GenerateResponse`, with `element` the button the element id names
     * (`None` when there is none): an error disables it with the error as
     * its text; otherwise an address enables it; otherwise nothing happens.
     */
    method OnGenerateResponse(data: ResponseData, element: Option<Button>)
      modifies if element.Some? then {element.value} else {}
      ensures element.Some? && Truthy(data.error) ==>
        element.value.disabled && element.value.innerHtml == data.error.value
      ensures element.Some? && !Truthy(data.error) && Truthy(data.email) ==>
        !element.value.disabled && element.value.innerHtml == ""
      ensures element.Some? && !Truthy(data.error) && !Truthy(data.email) ==>
        element.value.disabled == old(element.value.disabled) && element.value.innerHtml == old(element.value.innerHtml)
        && element.value.classes == old(element.value.classes)
    {
      if element.None? {
        return;
      }
      if Truthy(data.error) {
        DisableButton(element.value, "cursor-not-allowed", data.error);
        return;
      }
      if !Truthy(data.email) {
        return;
      }
      EnableButton(element.value, "cursor-pointer");
    }

    /**
     * `ReservationResponse`: an error disables the button; an address would
     * be written into the input whose button has the element's id, but no
     * tracked input has a button, so no input is ever written.
     */
    method OnReservationResponse(data: ResponseData, element: Option<Button>)
      modifies if element.Some? then {element.value} else {}
      ensures element.Some? && Truthy(data.error) ==>
        element.value.disabled && element.value.innerHtml == data.error.value
      ensures element.Some? && !Truthy(data.error) ==>
        element.value.disabled == old(element.value.disabled) && element.value.innerHtml == old(element.value.innerHtml)
        && element.value.classes == old(element.value.classes)
    {
      if element.None? {
        return;
      }
      if Truthy(data.error) {
        DisableButton(element.value, "cursor-not-allowed", data.error);
        return;
      }
    }

    /**
     * `ActiveInputElementWrite`, with `active` the focused element when it is
     * an `<input>`: the text written into it, and handed to the clipboard
     * only when asked for.
     */
    method OnActiveInputElementWrite(text: string, copyToClipboard: bool, active: Option<InputElement>)
        returns (clipboard: Option<string>)
      modifies if active.Some? then {active.value} else {}
      ensures active.Some? ==> active.value.value == text
      ensures clipboard.Some? <==> active.Some? && copyToClipboard
      ensures clipboard.Some? ==> clipboard.value == text
    {
      clipboard := None;
      if active.None? {
        return;
      }
      active.value.value := text;
      if copyToClipboard {
        clipboard := Some(text);
      }
    }

    /**
     * The `onMessage` listener: each message type to its handler, any other
     * ignored. Only `Autofill` and `ActiveInputElementWrite` touch inputs, and
     * only the two responses touch the button.
     */
    method OnMessage(m: Message, element: Option<Button>, active: Option<InputElement>)
        returns (clipboard: Option<string>)
      modifies tracked
      modifies if element.Some? then {element.value} else {}
      modifies if active.Some? then {active.value} else {}
      ensures m.Autofill? ==> forall i :: 0 <= i < |tracked| ==> tracked[i].value == m.text
      ensures m.GenerateResponse? && element.Some? && Truthy(m.data.error) ==>
        element.value.disabled && element.value.innerHtml == m.data.error.value
      ensures m.GenerateResponse? && element.Some? && !Truthy(m.data.error) && Truthy(m.data.email) ==>
        !element.value.disabled && element.value.innerHtml == ""
      ensures m.GenerateResponse? && element.Some? && !Truthy(m.data.error) && !Truthy(m.data.email) ==>
        element.value.disabled == old(element.value.disabled) && element.value.innerHtml == old(element.value.innerHtml)
        && element.value.classes == old(element.value.classes)
      ensures m.ReservationResponse? && element.Some? && Truthy(m.data.error) ==>
        element.value.disabled && element.value.innerHtml == m.data.error.value
      ensures m.ReservationResponse? && element.Some? && !Truthy(m.data.error) ==>
        element.value.disabled == old(element.value.disabled) && element.value.innerHtml == old(element.value.innerHtml)
        && element.value.classes == old(element.value.classes)
      ensures m.ActiveInputElementWrite? && active.Some? ==> active.value.value == m.text
      ensures clipboard.Some? <==> m.ActiveInputElementWrite? && active.Some? && m.copyToClipboard
      ensures clipboard.Some? ==> clipboard.value == m.text
      ensures !m.GenerateResponse? && !m.ReservationResponse? && element.Some? ==> unchanged(element.value)
      ensures !m.Autofill? && !m.ActiveInputElementWrite? ==>
        (active.Some? ==> unchanged(active.value)) && forall i :: 0 <= i < |tracked| ==> unchanged(tracked[i])
      ensures tracked == old(tracked)
    {
      clipboard := None;
      match m {
        case Autofill(text) => Fill(text);
        case GenerateResponse(data) => OnGenerateResponse(data, element);
        case ReservationResponse(data) => OnReservationResponse(data, element);
        case ActiveInputElementWrite(text, copy) => clipboard := OnActiveInputElementWrite(text, copy, active);
        case OtherMessage =>
      }
    }
  }
}
