/** The toolbar's textarea helpers (src/utils/textEditor.ts): `insertText`
    wraps the selection in two strings and collapses the caret, and
    `insertHtmlList` replaces the selection with a one-item HTML list and
    selects the item's text. Both do nothing when the ref holds no element. */
module TextEditor {

  /** The part of an HTML textarea the helpers read and write. Lengths and
      offsets count characters. */
  class Textarea {
    var value: string
    var selectionStart: nat
    var selectionEnd: nat
    var focused: bool
    var inputEvents: nat

    /** The browser keeps the selection inside the value, start before end. */
    ghost predicate Valid()
      reads this
    {
      selectionStart <= selectionEnd <= |value|
    }

    constructor (v: string)
      ensures Valid() && value == v && selectionStart == selectionEnd == |v|
      ensures !focused && inputEvents == 0
    {
      value := v;
      selectionStart, selectionEnd := |v|, |v|;
      focused := false;
      inputEvents := 0;
    }

    /** Assigning `value` from script: the caret moves to the end of the new value. */
    method SetValue(v: string)
      modifies this
      ensures Valid() && value == v && selectionStart == selectionEnd == |v|
      ensures focused == old(focused) && inputEvents == old(inputEvents)
    {
      value := v;
      selectionStart, selectionEnd := |v|, |v|;
    }

    /** `setSelectionRange(a, b)`: offsets past the end point at the end, and
        when the end does not lie after the start both collapse onto the end. */
    method SetSelectionRange(a: nat, b: nat)
      modifies this
      ensures Valid() && value == old(value)
      ensures selectionEnd == Clamp(b, |value|)
      ensures selectionStart == if Clamp(b, |value|) <= Clamp(a, |value|) then selectionEnd else Clamp(a, |value|)
      ensures focused == old(focused) && inputEvents == old(inputEvents)
    {
      var s := Clamp(a, |value|);
      var e := Clamp(b, |value|);
      if e <= s {
        s := e;
      }
      selectionStart, selectionEnd := s, e;
    }

    method Focus()
      modifies this
      ensures focused
      ensures value == old(value) && selectionStart == old(selectionStart) && selectionEnd == old(selectionEnd)
      ensures inputEvents == old(inputEvents)
    {
      focused := true;
    }

    /** Dispatches a bubbling `input` event, so that React sees the new value. */
    method DispatchInput()
      modifies this
      ensures inputEvents == old(inputEvents) + 1
      ensures value == old(value) && selectionStart == old(selectionStart) && selectionEnd == old(selectionEnd)
      ensures focused == old(focused)
    {
      inputEvents := inputEvents + 1;
    }
  }

  /** A React ref to a textarea; `current` is null until the element mounts. */
  class TextareaRef {
    var current: Textarea?

    constructor (t: Textarea?)
      ensures current == t
    {
      current := t;
    }
  }

  function Clamp(n: nat, len: nat): (r: nat)
    ensures r <= len && (n <= len ==> r == n)
  {
    if n <= len then n else len
  }

  /** The value `insertText` produces: the selection `[a, b)` of `v` wrapped in `before` and `after`. */
  function Wrapped(v: string, a: nat, b: nat, before: string, after: string): string
    requires a <= b <= |v|
  {
    v[..a] + before + v[a..b] + after + v[b..]
  }

  /** Where `insertText` leaves the caret. */
  function TextCaret(a: nat, b: nat, before: string, after: string): nat {
    if a < b then a + |before| + (b - a) + |after| else a + |before|
  }

  /** The new value is the old one grown by the two inserted strings, with the
      text before and after the selection unchanged at the two ends. */
  lemma WrappedLayout(v: string, a: nat, b: nat, before: string, after: string)
    requires a <= b <= |v|
    ensures var w := Wrapped(v, a, b, before, after);
      && |w| == |v| + |before| + |after|
      && w[..a] == v[..a]
      && w[a..a + |before| + (b - a) + |after|] == before + v[a..b] + after
      && w[|w| - (|v| - b)..] == v[b..]
  {
    var w := Wrapped(v, a, b, before, after);
    assert w == v[..a] + (before + v[a..b] + after) + v[b..];
  }

  /** With a selection, the caret lands right after `after`; with none, it
      lands between `before` and `after`, ready for typing inside the tags. */
  lemma TextCaretPlacement(v: string, a: nat, b: nat, before: string, after: string)
    requires a <= b <= |v|
    ensures var w := Wrapped(v, a, b, before, after);
      var p := TextCaret(a, b, before, after);
      && p <= |w|
      && (a < b ==> w[..p] == v[..a] + before + v[a..b] + after && w[p..] == v[b..])
      && (a == b ==> w[..p] == v[..a] + before && w[p..] == after + v[b..])
  {
    var w := Wrapped(v, a, b, before, after);
    if a < b {
      assert w == (v[..a] + before + v[a..b] + after) + v[b..];
    } else {
      assert v[a..b] == [];
      assert w == (v[..a] + before) + (after + v[b..]);
    }
  }

  /** `insertText(ref, before, after)` (textEditor.ts:26-49). */
  method InsertText(ref: TextareaRef, before: string, after: string)
    requires ref.current != null ==> ref.current.Valid()
    modifies ref.current
    ensures ref.current != null ==>
      && ref.current.Valid()
      && ref.current.value == Wrapped(old(ref.current.value), old(ref.current.selectionStart),
                                      old(ref.current.selectionEnd), before, after)
      && ref.current.selectionStart == ref.current.selectionEnd
      && ref.current.selectionEnd == TextCaret(old(ref.current.selectionStart), old(ref.current.selectionEnd), before, after)
      && ref.current.focused
      && ref.current.inputEvents == old(ref.current.inputEvents) + 1
  {
    var textarea := ref.current;
    if textarea == null {
      return;
    }
    var start := textarea.selectionStart;
    var end := textarea.selectionEnd;
    var selectedText := textarea.value[start..end];
    var beforeText := textarea.value[..start];
    var afterText := textarea.value[end..];
    var newText := beforeText + before + selectedText + after + afterText;
    ghost var w := Wrapped(textarea.value, start, end, before, after);
    assert newText == w;
    WrappedLayout(textarea.value, start, end, before, after);
    textarea.SetValue(newText);
    var newCursorPos := if selectedText != "" then start + |before| + |selectedText| + |after| else start + |before|;
    textarea.SetSelectionRange(newCursorPos, newCursorPos);
    textarea.Focus();
    textarea.DispatchInput();
  }

  datatype ListType = Ul | Ol

  function TagName(t: ListType): string {
    match t
    case Ul => "ul"
    case Ol => "ol"
  }

  /** The markup before the item's text. */
  function ListOpen(t: ListType): string {
    "<" + TagName(t) + ">\n  <li>"
  }

  /** The markup after the item's text. */
  function ListClose(t: ListType): string {
    "</li>\n</" + TagName(t) + ">"
  }

  /** The item's text: the selection, or a placeholder when nothing is selected. */
  function ListContent(selected: string): (c: string)
    ensures c != ""
    ensures selected != "" ==> c == selected
  {
    if selected != "" then selected else "List item"
  }

  /** The value `insertHtmlList` produces. */
  function WithList(v: string, a: nat, b: nat, t: ListType): string
    requires a <= b <= |v|
  {
    v[..a] + ListOpen(t) + ListContent(v[a..b]) + ListClose(t) + v[b..]
  }

  /** The selection is replaced by `<T>\n  <li>C</li>\n</T>` with the rest of
      the value untouched, and the new selection, which starts after the
      eleven characters of opening markup, covers exactly C. */
  lemma WithListLayout(v: string, a: nat, b: nat, t: ListType)
    requires a <= b <= |v|
    ensures var w := WithList(v, a, b, t);
      var c := ListContent(v[a..b]);
      && |ListOpen(t)| == 11
      && a + |ListOpen(t)| + |c| <= |w|
      && w[..a] == v[..a]
      && w[a..a + |ListOpen(t)|] == ListOpen(t)
      && w[a + |ListOpen(t)|..a + |ListOpen(t)| + |c|] == c
      && w[a + |ListOpen(t)| + |c|..] == ListClose(t) + v[b..]
  {
    var c := ListContent(v[a..b]);
    var o := ListOpen(t);
    assert WithList(v, a, b, t) == v[..a] + o + c + (ListClose(t) + v[b..]);
    Quarters(v[..a], o, c, ListClose(t) + v[b..]);
  }

  /** The list markup spliced in as one piece gives the same value. */
  lemma WithListText(v: string, a: nat, b: nat, t: ListType)
    requires a <= b <= |v|
    ensures v[..a] + (ListOpen(t) + ListContent(v[a..b]) + ListClose(t)) + v[b..] == WithList(v, a, b, t)
  {
  }

  /** Where the four parts of a concatenation sit in it. */
  lemma Quarters(p: string, o: string, c: string, q: string)
    ensures var w := p + o + c + q;
      && w[..|p|] == p && w[|p|..|p| + |o|] == o
      && w[|p| + |o|..|p| + |o| + |c|] == c && w[|p| + |o| + |c|..] == q
  {
  }

  /** `insertHtmlList(ref, listType)` (textEditor.ts:1-24). */
  method InsertHtmlList(ref: TextareaRef, listType: ListType)
    requires ref.current != null ==> ref.current.Valid()
    modifies ref.current
    ensures ref.current != null ==>
      var a := old(ref.current.selectionStart);
      var b := old(ref.current.selectionEnd);
      && ref.current.Valid()
      && a <= b <= |old(ref.current.value)|
      && ref.current.value == WithList(old(ref.current.value), a, b, listType)
      && ref.current.selectionStart == a + |ListOpen(listType)|
      && ref.current.selectionEnd == a + |ListOpen(listType)| + |ListContent(old(ref.current.value)[a..b])|
      && ref.current.focused
      && ref.current.inputEvents == old(ref.current.inputEvents) + 1
  {
    var textarea := ref.current;
    if textarea == null {
      return;
    }
    var start := textarea.selectionStart;
    var end := textarea.selectionEnd;
    var selectedText := textarea.value[start..end];
    var beforeText := textarea.value[..start];
    var afterText := textarea.value[end..];
    var listContent := ListContent(selectedText);
    var name := TagName(listType);
    var opening := "<" + name + ">\n  <li>";
    var closing := "</li>\n</" + name + ">";
    assert opening == ListOpen(listType) && closing == ListClose(listType);
    var htmlList := opening + listContent + closing;
    var newText := beforeText + htmlList + afterText;
    WithListText(textarea.value, start, end, listType);
    WithListLayout(textarea.value, start, end, listType);
    textarea.SetValue(newText);
    var newCursorPos := start + |opening|;
    textarea.SetSelectionRange(newCursorPos, newCursorPos + |listContent|);
    textarea.Focus();
    textarea.DispatchInput();
  }
}
