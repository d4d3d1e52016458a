/** The add-task form: title trimming and validation, and its open/closed state. */
module AddTaskForm {
  import opened Wrappers
  import opened Types

  /** The characters `String.prototype.trim` strips: the ECMAScript WhiteSpace and LineTerminator characters. */
  predicate IsWhitespace(c: char)
    ensures c == ' ' || c == '\t' || c == '\n' || c == '\r' ==> IsWhitespace(c)
    ensures IsWhitespace(c) ==> !('!' <= c <= '~')
  {
    c == '\t' || c == '\n' || c == '\U{000B}' || c == '\U{000C}' || c == '\r' || c == ' ' ||
    c == '\U{00A0}' || c == '\U{1680}' || ('\U{2000}' <= c <= '\U{200A}') ||
    c == '\U{2028}' || c == '\U{2029}' || c == '\U{202F}' || c == '\U{205F}' ||
    c == '\U{3000}' || c == '\U{FEFF}'
  }

  predicate AllWhitespace(s: string)
  {
    forall k :: 0 <= k < |s| ==> IsWhitespace(s[k])
  }

  /** `r` occurs in `s` at index `i`, with nothing but whitespace before and after it. */
  ghost predicate SlicePaddedByWhitespace(s: string, r: string, i: int)
  {
    0 <= i <= |s| - |r| && r == s[i..i + |r|] &&
    (forall k :: 0 <= k < i ==> IsWhitespace(s[k])) &&
    (forall k :: i + |r| <= k < |s| ==> IsWhitespace(s[k]))
  }

  /** The index of the first non-whitespace character at or after `i` (or `|s|`). */
  function SkipLeading(s: string, i: nat): (j: nat)
    requires i <= |s|
    ensures i <= j <= |s|
    ensures forall k :: i <= k < j ==> IsWhitespace(s[k])
    ensures j == |s| || !IsWhitespace(s[j])
    decreases |s| - i
  {
    if i < |s| && IsWhitespace(s[i]) then SkipLeading(s, i + 1) else i
  }

  /** The end of `s[lo..j]` once its trailing whitespace is dropped. */
  function SkipTrailing(s: string, lo: nat, j: nat): (m: nat)
    requires lo <= j <= |s|
    ensures lo <= m <= j
    ensures forall k :: m <= k < j ==> IsWhitespace(s[k])
    ensures m == lo || !IsWhitespace(s[m - 1])
    decreases j
  {
    if j > lo && IsWhitespace(s[j - 1]) then SkipTrailing(s, lo, j - 1) else j
  }

  /** `s.trim()`: a slice of `s` with only whitespace around it, itself not starting or ending with whitespace;
      it is empty exactly when `s` is all whitespace. */
  function Trim(s: string): (r: string)
    ensures exists i :: SlicePaddedByWhitespace(s, r, i)
    ensures r != [] ==> !IsWhitespace(r[0]) && !IsWhitespace(r[|r| - 1])
    ensures r == [] <==> AllWhitespace(s)
  {
    var i := SkipLeading(s, 0);
    var j := SkipTrailing(s, i, |s|);
    assert SlicePaddedByWhitespace(s, s[i..j], i);
    s[i..j]
  }

  /** Trimming twice is trimming once. */
  lemma TrimIdempotent(s: string)
    ensures Trim(Trim(s)) == Trim(s)
  {
    var r := Trim(s);
    if r != [] {
      assert SkipLeading(r, 0) == 0;
      assert SkipTrailing(r, 0, |r|) == |r|;
      assert r[0..|r|] == r;
    }
  }

  /** What a successful submit hands to the page's `onAddTask`. */
  datatype AddRequest = AddRequest(title: string, dimension: Dimension)

  /** The form's own state: whether it is shown, and the text typed into it. */
  class Form {
    var isOpen: bool
    var title: string

    constructor ()
      ensures !isOpen && title == ""
    {
      isOpen := false;
      title := "";
    }

    /** The floating button opens a closed form and closes an open one, keeping what was typed. */
    method ToggleOpen()
      modifies this
      ensures isOpen == !old(isOpen) && title == old(title)
    {
      isOpen := !isOpen;
    }

    /** The close button hides the form; what was typed is kept. */
    method Close()
      modifies this
      ensures !isOpen && title == old(title)
    {
      isOpen := false;
    }

    /** Typing into the input replaces the title. */
    method Edit(value: string)
      modifies this
      ensures title == value && isOpen == old(isOpen)
    {
      title := value;
    }

    /** The submit button is disabled exactly when the title is all whitespace. */
    function SubmitDisabled(): (disabled: bool)
      reads this
      ensures disabled <==> AllWhitespace(title)
    {
      Trim(title) == []
    }

    /** Submitting: a blank title changes nothing and adds nothing; otherwise one request carries the trimmed
        title and the current dimension, and the form is cleared and closed. */
    method Submit(currentDimension: Dimension) returns (request: Option<AddRequest>)
      modifies this
      ensures request.None? <==> AllWhitespace(old(title))
      ensures request.None? ==> title == old(title) && isOpen == old(isOpen)
      ensures request.Some? ==> request.value == AddRequest(Trim(old(title)), currentDimension)
      ensures request.Some? ==>
        var t := request.value.title; t != [] && !IsWhitespace(t[0]) && !IsWhitespace(t[|t| - 1])
      ensures request.Some? ==> title == "" && !isOpen
    {
      request := None;
      var trimmed := Trim(title);
      if trimmed != [] {
        request := Some(AddRequest(trimmed, currentDimension));
        title := "";
        isOpen := false;
      }
    }
  }
}
