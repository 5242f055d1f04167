/** The ChatInput component: a draft `message` that is forwarded, trimmed, when
    the user submits it, unless it is blank or a reply is still awaited. */
module ChatInput {

  datatype Option<T> = None | Some(value: T)

  /** The characters JavaScript's `String.prototype.trim` removes: the WhiteSpace
      code points (tab, vertical tab, form feed, the byte order mark and the
      space separators of category Zs) and the LineTerminator code points. */
  const WhitespaceChars: seq<char> := [
    '\t', '\U{000B}', '\U{000C}', ' ', '\U{00A0}', '\U{FEFF}', '\U{1680}',
    '\U{2000}', '\U{2001}', '\U{2002}', '\U{2003}', '\U{2004}', '\U{2005}',
    '\U{2006}', '\U{2007}', '\U{2008}', '\U{2009}', '\U{200A}',
    '\U{202F}', '\U{205F}', '\U{3000}',
    '\n', '\r', '\U{2028}', '\U{2029}'
  ]

  /** Membership in the list above, stated with an index so that the
      solver instantiates it only where a position is at hand. */
  predicate IsWhitespace(c: char)
  {
    exists k :: 0 <= k < |WhitespaceChars| && WhitespaceChars[k] == c
  }

  /** Every character of `s` is whitespace (true of the empty string). */
  predicate Blank(s: string)
  {
    forall k :: 0 <= k < |s| ==> IsWhitespace(s[k])
  }

  /** Every character of `s` from position `lo` up to `hi` is whitespace. */
  predicate BlankBetween(s: string, lo: nat, hi: nat)
    requires lo <= hi <= |s|
  {
    forall k :: lo <= k < hi ==> IsWhitespace(s[k])
  }

  /** `r` is the window of `s` starting at `i` with only whitespace before and
      after it. */
  predicate TrimmedAt(s: string, r: string, i: nat)
  {
    i + |r| <= |s| && r == s[i..i + |r|] && BlankBetween(s, 0, i) && BlankBetween(s, i + |r|, |s|)
  }

  /** `s` without its leading whitespace. */
  function TrimStart(s: string): (r: string)
    ensures |r| <= |s| && r == s[|s| - |r|..]
    ensures BlankBetween(s, 0, |s| - |r|)
    ensures r == [] || !IsWhitespace(r[0])
  {
    if s != [] && IsWhitespace(s[0]) then
      var r := TrimStart(s[1..]);
      assert forall k :: 1 <= k < |s| - |r| ==> s[k] == s[1..][k - 1];
      r
    else
      s
  }

  /** `s` without its trailing whitespace. */
  function TrimEnd(s: string): (r: string)
    ensures |r| <= |s| && r == s[..|r|]
    ensures BlankBetween(s, |r|, |s|)
    ensures r == [] || !IsWhitespace(r[|r| - 1])
  {
    if s != [] && IsWhitespace(s[|s| - 1]) then
      var r := TrimEnd(s[..|s| - 1]);
      assert forall k :: |r| <= k < |s| - 1 ==> s[k] == s[..|s| - 1][k];
      r
    else
      s
  }

  /** JavaScript's `trim`: the window of `s` left between its leading and its
      trailing whitespace. It is empty exactly when `s` is blank, and otherwise
      neither begins nor ends with whitespace. */
  function Trim(s: string): (r: string)
    ensures exists i :: TrimmedAt(s, r, i)
    ensures r == [] <==> Blank(s)
    ensures r != [] ==> !IsWhitespace(r[0]) && !IsWhitespace(r[|r| - 1])
  {
    TrimWindow(s);
    TrimEmptyIffBlank(s);
    TrimEdges(s);
    TrimEnd(TrimStart(s))
  }

  /** Trimming keeps a window of `s` with blank margins on both sides. */
  lemma TrimWindow(s: string)
    ensures exists i :: TrimmedAt(s, TrimEnd(TrimStart(s)), i)
  {
    var t := TrimStart(s);
    var r := TrimEnd(t);
    var i := |s| - |t|;
    assert t == s[i..];
    assert r == s[i..][..|r|] == s[i..i + |r|];
    assert BlankBetween(s, i + |r|, |s|) by {
      forall k | i + |r| <= k < |s| ensures IsWhitespace(s[k]) {
        assert s[k] == t[k - i];
      }
    }
    assert TrimmedAt(s, r, i);
  }

  /** Trimming leaves nothing exactly when the string is blank. */
  lemma TrimEmptyIffBlank(s: string)
    ensures TrimEnd(TrimStart(s)) == [] <==> Blank(s)
  {
  }

  /** A trimmed non-empty string neither begins nor ends with whitespace. */
  lemma TrimEdges(s: string)
    ensures var r := TrimEnd(TrimStart(s));
      r != [] ==> !IsWhitespace(r[0]) && !IsWhitespace(r[|r| - 1])
  {
    var t := TrimStart(s);
    var r := TrimEnd(t);
    if r != [] {
      assert r[0] == t[0];
    }
  }

  /** Trimming twice is trimming once. */
  lemma TrimIdempotent(s: string)
    ensures Trim(Trim(s)) == Trim(s)
  {
    var r := Trim(s);
    assert TrimStart(r) == r;
    assert TrimEnd(r) == r;
  }

  /** The guard of `handleSubmit`: the trimmed draft is non-empty and no reply
      is awaited. It fails exactly for a blank draft or while busy. */
  function CanSubmit(draft: string, isLoading: bool): (b: bool)
    ensures b <==> !Blank(draft) && !isLoading
  {
    Trim(draft) != "" && !isLoading
  }

  /** What a submit forwards to `onSendMessage`: nothing for a blank draft or
      while busy, otherwise the draft with its surrounding whitespace removed,
      which is never empty and never begins or ends with whitespace. */
  function Submission(draft: string, isLoading: bool): (r: Option<string>)
    ensures r.Some? <==> !Blank(draft) && !isLoading
    ensures r.Some? ==> r.value != [] && !IsWhitespace(r.value[0]) && !IsWhitespace(r.value[|r.value| - 1])
    ensures r.Some? ==> r.value == Trim(draft)
  {
    var t := Trim(draft);
    if t != [] && !isLoading then Some(t) else None
  }

  /** The send button is disabled exactly when a submit would forward nothing. */
  function SendButtonDisabled(draft: string, isLoading: bool): (b: bool)
    ensures b <==> Submission(draft, isLoading) == None
    ensures b <==> Blank(draft) || isLoading
  {
    Trim(draft) == "" || isLoading
  }

  /** The input's state: the draft being edited. */
  class ChatInputBox {
    var message: string

    constructor ()
      ensures message == ""
    {
      message := "";
    }

    /** The textarea's change handler replaces the draft. */
    method Change(value: string)
      modifies this
      ensures message == value
    {
      message := value;
    }

    /** `handleSubmit`: forward the trimmed draft and clear it when the guard
        holds; otherwise forward nothing and keep the draft. */
    method HandleSubmit(isLoading: bool) returns (sent: Option<string>)
      modifies this
      ensures sent == Submission(old(message), isLoading)
      ensures message == if sent.Some? then "" else old(message)
    {
      if Trim(message) != "" && !isLoading {
        sent := Some(Trim(message));
        message := "";
      } else {
        sent := None;
      }
    }

    /** `handleKeyDown`: Enter without Shift suppresses the newline and submits;
        any other key, or Enter with Shift, neither submits nor is suppressed. */
    method HandleKeyDown(key: string, shiftKey: bool, isLoading: bool) returns (sent: Option<string>, prevented: bool)
      modifies this
      ensures prevented <==> key == "Enter" && !shiftKey
      ensures sent == if prevented then Submission(old(message), isLoading) else None
      ensures message == if sent.Some? then "" else old(message)
    {
      prevented := key == "Enter" && !shiftKey;
      if prevented {
        sent := HandleSubmit(isLoading);
      } else {
        sent := None;
      }
    }
  }
}
