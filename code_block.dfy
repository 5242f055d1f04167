/** The CodeBlock component: a code snippet with a language label, a copy
    button and, for HTML, a run button. The clipboard, the new window and the
    timers are outside the model; their effects on the two flags are kept. */
module CodeBlock {

  /** JavaScript's `toLowerCase` on one character, for the ASCII letters. */
  function LowerChar(c: char): char
  {
    if 'A' <= c <= 'Z' then (c as int + 32) as char else c
  }

  /** `s` with every ASCII upper-case letter replaced by its lower-case form. */
  function ToLower(s: string): (r: string)
    ensures |r| == |s|
    ensures forall i :: 0 <= i < |s| ==> r[i] == LowerChar(s[i])
  {
    if s == [] then [] else [LowerChar(s[0])] + ToLower(s[1..])
  }

  /** `pat` occurs in `s` at position `i`. */
  predicate OccursAt(s: string, pat: string, i: nat)
  {
    i + |pat| <= |s| && s[i..i + |pat|] == pat
  }

  /** JavaScript's `includes`: whether `pat` occurs somewhere in `s`. The empty
      pattern occurs in every string. */
  function Includes(s: string, pat: string): (b: bool)
    ensures b <==> exists i: nat :: OccursAt(s, pat, i)
    decreases |s|
  {
    if pat <= s then
      assert OccursAt(s, pat, 0);
      true
    else if s == [] then
      false
    else
      var b := Includes(s[1..], pat);
      assert forall i: nat :: OccursAt(s[1..], pat, i) ==> OccursAt(s, pat, i + 1) by {
        forall i: nat | OccursAt(s[1..], pat, i) ensures OccursAt(s, pat, i + 1) {
          assert s[1..][i..i + |pat|] == s[i + 1..i + 1 + |pat|];
        }
      }
      assert forall i: nat :: OccursAt(s, pat, i) ==> i > 0 && OccursAt(s[1..], pat, i - 1) by {
        forall i: nat | OccursAt(s, pat, i) ensures i > 0 && OccursAt(s[1..], pat, i - 1) {
          assert s[1..][i - 1..i - 1 + |pat|] == s[i..i + |pat|];
        }
      }
      b
  }

  /** The four-letter spellings of "html" with each letter in either case. */
  predicate HtmlInAnyCase(language: string)
  {
    |language| == 4 &&
    (language[0] == 'h' || language[0] == 'H') && (language[1] == 't' || language[1] == 'T') &&
    (language[2] == 'm' || language[2] == 'M') && (language[3] == 'l' || language[3] == 'L')
  }

  /** Whether the snippet can be run in a new window: its language is "html" in
      any letter case, or its code contains "<html" or "<!DOCTYPE" exactly as
      written. The run button is rendered, and `runCode` acts, exactly when
      this holds. */
  function CanRun(language: string, code: string): (b: bool)
    ensures b <==>
      HtmlInAnyCase(language) ||
      (exists i: nat :: OccursAt(code, "<html", i)) ||
      (exists i: nat :: OccursAt(code, "<!DOCTYPE", i))
  {
    HtmlLanguageAnyCase(language);
    ToLower(language) == "html" || Includes(code, "<html") || Includes(code, "<!DOCTYPE")
  }

  /** The language test ignores letter case: it accepts exactly the four-letter
      spellings of "html" with each letter in either case. */
  lemma HtmlLanguageAnyCase(language: string)
    ensures ToLower(language) == "html" <==> HtmlInAnyCase(language)
  {
    if |language| == 4 {
      var r := ToLower(language);
      SpellsHtml(r);
      assert r[0] == 'h' <==> language[0] == 'h' || language[0] == 'H' by {
        LowerCharIs(language[0], 'h');
      }
      assert r[1] == 't' <==> language[1] == 't' || language[1] == 'T' by {
        LowerCharIs(language[1], 't');
      }
      assert r[2] == 'm' <==> language[2] == 'm' || language[2] == 'M' by {
        LowerCharIs(language[2], 'm');
      }
      assert r[3] == 'l' <==> language[3] == 'l' || language[3] == 'L' by {
        LowerCharIs(language[3], 'l');
      }
    }
  }

  /** Lower-casing twice is lower-casing once. */
  lemma ToLowerIdempotent(s: string)
    ensures ToLower(ToLower(s)) == ToLower(s)
  {
    var r := ToLower(s);
    assert forall i :: 0 <= i < |r| ==> ToLower(r)[i] == r[i];
  }

  /** Only the code test is case-sensitive: the letter case of the language
      never changes whether a snippet can be run. */
  lemma LanguageCaseIrrelevant(language: string, code: string)
    ensures CanRun(ToLower(language), code) == CanRun(language, code)
  {
    ToLowerIdempotent(language);
  }

  /** A four-character string is "html" exactly when its characters are. */
  lemma SpellsHtml(r: string)
    requires |r| == 4
    ensures r == "html" <==> r[0] == 'h' && r[1] == 't' && r[2] == 'm' && r[3] == 'l'
  {
  }

  /** The characters that fold to a lower-case ASCII letter are that letter
      and its upper-case form. */
  lemma LowerCharIs(c: char, l: char)
    requires 'a' <= l <= 'z'
    ensures LowerChar(c) == l <==> c == l || c as int == l as int - 32
  {
  }

  /** The code tests do not ignore letter case: an upper-case "<HTML>" page
      with no language is not runnable, the lower-case one is. */
  lemma CodeMatchIsCaseSensitive()
    ensures !CanRun("", "<HTML>")
    ensures CanRun("", "<html>")
    ensures CanRun("HTML", "")
  {
    assert ToLower("") == "";
    assert OccursAt("<html>", "<html", 0);
    var h := ToLower("HTML");
    assert h[0] == 'h' && h[1] == 't' && h[2] == 'm' && h[3] == 'l';
    assert h == "html";
    forall i: nat ensures !OccursAt("<HTML>", "<html", i) {
      if i + 5 <= 6 {
        assert "<HTML>"[i..i + 5][1] != "<html"[1];
      }
    }
    assert !OccursAt("<HTML>", "<!DOCTYPE", 0);
  }

  /** With the default, empty language, runnability depends on the code alone. */
  lemma DefaultLanguageUsesCodeOnly(code: string)
    ensures CanRun("", code) <==> Includes(code, "<html") || Includes(code, "<!DOCTYPE")
  {
    assert ToLower("") == "";
  }

  /** The header label: the language, or "code" when there is none. It is
      never empty. */
  function HeaderLabel(language: string): (r: string)
    ensures r != ""
    ensures language != "" ==> r == language
    ensures language == "" ==> r == "code"
  {
    if language != "" then language else "code"
  }

  /** The component's state. `pendingRunResets` and `pendingCopyResets` count
      the timers that will clear `isRunning` and `copied`; none is ever
      cancelled. */
  class CodeBlockView {
    const code: string
    const language: string
    var copied: bool
    var isRunning: bool
    var pendingCopyResets: nat
    var pendingRunResets: nat

    /** Each raised flag has a timer pending that will lower it. */
    ghost predicate Valid()
      reads this
    {
      (isRunning ==> pendingRunResets > 0) && (copied ==> pendingCopyResets > 0)
    }

    constructor (code: string, language: string)
      ensures Valid()
      ensures this.code == code && this.language == language
      ensures !copied && !isRunning && pendingCopyResets == 0 && pendingRunResets == 0
    {
      this.code := code;
      this.language := language;
      copied := false;
      isRunning := false;
      pendingCopyResets := 0;
      pendingRunResets := 0;
    }

    /** `runCode`: under the same condition as the run button, raise
        `isRunning` and schedule the timer that lowers it; otherwise nothing
        changes. */
    method RunCode()
      requires Valid()
      modifies this
      ensures Valid()
      ensures CanRun(language, code) ==>
        isRunning && pendingRunResets == old(pendingRunResets) + 1 &&
        copied == old(copied) && pendingCopyResets == old(pendingCopyResets)
      ensures !CanRun(language, code) ==> unchanged(this)
    {
      if CanRun(language, code) {
        isRunning := true;
        pendingRunResets := pendingRunResets + 1;
      }
    }

    /** The run timer fires and lowers `isRunning`; with no timer pending
        nothing happens. */
    method RunTimerFires()
      requires Valid()
      modifies this
      ensures Valid()
      ensures old(pendingRunResets) > 0 ==>
        !isRunning && pendingRunResets == old(pendingRunResets) - 1 &&
        copied == old(copied) && pendingCopyResets == old(pendingCopyResets)
      ensures old(pendingRunResets) == 0 ==> unchanged(this)
    {
      if pendingRunResets > 0 {
        pendingRunResets := pendingRunResets - 1;
        isRunning := false;
      }
    }

    /** `copyToClipboard`, given whether the clipboard write succeeded: on
        success raise `copied` and schedule the timer that lowers it; on
        failure nothing changes. */
    method CopyToClipboard(writeSucceeded: bool)
      requires Valid()
      modifies this
      ensures Valid()
      ensures writeSucceeded ==>
        copied && pendingCopyResets == old(pendingCopyResets) + 1 &&
        isRunning == old(isRunning) && pendingRunResets == old(pendingRunResets)
      ensures !writeSucceeded ==> unchanged(this)
    {
      if writeSucceeded {
        copied := true;
        pendingCopyResets := pendingCopyResets + 1;
      }
    }

    /** The copy timer fires and lowers `copied`; with no timer pending nothing
        happens. */
    method CopyTimerFires()
      requires Valid()
      modifies this
      ensures Valid()
      ensures old(pendingCopyResets) > 0 ==>
        !copied && pendingCopyResets == old(pendingCopyResets) - 1 &&
        isRunning == old(isRunning) && pendingRunResets == old(pendingRunResets)
      ensures old(pendingCopyResets) == 0 ==> unchanged(this)
    {
      if pendingCopyResets > 0 {
        pendingCopyResets := pendingCopyResets - 1;
        copied := false;
      }
    }
  }
}
