/** The TypeWriter component: reveals `text` one code unit per timer tick.
    Its state is the pair (displayText, currentIndex); a timer callback appends
    the next code unit, a change of `text` resets the pair, and once every
    code unit is shown the optional `onComplete` callback is invoked. A
    JavaScript string is a sequence of UTF-16 code units, and `length`,
    indexing and concatenation count those, so the model's text is too. */
module TypeWriter {

  /** A UTF-16 code unit. */
  newtype CodeUnit = x: int | 0 <= x < 0x1_0000

  /** A JavaScript string: its UTF-16 code units. */
  type Text = seq<CodeUnit>

  /** Code units 0xD800 to 0xDBFF open a surrogate pair; alone they encode
      no character. */
  predicate IsHighSurrogate(u: CodeUnit)
  {
    0xD800 <= u < 0xDC00
  }

  /** The UTF-16 encoding of one character: one code unit inside the Basic
      Multilingual Plane, a high then a low surrogate outside it. */
  function EncodeChar(c: char): (u: Text)
    ensures (c as int < 0x1_0000 ==> u == [c as int as CodeUnit])
    ensures (c as int >= 0x1_0000 ==>
      |u| == 2 && IsHighSurrogate(u[0]) && 0xDC00 <= u[1] < 0xE000 &&
      u[0] as int == 0xD800 + (c as int - 0x1_0000) / 0x400 &&
      u[1] as int == 0xDC00 + (c as int - 0x1_0000) % 0x400)
  {
    var v := c as int;
    if v < 0x1_0000 then [v as CodeUnit]
    else [(0xD800 + (v - 0x1_0000) / 0x400) as CodeUnit, (0xDC00 + (v - 0x1_0000) % 0x400) as CodeUnit]
  }

  /** The UTF-16 encoding of a string of characters. It is never shorter than
      the string, and as long exactly when no character lies outside the
      Basic Multilingual Plane. */
  function Utf16(s: string): (u: Text)
    ensures |u| >= |s|
    ensures |u| == |s| <==> forall i :: 0 <= i < |s| ==> s[i] as int < 0x1_0000
  {
    if s == [] then [] else
      var rest := Utf16(s[1..]);
      assert forall i :: 1 <= i < |s| ==> s[i] == s[1..][i - 1];
      assert (forall i :: 0 <= i < |s[1..]| ==> s[1..][i] as int < 0x1_0000) ==>
        (forall i :: 1 <= i < |s| ==> s[i] as int < 0x1_0000);
      EncodeChar(s[0]) + rest
  }

  /** The component's two state fields, as a value. */
  datatype Reveal = Reveal(displayText: Text, currentIndex: nat)

  /** The state right after mounting and right after every change of `text`. */
  const Initial: Reveal := Reveal([], 0)

  /** The invariant of the reveal: what is displayed is exactly the first
      `currentIndex` code units of `text`. */
  predicate Consistent(text: Text, s: Reveal)
  {
    s.currentIndex <= |text| && s.displayText == text[..s.currentIndex]
  }

  /** The guard of the tick effect: code units remain to be shown, so a timer is
      scheduled. Its negation is the branch that invokes `onComplete`. */
  predicate HasMore(text: Text, s: Reveal)
  {
    s.currentIndex < |text|
  }

  /** What the timer callback does: append the code unit at `currentIndex` and
      advance the index. */
  function Step(text: Text, s: Reveal): (t: Reveal)
    requires HasMore(text, s)
    ensures Consistent(text, s) ==> Consistent(text, t)
    ensures |t.displayText| == |s.displayText| + 1 && t.currentIndex == s.currentIndex + 1
    ensures t.displayText[..|s.displayText|] == s.displayText
  {
    Reveal(s.displayText + [text[s.currentIndex]], s.currentIndex + 1)
  }

  /** The state after `n` timer periods: a tick happens in a period only while a
      timer is scheduled, that is, only while code units remain. */
  function Ticks(text: Text, s: Reveal, n: nat): (r: Reveal)
    ensures s.currentIndex <= r.currentIndex <= s.currentIndex + n
    ensures Consistent(text, s) ==> Consistent(text, r)
    ensures r.currentIndex < s.currentIndex + n ==> !HasMore(text, r)
    decreases n
  {
    if n == 0 || !HasMore(text, s) then s else Ticks(text, Step(text, s), n - 1)
  }

  /** Whether the blinking cursor is rendered. While the reveal is consistent
      the cursor is shown exactly when part of the text is still hidden. */
  function CursorVisible(text: Text, s: Reveal): (b: bool)
    ensures Consistent(text, s) ==> (b <==> s.displayText != text)
  {
    assert Consistent(text, s) && s.currentIndex < |text| ==> |s.displayText| < |text|;
    s.currentIndex < |text|
  }

  /** Whether a run of the tick effect invokes `onComplete`: only when no
      code unit remains, that is, when the whole text is displayed. */
  function CompletesNow(text: Text, s: Reveal): (b: bool)
    ensures Consistent(text, s) ==> (b <==> s.displayText == text)
    ensures b ==> !HasMore(text, s)
  {
    assert Consistent(text, s) && s.currentIndex < |text| ==> |s.displayText| < |text|;
    !HasMore(text, s)
  }

  /** From any consistent state, `n` periods reveal `min(k + n, |text|)`
      code units and never run past the end of the text. */
  lemma {:induction false} TicksFrom(text: Text, k: nat, n: nat)
    requires k <= |text|
    ensures var m := if k + n <= |text| then k + n else |text|;
            Ticks(text, Reveal(text[..k], k), n) == Reveal(text[..m], m)
    decreases n
  {
    var s := Reveal(text[..k], k);
    if n == 0 || !HasMore(text, s) {
    } else {
      assert text[..k] + [text[k]] == text[..k + 1];
      assert Step(text, s) == Reveal(text[..k + 1], k + 1);
      TicksFrom(text, k + 1, n - 1);
    }
  }

  /** Starting from a reset, exactly |text| periods are needed: after them the
      whole text is displayed and completion is reached, after fewer it is not. */
  lemma FullRevealTakesLengthTicks(text: Text, n: nat)
    ensures Ticks(text, Initial, |text|) == Reveal(text, |text|)
    ensures CompletesNow(text, Ticks(text, Initial, |text|))
    ensures n < |text| ==> !CompletesNow(text, Ticks(text, Initial, n))
  {
    TicksFrom(text, 0, |text|);
    assert text[..|text|] == text;
    TicksFrom(text, 0, n);
  }

  /** A character outside the Basic Multilingual Plane takes two ticks: after
      the first, a lone high surrogate is displayed and the cursor still shows;
      only the second completes the reveal. */
  lemma AstralCharTakesTwoTicks()
    ensures var text := Utf16("\U{1F600}");
      |text| == 2 &&
      Ticks(text, Initial, 1) == Reveal([0xD83D], 1) && IsHighSurrogate(0xD83D) &&
      CursorVisible(text, Ticks(text, Initial, 1)) &&
      !CompletesNow(text, Ticks(text, Initial, 1)) &&
      CompletesNow(text, Ticks(text, Initial, 2))
  {
    var text := Utf16("\U{1F600}");
    assert text == [0xD83D, 0xDE00];
    FullRevealTakesLengthTicks(text, 1);
    TicksFrom(text, 0, 1);
    assert text[..1] == [0xD83D];
  }

  /** Periods compose: n periods followed by m periods are n + m periods. */
  lemma {:induction false} TicksCompose(text: Text, s: Reveal, n: nat, m: nat)
    ensures Ticks(text, Ticks(text, s, n), m) == Ticks(text, s, n + m)
    decreases n
  {
    if n == 0 {
    } else if !HasMore(text, s) {
      TicksStuck(text, s, m);
    } else {
      TicksCompose(text, Step(text, s), n - 1, m);
    }
  }

  /** Once nothing remains, time passing changes nothing: no timer is pending. */
  lemma {:induction false} TicksStuck(text: Text, s: Reveal, m: nat)
    requires !HasMore(text, s)
    ensures Ticks(text, s, m) == s
  {
  }

  /** The mounted component. `pendingTimers` counts the timers scheduled by the
      tick effect and neither fired nor cleared; `completions` counts calls of
      `onComplete`. */
  class TypeWriterView {
    var text: Text
    var displayText: Text
    var currentIndex: nat
    var mounted: bool
    var pendingTimers: nat
    var completions: nat

    function State(): Reveal
      reads this
    {
      Reveal(displayText, currentIndex)
    }

    /** The reveal invariant, and exactly one pending timer while mounted and
        code units remain, none otherwise. */
    ghost predicate Valid()
      reads this
    {
      Consistent(text, State()) &&
      pendingTimers == (if mounted && HasMore(text, State()) then 1 else 0)
    }

    /** Mounting: both state fields start empty, then the effects run. */
    constructor (text: Text)
      ensures Valid() && mounted
      ensures this.text == text && State() == Initial
      ensures completions == (if text == [] then 1 else 0)
    {
      this.text := text;
      displayText := [];
      currentIndex := 0;
      mounted := true;
      pendingTimers := 0;
      completions := 0;
      new;
      RunTickEffect();
    }

    /** One run of the tick effect: the cleanup of the previous run clears its
        timer, then either one new timer is scheduled or `onComplete` is called. */
    method RunTickEffect()
      requires Consistent(text, State()) && mounted
      requires pendingTimers <= 1
      modifies this
      ensures Valid()
      ensures text == old(text) && State() == old(State()) && mounted
      ensures pendingTimers <= 1
      ensures completions == old(completions) + (if CompletesNow(text, State()) then 1 else 0)
    {
      if pendingTimers > 0 {
        pendingTimers := pendingTimers - 1;
      }
      if currentIndex < |text| {
        pendingTimers := pendingTimers + 1;
      } else {
        completions := completions + 1;
      }
    }

    /** The pending timer fires: one code unit is appended and, since
        `currentIndex` changed, the tick effect runs again. Without a pending
        timer nothing happens. */
    method Tick()
      requires Valid()
      modifies this
      ensures Valid()
      ensures text == old(text) && mounted == old(mounted)
      ensures State() == (if old(pendingTimers) > 0 then Step(text, old(State())) else old(State()))
      ensures completions == old(completions) +
        (if old(pendingTimers) > 0 && CompletesNow(text, State()) then 1 else 0)
    {
      if pendingTimers > 0 {
        pendingTimers := pendingTimers - 1;
        displayText := displayText + [text[currentIndex]];
        currentIndex := currentIndex + 1;
        RunTickEffect();
      }
    }

    /** A new `text` prop. The reset effect clears both fields whatever the
        progress, and the tick effect runs on the reset state. An equal text
        changes no dependency, so no effect runs. */
    method SetText(newText: Text)
      requires Valid() && mounted
      modifies this
      ensures Valid() && mounted && text == newText
      ensures newText != old(text) ==> State() == Initial
      ensures newText != old(text) ==>
        completions == old(completions) + (if newText == [] then 1 else 0)
      ensures newText == old(text) ==>
        State() == old(State()) && completions == old(completions) && pendingTimers == old(pendingTimers)
    {
      if newText != text {
        text := newText;
        displayText := [];
        currentIndex := 0;
        RunTickEffect();
      }
    }

    /** A new `speed` or `onComplete` prop re-runs the tick effect only: the
        timer is replaced, and a finished reveal calls `onComplete` again. */
    method DependenciesChanged()
      requires Valid() && mounted
      modifies this
      ensures Valid() && mounted
      ensures text == old(text) && State() == old(State())
      ensures completions == old(completions) + (if CompletesNow(text, State()) then 1 else 0)
    {
      RunTickEffect();
    }

    /** Unmounting runs the effect's cleanup: the pending timer is cleared, so
        no later tick changes the state. */
    method Unmount()
      requires Valid()
      modifies this
      ensures Valid() && !mounted && pendingTimers == 0
      ensures text == old(text) && State() == old(State()) && completions == old(completions)
    {
      pendingTimers := 0;
      mounted := false;
    }
  }
}
