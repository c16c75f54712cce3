/** The playback state machine as pure functions on a snapshot of the four fields the
    source updates in place (`words`, `current_index`, `is_running`, `has_content`).
    Each function is one handler of the source; the `Reader` class in module Session
    performs the same steps on fields and is proved equal to these functions.

    The two source files differ only in `toggle_reading`: Glance.py rewinds to the
    first word when asked to play a finished text, Glance.py.py does not. */
module Playback {

  import opened Options
  import opened Tokenizer
  import opened Pacing

  datatype Variant =
    | Glance   // Glance.py
    | ProFlow  // Glance.py.py

  datatype State = State(words: seq<string>, currentIndex: nat, isRunning: bool, hasContent: bool)

  /** The fields as `__init__` sets them. */
  const Initial: State := State([], 0, false, false)

  function Min(a: int, b: int): int { if a <= b then a else b }

  function Max(a: int, b: int): int { if a >= b then a else b }

  // ---------------------------------------------------------------------------
  //  The handlers
  // ---------------------------------------------------------------------------

  /** `prepare_words` on the text box's content `text`: replaces the word list and
      reports whether it is non-empty. */
  function Prepare(s: State, text: string): (State, bool) {
    var words := Tokenize(text);
    if |words| > 0 then (s.(words := words, hasContent := true), true)
    else (s.(words := words), false)
  }

  /** One firing of `run_loop`: the new state and the delay it schedules, if any.
      A callback that fires after a pause finds `isRunning` false and does nothing. */
  function Advance(s: State, wpm: int): (State, Option<nat>)
    requires wpm > 0
  {
    if !s.isRunning then (s, None)
    else if s.currentIndex < |s.words| then
      (s.(currentIndex := s.currentIndex + 1), Some(DelayMs(s.words[s.currentIndex], wpm)))
    else
      (s.(isRunning := false), None)
  }

  /** `toggle_reading`: pause, or (preparing the text first if nothing was ever
      prepared) start and run the first step at once. */
  function Toggle(v: Variant, s: State, text: string, wpm: int): (State, Option<nat>)
    requires wpm > 0
  {
    if s.isRunning then (s.(isRunning := false), None)
    else
      var (p, ok) := if s.hasContent then (s, true) else Prepare(s, text);
      if !ok then (p, None)
      else
        var q := if v == Glance && p.currentIndex >= |p.words| then p.(currentIndex := 0) else p;
        Advance(q.(isRunning := true), wpm)
  }

  /** `scrub_forward`: ten words on, but not past the last word. */
  function ScrubForward(s: State): State {
    if s.words == [] then s
    else s.(currentIndex := Min(|s.words| - 1, s.currentIndex + 10))
  }

  /** The position `scrub_backward` moves to. */
  function Back(i: nat): nat { Max(0, i - 10) }

  /** `scrub_backward`: ten words back, but not before the first. The source then
      reads `words[current_index]`, which exists only if the new position is inside
      the list; that is required here. */
  function ScrubBackward(s: State): State
    requires s.words == [] || Back(s.currentIndex) < |s.words|
  {
    if s.words == [] then s
    else s.(currentIndex := Back(s.currentIndex))
  }

  /** `reset_reader`. */
  function Reset(s: State): State {
    s.(isRunning := false, currentIndex := 0)
  }

  // ---------------------------------------------------------------------------
  //  Each handler on its own
  // ---------------------------------------------------------------------------

  /** Preparing sets the word list to the whitespace split of the text and reports
      whether the text holds any non-whitespace character; it marks the content as
      present only then and never clears that mark; position and running flag are
      left alone. */
  lemma PrepareSpec(s: State, text: string)
    ensures var (t, ok) := Prepare(s, text);
      && t.words == Tokenize(text) && AllWords(t.words)
      && (ok <==> t.words != [])
      && (ok <==> exists c :: c in text && !IsSpace(c))
      && t.hasContent == (s.hasContent || ok)
      && t.currentIndex == s.currentIndex && t.isRunning == s.isRunning
  {
    TokenizeEmptyIff(text);
  }

  /** One step of the loop: nothing at all when paused; otherwise the next word is
      shown and the delay for that word scheduled, or, past the end, playback stops
      where it is and nothing is scheduled. */
  lemma AdvanceSpec(s: State, wpm: int)
    requires wpm > 0
    ensures !s.isRunning ==> Advance(s, wpm) == (s, None)
    ensures s.isRunning && s.currentIndex < |s.words| ==>
      Advance(s, wpm)
        == (s.(currentIndex := s.currentIndex + 1), Some(DelayMs(s.words[s.currentIndex], wpm)))
    ensures s.isRunning && s.currentIndex >= |s.words| ==>
      Advance(s, wpm) == (s.(isRunning := false), None)
    ensures Advance(s, wpm).0.words == s.words && Advance(s, wpm).0.hasContent == s.hasContent
    ensures Advance(s, wpm).1.Some? <==> s.isRunning && s.currentIndex < |s.words|
  {
  }

  /** Toggling while running only clears the running flag. */
  lemma TogglePauses(v: Variant, s: State, text: string, wpm: int)
    requires wpm > 0 && s.isRunning
    ensures Toggle(v, s, text, wpm) == (s.(isRunning := false), None)
  {
  }

  /** Toggling with nothing ever prepared and a blank text box changes nothing. */
  lemma ToggleWithoutText(v: Variant, s: State, text: string, wpm: int)
    requires wpm > 0 && !s.isRunning && !s.hasContent && s.words == []
    requires forall c :: c in text ==> IsSpace(c)
    ensures Toggle(v, s, text, wpm) == (s, None)
  {
    TokenizeEmptyIff(text);
  }

  /** Starting in the middle of the text shows the word at the current position at
      once and schedules its delay. */
  lemma ToggleStarts(v: Variant, s: State, text: string, wpm: int)
    requires wpm > 0 && !s.isRunning && s.hasContent && s.currentIndex < |s.words|
    ensures Toggle(v, s, text, wpm)
      == (s.(currentIndex := s.currentIndex + 1, isRunning := true),
          Some(DelayMs(s.words[s.currentIndex], wpm)))
  {
  }

  /** Glance.py: playing a finished text starts again from the first word. */
  lemma GlanceReadsAgain(s: State, text: string, wpm: int)
    requires wpm > 0 && !s.isRunning && s.hasContent
    requires 0 < |s.words| <= s.currentIndex
    ensures Toggle(Glance, s, text, wpm)
      == (s.(currentIndex := 1, isRunning := true), Some(DelayMs(s.words[0], wpm)))
  {
  }

  /** Glance.py.py: playing a finished text sets the running flag, and the step run
      at once clears it again; the position stays at the end and nothing is scheduled. */
  lemma ProFlowStaysFinished(s: State, text: string, wpm: int)
    requires wpm > 0 && !s.isRunning && s.hasContent && s.currentIndex >= |s.words|
    ensures Toggle(ProFlow, s, text, wpm) == (s, None)
  {
  }

  /** The first press of play: with nothing prepared yet and a word in the text box,
      the text is prepared and its first word shown at once, in both files. */
  lemma TogglePreparesAndStarts(v: Variant, s: State, text: string, wpm: int)
    requires wpm > 0 && !s.isRunning && !s.hasContent && Blank(s)
    requires exists c :: c in text && !IsSpace(c)
    ensures Tokenize(text) != []
    ensures Toggle(v, s, text, wpm)
      == (State(Tokenize(text), 1, true, true), Some(DelayMs(Tokenize(text)[0], wpm)))
  {
    TokenizeEmptyIff(text);
  }

  /** Glance.py: once content was prepared, a later prepare of a blank text box
      leaves no words; play then rewinds to 0, and the step run at once stops. */
  lemma GlanceToggleWithoutWords(s: State, text: string, wpm: int)
    requires wpm > 0 && !s.isRunning && s.hasContent && s.words == []
    ensures Toggle(Glance, s, text, wpm) == (s.(currentIndex := 0), None)
  {
  }

  /** Once content has been prepared, `toggle_reading` no longer reads the text box:
      the result is the same whatever it holds. In Glance.py.py, which has no other
      caller of `prepare_words`, a text typed or loaded afterwards never reaches the
      word list. */
  lemma ToggleIgnoresTextOnceLoaded(v: Variant, s: State, text: string, wpm: int)
    requires wpm > 0 && s.hasContent
    ensures Toggle(v, s, text, wpm) == Toggle(v, s, [], wpm)
    ensures Toggle(v, s, text, wpm).0.words == s.words
  {
  }

  /** Scrubbing forward lands on `min(|words| - 1, i + 10)`, inside the list from any
      position; with no words it does nothing. The running flag and the words are
      never touched. */
  lemma ScrubForwardSpec(s: State)
    ensures ScrubForward(s).words == s.words && ScrubForward(s).isRunning == s.isRunning
    ensures ScrubForward(s).hasContent == s.hasContent
    ensures s.words != [] ==>
      ScrubForward(s) == s.(currentIndex := Min(|s.words| - 1, s.currentIndex + 10))
    ensures s.words == [] ==> ScrubForward(s) == s
    ensures s.words != [] ==> ScrubForward(s).currentIndex < |s.words|
    ensures s.words != [] && s.currentIndex + 10 < |s.words| ==>
      ScrubForward(s).currentIndex == s.currentIndex + 10
    ensures s.words != [] && s.currentIndex + 10 >= |s.words| ==>
      ScrubForward(s).currentIndex == |s.words| - 1
  {
  }

  /** From any position up to the end, scrubbing backward is defined and lands on
      `max(0, i - 10)`, inside the list; with no words it does nothing. */
  lemma ScrubBackwardSpec(s: State)
    requires s.currentIndex <= |s.words|
    ensures s.words == [] || Back(s.currentIndex) < |s.words|
    ensures s.words == [] ==> ScrubBackward(s) == s
    ensures s.words != [] ==> ScrubBackward(s).currentIndex < |s.words|
    ensures s.words != [] && s.currentIndex >= 10 ==>
      ScrubBackward(s).currentIndex == s.currentIndex - 10
    ensures s.words != [] && s.currentIndex < 10 ==> ScrubBackward(s).currentIndex == 0
    ensures ScrubBackward(s).words == s.words && ScrubBackward(s).isRunning == s.isRunning
    ensures ScrubBackward(s).hasContent == s.hasContent
    ensures s.words != [] ==> ScrubBackward(s) == s.(currentIndex := Back(s.currentIndex))
  {
  }

  /** Scrubbing never moves the position out of the list, whichever the direction
      and wherever it starts (up to the end). */
  lemma ScrubStaysInside(s: State)
    requires s.words != [] && s.currentIndex <= |s.words|
    ensures 0 <= ScrubForward(s).currentIndex <= |s.words| - 1
    ensures 0 <= ScrubBackward(s).currentIndex <= |s.words| - 1
  {
    ScrubForwardSpec(s);
    ScrubBackwardSpec(s);
  }

  /** A reset stops and rewinds but keeps the words, and a callback still pending
      from before the reset (or from before a pause) has no effect. */
  lemma ResetSpec(v: Variant, s: State, text: string, wpm: int)
    requires wpm > 0
    ensures Reset(s) == s.(isRunning := false, currentIndex := 0)
    ensures Advance(Reset(s), wpm) == (Reset(s), None)
    ensures s.isRunning ==>
      var (t, _) := Toggle(v, s, text, wpm);
      Advance(t, wpm) == (t, None)
  {
  }

  // ---------------------------------------------------------------------------
  //  Reading through a text
  // ---------------------------------------------------------------------------

  /** The delay of each word in turn. */
  function Delays(ws: seq<string>, wpm: int): (ds: seq<nat>)
    requires wpm > 0
    ensures |ds| == |ws|
    ensures forall i :: 0 <= i < |ws| ==> ds[i] == DelayMs(ws[i], wpm)
  {
    if ws == [] then [] else [DelayMs(ws[0], wpm)] + Delays(ws[1..], wpm)
  }

  /** `k` firings of `run_loop`, each one scheduled by the last: the final state and
      the delays scheduled on the way. */
  function Run(s: State, wpm: int, k: nat): (State, seq<nat>)
    requires wpm > 0
    decreases k
  {
    if k == 0 then (s, [])
    else
      var (t, d) := Advance(s, wpm);
      var (u, ds) := Run(t, wpm, k - 1);
      (u, (if d.Some? then [d.value] else []) + ds)
  }

  /** While words remain, `k` steps move the position on by exactly `k` and schedule
      exactly the delays of the `k` words shown. */
  lemma {:induction false} RunSchedule(s: State, wpm: int, k: nat)
    requires wpm > 0 && s.isRunning && s.currentIndex + k <= |s.words|
    ensures Run(s, wpm, k)
      == (s.(currentIndex := s.currentIndex + k),
          Delays(s.words[s.currentIndex..s.currentIndex + k], wpm))
    decreases k
  {
    if k > 0 {
      var i := s.currentIndex;
      var t := s.(currentIndex := i + 1);
      assert Advance(s, wpm) == (t, Some(DelayMs(s.words[i], wpm)));
      RunSchedule(t, wpm, k - 1);
      var ws := s.words[i..i + k];
      assert ws[0] == s.words[i];
      assert ws[1..] == s.words[i + 1..i + k];
    }
  }

  /** A running reader goes through every remaining word and then stops at the end:
      one step past the last word clears the running flag. */
  lemma RunToEnd(s: State, wpm: int)
    requires wpm > 0 && s.isRunning && s.currentIndex <= |s.words|
    ensures Run(s, wpm, |s.words| - s.currentIndex + 1)
      == (s.(currentIndex := |s.words|, isRunning := false),
          Delays(s.words[s.currentIndex..], wpm))
  {
    var k := |s.words| - s.currentIndex;
    RunSchedule(s, wpm, k);
    var (t, ds) := Run(s, wpm, k);
    assert s.words[s.currentIndex..s.currentIndex + k] == s.words[s.currentIndex..];
    RunAfter(s, wpm, k);
    assert Advance(t, wpm) == (t.(isRunning := false), None);
    assert Run(t.(isRunning := false), wpm, 0) == (t.(isRunning := false), []);
    assert Run(t, wpm, 1) == (t.(isRunning := false), []);
    assert ds + [] == ds;
    assert k + 1 == |s.words| - s.currentIndex + 1;
  }

  /** `k + 1` steps are `k` steps followed by one more. */
  lemma {:induction false} RunAfter(s: State, wpm: int, k: nat)
    requires wpm > 0
    ensures Run(s, wpm, k + 1).0 == Run(Run(s, wpm, k).0, wpm, 1).0
    ensures Run(s, wpm, k + 1).1 == Run(s, wpm, k).1 + Run(Run(s, wpm, k).0, wpm, 1).1
    decreases k
  {
    var (t, d) := Advance(s, wpm);
    var pre := if d.Some? then [d.value] else [];
    if k == 0 {
      assert Run(t, wpm, 0) == (t, []);
      assert Run(s, wpm, 1) == (t, pre + []);
      assert Run(s, wpm, 0) == (s, []);
    } else {
      RunAfter(t, wpm, k - 1);
      assert Run(s, wpm, k + 1) == (Run(t, wpm, k).0, pre + Run(t, wpm, k).1);
      assert Run(s, wpm, k) == (Run(t, wpm, k - 1).0, pre + Run(t, wpm, k - 1).1);
    }
  }

  /** Pressing play on a prepared text at its start (or, in Glance.py, at its end)
      shows the first word at once, and the `|words|` callbacks that follow show
      the others and stop at the end: the delays scheduled are those of every word
      in order. */
  lemma ReadThrough(v: Variant, s: State, text: string, wpm: int)
    requires wpm > 0 && !s.isRunning && s.hasContent && s.words != []
    requires s.currentIndex == 0 || (v == Glance && s.currentIndex >= |s.words|)
    ensures var (t, d) := Toggle(v, s, text, wpm);
      && d.Some?
      && Run(t, wpm, |s.words|).0 == s.(currentIndex := |s.words|, isRunning := false)
      && [d.value] + Run(t, wpm, |s.words|).1 == Delays(s.words, wpm)
  {
    var (t, d) := Toggle(v, s, text, wpm);
    assert t == s.(currentIndex := 1, isRunning := true);
    assert d == Some(DelayMs(s.words[0], wpm));
    RunToEnd(t, wpm);
    assert |s.words| - 1 + 1 == |s.words|;
    assert s.words[1..] == t.words[t.currentIndex..];
  }

  // ---------------------------------------------------------------------------
  //  What the handlers keep true
  // ---------------------------------------------------------------------------

  /** Until some text has been prepared there are no words and the position is 0. */
  predicate Blank(s: State) {
    !s.hasContent ==> s.words == [] && s.currentIndex == 0
  }

  /** Blank, and the position is never past the end. */
  predicate InBounds(s: State) {
    Blank(s) && s.currentIndex <= |s.words|
  }

  /** Every handler, in both files, keeps `Blank`. */
  lemma BlankPreserved(v: Variant, s: State, text: string, wpm: int)
    requires wpm > 0 && Blank(s)
    ensures Blank(Prepare(s, text).0)
    ensures Blank(Toggle(v, s, text, wpm).0)
    ensures Blank(Advance(s, wpm).0)
    ensures Blank(ScrubForward(s))
    ensures s.words == [] || Back(s.currentIndex) < |s.words| ==> Blank(ScrubBackward(s))
    ensures Blank(Reset(s))
  {
  }

  /** Every handler except a direct `prepare_words` keeps the position inside the
      list, so scrubbing backward can never index past the end. Glance.py.py calls
      `prepare_words` only from `toggle_reading`, so there this holds in every
      reachable state. */
  lemma InBoundsPreserved(v: Variant, s: State, text: string, wpm: int)
    requires wpm > 0 && InBounds(s)
    ensures InBounds(Toggle(v, s, text, wpm).0)
    ensures InBounds(Advance(s, wpm).0)
    ensures InBounds(ScrubForward(s))
    ensures s.words == [] || Back(s.currentIndex) < |s.words|
    ensures InBounds(ScrubBackward(s))
    ensures InBounds(Reset(s))
  {
  }

  lemma InitialInBounds()
    ensures InBounds(Initial)
  {
  }

  /** Glance.py re-runs `prepare_words` on every key release: shortening the text
      after reading part of it leaves the position past the end, and ten words
      back is then still past the end, where `scrub_backward` would index. */
  lemma PrepareCanLeavePositionPastEnd()
    ensures var s := State(["a", "b", "c", "d", "e", "f", "g", "h", "i", "j", "k", "l"], 12, false, true);
      && InBounds(s)
      && var t := Prepare(s, "x").0;
      && !InBounds(t) && t.words != [] && Back(t.currentIndex) >= |t.words|
  {
    assert Tokenize("x") == ["x"] by {
      assert !IsSpace('x');
      assert "x"[0] == 'x' && "x"[1..] == [];
      assert [] + ['x'] == "x";
      assert Scan("x", []) == Scan([], "x");
    }
  }

  /** A six-word example: a six-word text is read in full and stops at the end;
      playing it again (Glance.py) starts from the first word. */
  lemma SixWordExample(wpm: int)
    requires wpm > 0
    ensures var ws := ["Hello,", "world.", "This", "is", "a", "test"];
      && Tokenize(Join(ws)) == ws
      && var (s, ok) := Prepare(Initial, Join(ws));
      && ok && s == State(ws, 0, false, true)
      && var (t, d) := Toggle(Glance, s, "", wpm);
      && Run(t, wpm, 6).0 == State(ws, 6, false, true)
      && Toggle(Glance, Run(t, wpm, 6).0, "", wpm).0 == State(ws, 1, true, true)
  {
    var ws := SixWords();
    TokenizeJoin(ws);
    var s := State(ws, 0, false, true);
    assert Prepare(Initial, Join(ws)) == (s, true);
    ReadThrough(Glance, s, "", wpm);
    GlanceReadsAgain(State(ws, 6, false, true), "", wpm);
  }

  /** The six words of `SixWordExample`, each a token. */
  function SixWords(): (ws: seq<string>)
    ensures ws == ["Hello,", "world.", "This", "is", "a", "test"]
    ensures AllWords(ws)
  {
    var ws := ["Hello,", "world.", "This", "is", "a", "test"];
    assert NoSpace("Hello,") && NoSpace("world.") && NoSpace("This");
    assert NoSpace("is") && NoSpace("a") && NoSpace("test");
    ws
  }

}
