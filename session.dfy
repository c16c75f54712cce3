/** The reader object of both source files (`GlanceApp` in Glance.py,
    `ModernSpeedReader` in Glance.py.py) reduced to the four fields its handlers
    update in place. The text box's content and the slider's WPM value are read by
    the source at the moment a handler runs; here they are parameters. Instead of
    calling `root.after(delay, self.run_loop)`, `RunLoop` and `ToggleReading` return
    the delay they would schedule; the host calls `RunLoop` again when it expires. */
module Session {

  import opened Options
  import opened Tokenizer
  import opened Pacing
  import opened Playback

  class Reader {
    /** Which of the two source files this reader follows. */
    const variant: Variant

    var words: seq<string>
    var currentIndex: nat
    var isRunning: bool
    var hasContent: bool

    /** The fields as a value, for the specifications in module Playback. */
    function Snapshot(): State
      reads this
    {
      State(words, currentIndex, isRunning, hasContent)
    }

    constructor (variant: Variant)
      ensures this.variant == variant
      ensures Snapshot() == Initial
    {
      this.variant := variant;
      words := [];
      currentIndex := 0;
      isRunning := false;
      hasContent := false;
    }

    /** `prepare_words`. */
    method PrepareWords(text: string) returns (ok: bool)
      modifies this
      ensures (Snapshot(), ok) == Prepare(old(Snapshot()), text)
    {
      words := Tokenize(text);
      if |words| > 0 {
        hasContent := true;
        return true;
      }
      return false;
    }

    /** `run_loop`: one firing of the timer callback. */
    method RunLoop(wpm: int) returns (delay: Option<nat>)
      requires wpm > 0
      modifies this
      ensures (Snapshot(), delay) == Advance(old(Snapshot()), wpm)
    {
      if !isRunning {
        return None;
      }
      if currentIndex < |words| {
        var word := words[currentIndex];
        currentIndex := currentIndex + 1;
        delay := Some(DelayMs(word, wpm));
      } else {
        isRunning := false;
        delay := None;
      }
    }

    /** `toggle_reading`. */
    method ToggleReading(text: string, wpm: int) returns (delay: Option<nat>)
      requires wpm > 0
      modifies this
      ensures (Snapshot(), delay) == Toggle(variant, old(Snapshot()), text, wpm)
    {
      if isRunning {
        isRunning := false;
        return None;
      }
      if !hasContent {
        var ok := PrepareWords(text);
        if !ok {
          return None;
        }
      }
      if variant == Glance && currentIndex >= |words| {
        currentIndex := 0;
      }
      isRunning := true;
      delay := RunLoop(wpm);
    }

    /** `reset_reader`. */
    method ResetReader()
      modifies this
      ensures Snapshot() == Reset(old(Snapshot()))
    {
      isRunning := false;
      currentIndex := 0;
    }

    /** `scrub_forward`. */
    method ScrubForward()
      modifies this
      ensures Snapshot() == Playback.ScrubForward(old(Snapshot()))
    {
      if words != [] {
        currentIndex := Min(|words| - 1, currentIndex + 10);
      }
    }

    /** `scrub_backward`; the word drawn afterwards must exist. */
    method ScrubBackward()
      requires words == [] || Back(currentIndex) < |words|
      modifies this
      ensures Snapshot() == Playback.ScrubBackward(old(Snapshot()))
    {
      if words != [] {
        currentIndex := Max(0, currentIndex - 10);
      }
    }
  }

  /** A client: the class's contracts alone are enough to follow a whole reading of
      a two-word text, a pause and a stale callback included. */
  method TwoWordSession(wpm: int)
    requires wpm > 0
  {
    var r := new Reader(Glance);
    var ws := ["Hi,", "there."];
    assert Tokenize(Join(ws)) == ws by {
      assert NoSpace("Hi,") && NoSpace("there.");
      TokenizeJoin(ws);
    }
    var d := r.ToggleReading(Join(ws), wpm);
    assert r.words == ws && r.currentIndex == 1 && r.isRunning;
    assert d == Some(DelayMs("Hi,", wpm));
    d := r.ToggleReading("", wpm);
    assert !r.isRunning && d == None;
    d := r.RunLoop(wpm);
    assert r.currentIndex == 1 && d == None;
    d := r.ToggleReading("", wpm);
    assert r.currentIndex == 2 && d == Some(DelayMs("there.", wpm));
    d := r.RunLoop(wpm);
    assert !r.isRunning && r.currentIndex == 2 && d == None;
    r.ScrubBackward();
    assert r.currentIndex == 0;
  }

}
