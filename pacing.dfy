/** The pacing rule: how long a word stays on screen (`calculate_delay` in Glance.py,
    `calculate_dynamic_delay` in Glance.py.py; the two are the same rule).

    The source computes `int((60 / wpm) * 1000 * factor)` in floating point. Here the
    factor is the exact fraction `Num / Den` and the result is the exact floor of
    `60000 * Num / (wpm * Den)`, which is what `int()` gives for a positive value. */
module Pacing {

  import opened Arith

  /** Which slowdown a word earns; the first matching rule wins. */
  datatype Slowdown = Clause | Sentence | Long | Plain

  function Classify(word: string): Slowdown {
    if ',' in word || ';' in word then Clause
    else if '.' in word || '!' in word || '?' in word then Sentence
    else if |word| > 8 then Long
    else Plain
  }

  /** The factors 1.5, 2.0, 1.3 and 1.0 as exact fractions. */
  function Num(k: Slowdown): nat {
    match k
    case Clause => 3
    case Sentence => 2
    case Long => 13
    case Plain => 1
  }

  function Den(k: Slowdown): nat {
    match k
    case Clause => 2
    case Sentence => 1
    case Long => 10
    case Plain => 1
  }

  /** Milliseconds per word at `wpm` before any slowdown, truncated. */
  function BaseDelay(wpm: int): (r: nat)
    requires wpm > 0
    ensures r * wpm <= 60000 < (r + 1) * wpm
  {
    60000 / wpm
  }

  /** The delay scheduled after `word` is shown: the truncation of
      60000 / wpm times the word's factor. */
  function DelayMs(word: string, wpm: int): (r: nat)
    requires wpm > 0
    ensures r * (wpm * Den(Classify(word))) <= 60000 * Num(Classify(word))
    ensures 60000 * Num(Classify(word)) < (r + 1) * (wpm * Den(Classify(word)))
  {
    var k := Classify(word);
    assert Den(k) > 0;
    (60000 * Num(k)) / (wpm * Den(k))
  }

  /** The four worked examples at 350 words per minute: a plain word, a word with a
      comma, a word with a full stop and a nine-letter word. */
  lemma DelayExamples()
    ensures DelayMs("test", 350) == 171
    ensures DelayMs("Hello,", 350) == 257
    ensures DelayMs("world.", 350) == 342
    ensures DelayMs("wonderful", 350) == 222
  {
    assert ',' in "Hello,";
    assert !(',' in "world." || ';' in "world.") && '.' in "world.";
    assert !(',' in "wonderful" || ';' in "wonderful" || '.' in "wonderful" || '!' in "wonderful" || '?' in "wonderful");
    assert !(',' in "test" || ';' in "test" || '.' in "test" || '!' in "test" || '?' in "test");
  }

  /** The comma rule outranks the full-stop rule. */
  lemma ClauseOutranksSentence(word: string)
    requires ',' in word && '.' in word
    ensures Classify(word) == Clause
  {
  }

  /** Reading faster never makes a word stay longer. */
  lemma DelayAntitoneInWpm(word: string, slow: int, fast: int)
    requires 0 < slow <= fast
    ensures DelayMs(word, fast) <= DelayMs(word, slow)
  {
    var k := Classify(word);
    assert slow * Den(k) <= fast * Den(k) by {
      assert fast * Den(k) - slow * Den(k) == (fast - slow) * Den(k);
    }
    DivAntitone(60000 * Num(k), slow * Den(k), fast * Den(k));
  }

  /** Every factor is at least 1: a word is never shown shorter than the base delay. */
  lemma DelayAtLeastBase(word: string, wpm: int)
    requires wpm > 0
    ensures BaseDelay(wpm) <= DelayMs(word, wpm)
  {
    var k := Classify(word);
    var b := BaseDelay(wpm);
    assert b * (wpm * Den(k)) == (b * wpm) * Den(k);
    assert (b * wpm) * Den(k) <= 60000 * Den(k) by {
      assert 60000 * Den(k) - (b * wpm) * Den(k) == (60000 - b * wpm) * Den(k);
    }
    assert 60000 * Den(k) <= 60000 * Num(k);
    LeFloor(b, 60000 * Num(k), wpm * Den(k));
  }

  /** Every factor is at most 2: no word is shown longer than a word ending a sentence. */
  lemma DelayAtMostSentence(word: string, wpm: int)
    requires wpm > 0
    ensures DelayMs(word, wpm) <= 120000 / wpm
  {
    var k := Classify(word);
    var d := DelayMs(word, wpm);
    assert d * (wpm * Den(k)) == (d * wpm) * Den(k);
    assert 60000 * Num(k) <= 120000 * Den(k);
    assert (d * wpm) * Den(k) <= 120000 * Den(k);
    assert d * wpm <= 120000;
    LeFloor(d, 120000, wpm);
  }

}
