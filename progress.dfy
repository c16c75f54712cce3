/** The numbers behind the progress bar and the status bar: the fraction read
    (`update_progress`), the remaining time (`update_progress`) and the total reading
    time (`update_status_with_eta`, Glance.py only).

    The source computes `minutes = n / wpm` in floating point and shows
    `int(minutes)` minutes and `int((minutes % 1) * 60)` seconds. Python's `int()`
    truncates toward zero and its `%` on floats is floored, so the model computes
    both from the exact fraction `n / wpm`. */
module Progress {

  import opened Options
  import opened Arith

  /** A time as shown in the status bar: `{minutes}m {seconds}s`. */
  datatype Clock = Clock(minutes: int, seconds: nat)

  /** The whole number of seconds a clock shows. */
  function TotalSeconds(c: Clock): int {
    c.minutes * 60 + c.seconds
  }

  /** `int(x)` and `int((x % 1) * 60)` for the exact value `x = num / den`. */
  function ClockOf(num: int, den: int): (c: Clock)
    requires den > 0
    ensures c.seconds < 60
    ensures num >= 0 ==> c.minutes >= 0 && TotalSeconds(c) == (60 * num) / den
    ensures num < 0 ==> c.minutes <= 0
  {
    var minutes := if num >= 0 then num / den else -((-num) / den);
    var seconds := ((num % den) * 60) / den;
    assert seconds < 60 by {
      assert (num % den) * 60 < 60 * den;
      FloorLt((num % den) * 60, 60, den);
    }
    if num >= 0 then
      assert num == (num / den) * den + num % den;
      assert 60 * num == (60 * (num / den)) * den + (num % den) * 60;
      DivAddMultiple(60 * (num / den), (num % den) * 60, den);
      Clock(minutes, seconds)
    else
      Clock(minutes, seconds)
  }

  /** `current_index / len(words)`: the bar's filled fraction. An empty word list
      returns before anything is computed. */
  function Fraction(index: nat, count: nat): (r: Option<real>)
    ensures r.None? <==> count == 0
    ensures r.Some? ==> r.value * count as real == index as real
    ensures r.Some? && index <= count ==> 0.0 <= r.value <= 1.0
  {
    if count == 0 then None else Some(index as real / count as real)
  }

  /** The bar is empty at the start and full at the end. */
  lemma FractionEnds(count: nat)
    requires count > 0
    ensures Fraction(0, count) == Some(0.0)
    ensures Fraction(count, count) == Some(1.0)
  {
    assert count as real / count as real == 1.0;
  }

  /** Moving forward never shrinks the bar. */
  lemma FractionMonotone(i: nat, j: nat, count: nat)
    requires i <= j && count > 0
    ensures Fraction(i, count).value <= Fraction(j, count).value
  {
    var c := count as real;
    assert Fraction(i, count).value == i as real / c;
    assert Fraction(j, count).value == j as real / c;
    assert j as real / c - i as real / c == (j - i) as real / c;
    assert (j - i) as real / c >= 0.0;
  }

  /** The remaining time at `wpm`, from the words not yet shown. `update_progress`
      divides by `wpm` without clamping it. */
  function Remaining(index: nat, count: nat, wpm: int): (r: Option<Clock>)
    requires wpm > 0
    ensures r.None? <==> count == 0
    ensures r.Some? ==> r.value.seconds < 60
    ensures r.Some? && index <= count ==> TotalSeconds(r.value) == (60 * (count - index)) / wpm
  {
    if count == 0 then None else Some(ClockOf(count - index, wpm))
  }

  /** `update_status_with_eta`: the total reading time, with a non-positive `wpm`
      treated as 1. */
  function TotalEstimate(count: nat, wpm: int): (r: Option<Clock>)
    ensures r.None? <==> count == 0
    ensures r.Some? ==> r.value.seconds < 60 && r.value.minutes >= 0
    ensures r.Some? ==> TotalSeconds(r.value) == (60 * count) / (if wpm <= 0 then 1 else wpm)
  {
    if count == 0 then None else Some(ClockOf(count, if wpm <= 0 then 1 else wpm))
  }

  /** Before reading starts the remaining time is the total time. */
  lemma RemainingAtStartIsTotal(count: nat, wpm: int)
    requires wpm > 0
    ensures Remaining(0, count, wpm) == TotalEstimate(count, wpm)
  {
  }

  /** The remaining time never goes up as the position moves forward. */
  lemma RemainingNonIncreasing(i: nat, j: nat, count: nat, wpm: int)
    requires i <= j <= count && count > 0 && wpm > 0
    ensures TotalSeconds(Remaining(j, count, wpm).value) <= TotalSeconds(Remaining(i, count, wpm).value)
  {
    DivMonotone(60 * (count - j), 60 * (count - i), wpm);
  }

  /** At the end there is no time left. */
  lemma RemainingAtEnd(count: nat, wpm: int)
    requires count > 0 && wpm > 0
    ensures Remaining(count, count, wpm) == Some(Clock(0, 0))
  {
  }

}
