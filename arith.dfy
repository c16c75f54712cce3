/** Facts about Euclidean division by a positive divisor, on which the time
    arithmetic of the pacing rule and the progress display rests. */
module Arith {

  /** A multiple of `b` that does not exceed `a` is at most `a / b` times `b`. */
  lemma LeFloor(q: nat, a: nat, b: nat)
    requires b > 0 && q * b <= a
    ensures q <= a / b
  {
    var r := a / b;
    assert a < (r + 1) * b;
    assert q * b < (r + 1) * b;
  }

  /** For a non-negative numerator, a larger divisor gives a smaller quotient. */
  lemma DivAntitone(a: nat, b: nat, c: nat)
    requires 0 < b <= c
    ensures a / c <= a / b
  {
    var q := a / c;
    assert q * c <= a;
    assert q * b <= q * c by {
      assert q * c - q * b == q * (c - b);
    }
    LeFloor(q, a, b);
  }

  /** A larger numerator never gives a smaller quotient. */
  lemma DivMonotone(a: nat, c: nat, b: nat)
    requires a <= c && b > 0
    ensures a / b <= c / b
  {
    LeFloor(a / b, c, b);
  }

  /** A numerator below `k` times the divisor gives a quotient below `k`. */
  lemma FloorLt(a: nat, k: nat, b: nat)
    requires b > 0 && a < k * b
    ensures a / b < k
  {
    var r := a / b;
    assert r * b <= a;
    assert r * b < k * b;
  }

  /** Whole multiples of the divisor pass through the division unchanged. */
  lemma DivAddMultiple(q: nat, r: nat, b: nat)
    requires b > 0
    ensures (q * b + r) / b == q + r / b
  {
    var t := r / b;
    assert t * b <= r < (t + 1) * b;
    assert (q + t) * b == q * b + t * b;
    assert (q + t + 1) * b == q * b + (t + 1) * b;
    LeFloor(q + t, q * b + r, b);
    FloorLt(q * b + r, q + t + 1, b);
  }

}
