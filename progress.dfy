/** Progress arithmetic of the animation timer, over exact reals.

    The timer divides the elapsed time of a session by its duration and either
    clamps the ratio at 1 (play-once mode) or keeps its fractional part (loop
    and bounce modes); the value reported to `tick` is that ratio when playing
    forwards and its complement when playing backwards. */
module Progress {

  /** JavaScript's `x % 1` for a non-negative `x`: the fractional part. */
  function Frac(x: real): (r: real)
    ensures 0.0 <= r < 1.0
  {
    x - x.Floor as real
  }

  /** The fractional part differs from its argument by a whole number. */
  lemma FracWhole(x: real)
    ensures (x - Frac(x)).Floor as real == x - Frac(x)
  {
  }

  /** Play-once progress, `Math.min(1, elapsed / duration)`. */
  function RawOnce(elapsed: real, duration: real): (r: real)
    requires duration > 0.0
    ensures r <= 1.0
    ensures 0.0 <= elapsed ==> 0.0 <= r
    ensures r == 1.0 <==> elapsed >= duration
  {
    if elapsed / duration < 1.0 then elapsed / duration else 1.0
  }

  /** Below the duration, play-once progress is the elapsed share of it. */
  lemma RawOnceShare(elapsed: real, duration: real)
    requires duration > 0.0 && elapsed < duration
    ensures RawOnce(elapsed, duration) * duration == elapsed
  {
  }

  /** The value reported to `tick`: the progress itself when playing
      forwards, its complement `1 - p` when playing backwards. */
  function Directed(p: real, forwards: bool): (r: real)
    ensures 0.0 <= p <= 1.0 ==> 0.0 <= r <= 1.0
    ensures r == p || r == 1.0 - p
  {
    if forwards then p else 1.0 - p
  }

  /** Forwards the reported value follows the progress; backwards it runs
      against it. */
  lemma DirectedOrder(p: real, q: real, forwards: bool)
    requires p < q
    ensures forwards ==> Directed(p, forwards) < Directed(q, forwards)
    ensures !forwards ==> Directed(p, forwards) > Directed(q, forwards)
  {
  }

  /** Play-once progress strictly grows with the elapsed time until the
      duration has been reached. */
  lemma RawOnceRises(x: real, y: real, d: real)
    requires d > 0.0 && x < y && x < d
    ensures RawOnce(x, d) < RawOnce(y, d)
  {
    assert x / d < 1.0;
    assert x / d < y / d by {
      assert (y - x) / d > 0.0;
      assert y / d - x / d == (y - x) / d;
    }
  }

  /** Dividing by a positive duration keeps the order of two instants, and a
      step shorter than the duration becomes a step shorter than one. */
  lemma Scaled(x: real, y: real, d: real)
    requires d > 0.0 && 0.0 <= x <= y < x + d
    ensures 0.0 <= x / d <= y / d < x / d + 1.0
    ensures x < y ==> x / d < y / d
  {
    assert y / d - x / d == (y - x) / d;
    var q := (y - x) / d;
    assert q * d == y - x;
    if q >= 1.0 {
      ProductNonNegative(q - 1.0, d);
      assert false;
    }
    assert 0.0 <= (y - x) / d;
    if x < y {
      assert 0.0 < (y - x) / d;
    }
  }

  lemma ProductNonNegative(a: real, b: real)
    requires 0.0 <= a && 0.0 <= b
    ensures 0.0 <= a * b
  {
  }

  /** Wrap detection: between two ratios less than one apart, the fractional
      part drops exactly when an integer boundary was crossed, and otherwise
      it grows by the same amount as the ratio. */
  lemma WrapDetected(a: real, b: real)
    requires 0.0 <= a <= b < a + 1.0
    ensures b.Floor == a.Floor || b.Floor == a.Floor + 1
    ensures Frac(b) < Frac(a) <==> b.Floor == a.Floor + 1
    ensures a < b && Frac(a) <= Frac(b) ==> Frac(a) < Frac(b)
  {
    assert a.Floor as real <= a < a.Floor as real + 1.0;
    assert b.Floor as real <= b < b.Floor as real + 1.0;
    assert a.Floor <= b.Floor;
    assert b.Floor < a.Floor + 2;
  }
}
