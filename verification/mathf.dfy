/**
 The three scalar helpers of the engine's `Mathf` class that the slow-motion
 controller calls, over exact reals instead of single-precision floats.
 */
module Mathf {

  /** True iff `x` lies on the closed segment between `a` and `b` (in either order). */
  predicate Between(a: real, b: real, x: real) {
    (a <= x <= b) || (b <= x <= a)
  }

  function Abs(x: real): (r: real)
    ensures r >= 0.0
    ensures r == x || r == -x
  {
    if x < 0.0 then -x else x
  }

  /** Clamps an interpolation parameter to [0, 1]. */
  function Clamp01(t: real): (r: real)
    ensures 0.0 <= r <= 1.0
    ensures 0.0 <= t <= 1.0 ==> r == t
    ensures t <= 0.0 ==> r == 0.0
    ensures t >= 1.0 ==> r == 1.0
  {
    if t < 0.0 then 0.0 else if t > 1.0 then 1.0 else t
  }

  /** Clamping keeps the order of interpolation parameters. */
  lemma Clamp01Monotone(t1: real, t2: real)
    requires t1 <= t2
    ensures Clamp01(t1) <= Clamp01(t2)
  {
  }

  /** Scaling by a factor in [0, 1] keeps a value between zero and itself. */
  lemma ScaleWithinUnit(d: real, u: real)
    requires 0.0 <= u <= 1.0
    ensures Between(0.0, d, d * u)
  {
    if d >= 0.0 {
      assert d * u <= d * 1.0;
    } else {
      assert (-d) * u <= (-d) * 1.0;
    }
  }

  /**
   Linear interpolation from `a` to `b` with the parameter clamped to [0, 1].
   Its properties are the lemmas below rather than postconditions, so that
   the product inside stays out of every context that merely mentions it.
   */
  function Lerp(a: real, b: real, t: real): real {
    a + (b - a) * Clamp01(t)
  }

  /**
   The interpolated value never leaves the segment between the end points,
   and a parameter at or past either end yields that end point exactly.
   */
  lemma LerpWithinEnds(a: real, b: real, t: real)
    ensures Between(a, b, Lerp(a, b, t))
    ensures t <= 0.0 ==> Lerp(a, b, t) == a
    ensures t >= 1.0 ==> Lerp(a, b, t) == b
  {
    ScaleWithinUnit(b - a, Clamp01(t));
  }

  /**
   Interpolation is monotone in its parameter: a later parameter gives a
   value no further from the target than an earlier one, so a ramp driven
   by growing elapsed time never backs away from its target.
   */
  lemma LerpMonotone(a: real, b: real, t1: real, t2: real)
    requires t1 <= t2
    ensures Between(Lerp(a, b, t1), b, Lerp(a, b, t2))
  {
    var d := b - a;
    var u1 := Clamp01(t1);
    var u2 := Clamp01(t2);
    Clamp01Monotone(t1, t2);
    var p1 := d * u1;
    var p2 := d * u2;
    ScaleWithinUnit(d, u2 - u1);
    assert p2 - p1 == d * (u2 - u1);
    ScaleWithinUnit(d, 1.0 - u2);
    assert d - p2 == d * (1.0 - u2);
    assert Lerp(a, b, t1) == a + p1;
    assert Lerp(a, b, t2) == a + p2;
  }

  /**
   Moves `current` toward `target` by at most `maxDelta`, stepping by
   `maxDelta` in the direction of the target (the engine's sign of a zero
   difference is positive; the first branch already covers that case for a
   non-negative step). For a non-negative step the result stays between the
   two, never overshoots the target, and either reaches the target or has
   moved by exactly `maxDelta`.
   */
  function MoveTowards(current: real, target: real, maxDelta: real): (r: real)
    ensures maxDelta >= 0.0 ==> Between(current, target, r)
    ensures maxDelta >= 0.0 ==> Abs(r - current) <= maxDelta
    ensures r == target || Abs(r - current) == Abs(maxDelta)
  {
    if Abs(target - current) <= maxDelta then target
    else if target >= current then current + maxDelta
    else current - maxDelta
  }
}
