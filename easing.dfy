/** The pure arithmetic of the spin animation (app.js `easeOutCubic`, the
    progress and interpolation of `animate`, and the bounce of `bounceFrame`). */
module Easing {
  import opened JsNumber

  /** `Math.pow(x, 3)`. */
  function Cube(x: real): real {
    x * x * x
  }

  /** `easeOutCubic`: fast at first, slowing to a stop at t = 1. It maps
      [0, 1] into [0, 1]. */
  function EaseOutCubic(t: real): (e: real)
    ensures 0.0 <= t <= 1.0 ==> 0.0 <= e <= 1.0
  {
    CubeUnit(1.0 - t);
    1.0 - Cube(1.0 - t)
  }

  /** The easing starts at rest and ends exactly on its target. */
  lemma EaseOutCubicEnds()
    ensures EaseOutCubic(0.0) == 0.0
    ensures EaseOutCubic(1.0) == 1.0
  {
  }

  /** The easing never moves backwards: it is non-decreasing everywhere,
      in particular on [0, 1]. */
  lemma EaseOutCubicMonotone(s: real, t: real)
    requires s <= t
    ensures EaseOutCubic(s) <= EaseOutCubic(t)
  {
    CubeMonotone(1.0 - t, 1.0 - s);
  }

  /** Cubing keeps [0, 1] in place. */
  lemma CubeUnit(x: real)
    ensures 0.0 <= x <= 1.0 ==> 0.0 <= Cube(x) <= 1.0
  {
    if 0.0 <= x <= 1.0 {
      CubeMonotone(0.0, x);
      CubeMonotone(x, 1.0);
    }
  }

  /** Cubing preserves order. */
  lemma CubeMonotone(a: real, b: real)
    requires a <= b
    ensures Cube(a) <= Cube(b)
  {
    var d, c := b - a, a + b / 2.0;
    var q := a * a + a * b + b * b;
    assert Cube(b) - Cube(a) == d * q;
    assert q == c * c + 3.0 * (b * b) / 4.0;
    assert c * c >= 0.0 && b * b >= 0.0;
    assert d * q >= 0.0;
  }

  /** `Math.min(1, elapsed / duration)`: the share of a phase that has
      passed, capped at 1. It reaches 1 exactly when the phase's time is
      up, is 0 at the phase's first instant and is never negative once
      the phase has begun. */
  function Progress(elapsed: real, duration: real): (p: real)
    requires duration > 0.0
    ensures p <= 1.0
    ensures p == 1.0 <==> elapsed >= duration
    ensures elapsed == 0.0 ==> p == 0.0
    ensures 0.0 <= elapsed ==> 0.0 <= p
  {
    DivMonotone(elapsed, duration, duration);
    DivMonotone(0.0, elapsed, duration);
    Min(1.0, elapsed / duration)
  }

  /** `startAngle + (targetAngle - startAngle) * eased`: the angle part way
      from start to target. It is the start at 0, the target at 1, and
      between the two in between. */
  function Interpolate(start: real, target: real, eased: real): (r: real)
    ensures eased == 0.0 ==> r == start
    ensures eased == 1.0 ==> r == target
    ensures start <= target && 0.0 <= eased <= 1.0 ==> start <= r <= target
  {
    ProductBetween(target - start, eased);
    start + (target - start) * eased
  }

  /** A share e in [0, 1] of a non-negative span d lies between 0 and d. */
  lemma ProductBetween(d: real, e: real)
    ensures 0.0 <= d && 0.0 <= e <= 1.0 ==> 0.0 <= d * e <= d
  {
    assert d - d * e == d * (1.0 - e);
  }

  /** A share e in [0, 1] of a quantity d in [0, bound] stays in [0, bound]. */
  lemma ProductWithin(d: real, e: real, bound: real)
    requires 0.0 <= d <= bound && 0.0 <= e <= 1.0
    ensures 0.0 <= d * e <= bound
  {
    ProductBetween(d, e);
  }

  /** `bounceDur`: the settling bounce lasts 360 ms. */
  const BounceDuration: real := 360.0

  /** The properties of `Math.sin` the bounce relies on: it is 0 at 0 and
      lies in [0, 1] on [0, π]. */
  ghost predicate SineLike(sin: real -> real) {
    sin(0.0) == 0.0 &&
    forall x :: 0.0 <= x <= Pi ==> 0.0 <= sin(x) <= 1.0
  }

  /** `Math.sin(p * Math.PI) * overshoot * (1 - p)`: the bounce added to the
      settled angle. Whatever the sine, it has died away at p = 1. */
  function BounceOffset(sin: real -> real, p: real, overshoot: real): (b: real)
    ensures p == 1.0 ==> b == 0.0
  {
    sin(p * Pi) * overshoot * (1.0 - p)
  }

  /** The bounce starts from nothing, ends in nothing and in between stays
      on the forward side, never beyond the overshoot. */
  lemma BounceOffsetBounds(sin: real -> real, p: real, overshoot: real)
    requires SineLike(sin)
    requires 0.0 <= p <= 1.0 && 0.0 <= overshoot
    ensures BounceOffset(sin, 0.0, overshoot) == 0.0
    ensures BounceOffset(sin, 1.0, overshoot) == 0.0
    ensures 0.0 <= BounceOffset(sin, p, overshoot) <= overshoot
  {
    assert BounceOffset(sin, 0.0, overshoot) == 0.0 by {
      assert 0.0 * Pi == 0.0;
    }
    var s := sin(p * Pi);
    assert 0.0 <= s <= 1.0 by {
      ProductBetween(Pi, p);
      assert p * Pi == Pi * p;
    }
    var b := s * overshoot;
    assert 0.0 <= b <= overshoot by {
      ProductBetween(overshoot, s);
      assert b == overshoot * s;
    }
    ProductWithin(b, 1.0 - p, overshoot);
  }
}
