/** The JavaScript numeric operations that app.js uses, over mathematical reals.
    Numbers are exact reals here: IEEE rounding is not modelled. */
module JsNumber {

  /** `Math.PI`: the IEEE double nearest to π, whose exact value is
      884279719003555 / 2^48. */
  const Pi: real := 884279719003555.0 / 281474976710656.0

  /** Whether x has no fractional part. */
  predicate IsInt(x: real) {
    x.Floor as real == x
  }

  /** `Math.floor`: the greatest integer not above x. */
  function Floor(x: real): (r: int)
    ensures r as real <= x < r as real + 1.0
  {
    x.Floor
  }

  /** `Math.min` of two numbers. */
  function Min(a: real, b: real): (r: real)
    ensures r <= a && r <= b
    ensures r == a || r == b
  {
    if a <= b then a else b
  }

  /** Rounding toward zero: the quotient that JavaScript's `%` divides by. */
  function Trunc(q: real): (r: int)
    ensures q >= 0.0 ==> 0 <= r && r as real <= q < r as real + 1.0
    ensures q < 0.0 ==> r <= 0 && r as real - 1.0 < q <= r as real
  {
    if q >= 0.0 then Floor(q) else -Floor(-q)
  }

  /** JavaScript's `%` on numbers (truncating division): the result takes the
      sign of the dividend, is smaller than the divisor in magnitude and
      differs from the dividend by a whole multiple of the divisor. */
  function Rem(x: real, m: real): (r: real)
    requires m > 0.0
    ensures -m < r < m
    ensures x >= 0.0 ==> 0.0 <= r
    ensures x <= 0.0 ==> r <= 0.0
    ensures IsInt((x - r) / m)
  {
    var t := Trunc(x / m) as real;
    assert -m < x - m * t < m && (x >= 0.0 ==> 0.0 <= x - m * t) && (x <= 0.0 ==> x - m * t <= 0.0) by {
      QuotientSign(x, m);
      if x / m >= 0.0 {
        RemainderBelow(x, m, t);
      } else {
        RemainderAbove(x, m, t);
      }
    }
    QuotientOfMultiple(m, t);
    x - m * t
  }

  /** The mathematical (floored) remainder: always in [0, m). */
  function FloorMod(x: real, m: real): (r: real)
    requires m > 0.0
    ensures 0.0 <= r < m
    ensures IsInt((x - r) / m)
  {
    var k := Floor(x / m) as real;
    RemainderBelow(x, m, k);
    QuotientOfMultiple(m, k);
    x - m * k
  }

  /** JavaScript's `%` on integer-valued numbers: truncating, like Rem. */
  function IntRem(a: int, b: int): (r: int)
    requires b > 0
    ensures -b < r < b
    ensures a >= 0 ==> r == a % b
    ensures a < 0 ==> r <= 0
    ensures (a - r) % b == 0
  {
    RemDifference(a, b);
    if a >= 0 then a % b else -((-a) % b)
  }

  lemma RemDifference(a: int, b: int)
    requires b > 0
    ensures a >= 0 ==> (a - a % b) % b == 0
    ensures a < 0 ==> (a + (-a) % b) % b == 0
  {
    if a >= 0 {
      assert a - a % b == b * (a / b);
      MultipleMod(b, a / b);
    } else {
      var q := (-a) / b;
      assert -a == b * q + (-a) % b;
      assert a + (-a) % b == b * -q;
      MultipleMod(b, -q);
    }
  }

  /** A whole multiple of b leaves no remainder. */
  lemma MultipleMod(b: int, k: int)
    requires b > 0
    ensures (b * k) % b == 0
  {
    var x := b * k;
    var q, r := x / b, x % b;
    assert x == b * q + r && 0 <= r < b;
    var d := k - q;
    assert r == b * d by {
      assert b * k - b * q == b * (k - q);
    }
    ProductBounds(b, d);
  }

  lemma ProductBounds(b: int, d: int)
    requires b > 0
    ensures d >= 1 ==> b * d >= b
    ensures d <= -1 ==> b * d <= -b
  {
    if d >= 1 {
      assert b * d - b == b * (d - 1);
    }
    if d <= -1 {
      assert b * d + b == b * (d + 1);
    }
  }

  // Facts of real arithmetic over a positive divisor, kept free of integers
  // so that the solver's nonlinear reasoning applies to them.

  lemma RemainderBelow(x: real, m: real, k: real)
    requires m > 0.0 && k <= x / m < k + 1.0
    ensures 0.0 <= x - m * k < m
  {
    var f := x / m - k;
    assert x - m * k == m * f;
  }

  lemma RemainderAbove(x: real, m: real, k: real)
    requires m > 0.0 && k - 1.0 < x / m <= k
    ensures -m < x - m * k <= 0.0
  {
    var f := k - x / m;
    assert x - m * k == -(m * f);
  }

  lemma QuotientOfMultiple(m: real, k: real)
    requires m > 0.0
    ensures (m * k) / m == k
  {
  }

  lemma QuotientSign(x: real, m: real)
    requires m > 0.0
    ensures x >= 0.0 <==> x / m >= 0.0
  {
    assert m * (x / m) == x;
  }

  lemma ScaleAtLeastOne(m: real, q: real)
    requires m > 0.0
    ensures q >= 1.0 ==> m * q >= m
  {
    if q >= 1.0 {
      assert m * q - m == m * (q - 1.0);
    }
  }

  lemma QuotientBelowOne(y: real, m: real)
    requires m > 0.0 && 0.0 <= y < m
    ensures 0.0 <= y / m < 1.0
  {
    var q := y / m;
    assert m * q == y;
    ScaleAtLeastOne(m, q);
    assert q >= 1.0 ==> m * q >= m;
    assert q < 1.0;
  }

  lemma QuotientSplit(x: real, y: real, m: real)
    requires m > 0.0
    ensures x / m == (x - y) / m + y / m
  {
    assert x == (x - y) + y;
  }

  lemma QuotientOfSum(a: real, b: real, m: real)
    requires m > 0.0
    ensures (a + b - m) / m == a / m + b / m - 1.0
  {
    assert m / m == 1.0;
    assert (a + b - m) / m == (a + b) / m - m / m;
    assert (a + b) / m == a / m + b / m;
  }

  lemma IntegerIsInt(k: int)
    ensures IsInt(k as real)
  {
  }

  lemma IsIntAdd(a: real, b: real)
    requires IsInt(a) && IsInt(b)
    ensures IsInt(a + b) && IsInt(a - b)
  {
    var ka, kb := a.Floor, b.Floor;
    assert a + b == (ka + kb) as real;
    assert a - b == (ka - kb) as real;
    IntegerIsInt(ka + kb);
    IntegerIsInt(ka - kb);
  }

  lemma ProductSign(w: real, t: real)
    requires w > 0.0
    ensures t >= 0.0 <==> w * t >= 0.0
    ensures t > 0.0 <==> w * t > 0.0
  {
  }

  lemma QuotientDifference(a: real, b: real, w: real)
    requires w > 0.0
    ensures b / w - a / w == (b - a) / w
  {
  }

  /** Dividing by a positive number preserves order. */
  lemma DivMonotone(a: real, b: real, w: real)
    requires w > 0.0
    ensures a <= b <==> a / w <= b / w
    ensures a < b <==> a / w < b / w
  {
    QuotientDifference(a, b, w);
    var q := (b - a) / w;
    assert w * q == b - a;
    ProductSign(w, q);
  }

  /** Comparing b with a multiple t of w is comparing b / w with t. */
  lemma SpanInUnits(b: real, w: real, t: real)
    requires w > 0.0
    ensures w * t <= b <==> t <= b / w
    ensures b < w * t <==> b / w < t
  {
    assert (w * t) / w == t;
    DivMonotone(w * t, b, w);
    DivMonotone(b, w * t, w);
  }

  /** Measuring in units of w commutes with the floored remainder. */
  lemma FloorModScale(x: real, m: real, w: real)
    requires m > 0.0 && w > 0.0
    ensures FloorMod(x, m) / w == FloorMod(x / w, m / w)
  {
    var r := FloorMod(x, m);
    var y := r / w;
    DivMonotone(0.0, r, w);
    DivMonotone(r, m, w);
    assert (x / w - y) / (m / w) == (x - r) / m by {
      QuotientDifference(r, x, w);
      assert x / w - y == (x - r) / w;
      assert ((x - r) / w) / (m / w) == (x - r) / m;
    }
    FloorModUnique(x / w, y, m / w);
  }

  /** A value in [0, m) that differs from x by a whole multiple of m is the
      floored remainder of x. */
  lemma FloorModUnique(x: real, y: real, m: real)
    requires m > 0.0
    requires 0.0 <= y < m
    requires IsInt((x - y) / m)
    ensures y == FloorMod(x, m)
  {
    var k := ((x - y) / m).Floor;
    QuotientSplit(x, y, m);
    QuotientBelowOne(y, m);
    assert Floor(x / m) == k;
    assert x - m * k as real == y by {
      assert (x - y) / m == k as real;
      assert m * ((x - y) / m) == x - y;
    }
  }

  /** Shifting by whole multiples of m does not change the floored remainder. */
  lemma FloorModShift(x: real, m: real, k: int)
    requires m > 0.0
    ensures FloorMod(x + m * k as real, m) == FloorMod(x, m)
  {
    var y := FloorMod(x, m);
    assert (x + m * k as real - y) / m == (x - y) / m + k as real by {
      QuotientOfMultiple(m, k as real);
      assert (x + m * k as real - y) / m == (x - y) / m + (m * k as real) / m;
    }
    IntegerIsInt(k);
    IsIntAdd((x - y) / m, k as real);
    FloorModUnique(x + m * k as real, y, m);
  }

  /** The `(x % m + m) % m` idiom computes the floored remainder. */
  lemma RemIdiomIsFloorMod(x: real, m: real)
    requires m > 0.0
    ensures Rem(Rem(x, m) + m, m) == FloorMod(x, m)
  {
    var r1 := Rem(x, m);
    var s := r1 + m;
    var r2 := Rem(s, m);
    assert 0.0 <= r2 < m;
    assert x - r2 == (x - r1) + (s - r2) - m;
    QuotientOfSum(x - r1, s - r2, m);
    IsIntAdd((x - r1) / m, (s - r2) / m);
    IntegerIsInt(1);
    IsIntAdd((x - r1) / m + (s - r2) / m, 1.0);
    FloorModUnique(x, r2, m);
  }
}
