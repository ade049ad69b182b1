/** The wheel's categories and the resolution of its rotation angle to the
    category under the pointer at the top (app.js `categories`, `arc`, the
    sector layout of `drawWheel` and the index computation of `showResult`). */
module Geometry {
  import opened JsNumber

  /** One category of the wheel; the color and emoji only matter when drawing. */
  datatype Category = Category(name: string, color: string, emoji: string)

  /** The fixed, ordered categories; sector i is drawn from angle + i * Arc. */
  const Categories: seq<Category> := [
    Category("Sports", "rgba(255,119,35,1)", "\U{1F3C8}"),
    Category("Geography", "rgba(65,156,247,1)", "\U{1F30D}"),
    Category("Science", "rgba(28,227,88,1)", "\U{1F9EA}"),
    Category("History", "rgba(245,210,94,1)", "\U{1F3DB}\U{FE0F}"),
    Category("Art", "rgba(239,51,51,1)", "\U{1F3A8}")
  ]

  /** `categories.length`. It is written as the literal 5 rather than
      `|Categories|` so that the solver sees every sector boundary as a
      fixed number; `CategoryCount` ties the two together. */
  const N: nat := 5

  /** One full turn, `full` in showResult. */
  const FullTurn: real := 2.0 * Pi

  /** `arc`: the angular width of one category's sector. */
  const Arc: real := FullTurn / 5.0

  /** `N` and `Arc` are the category count and the sector width that the
      source derives from the category list. */
  lemma CategoryCount()
    ensures N == |Categories|
    ensures Arc == FullTurn / |Categories| as real
  {
  }

  /** The pointer is drawn at the top of the wheel, canvas angle -π/2. */
  const PointerAngle: real := -Pi / 2.0

  /** `adjusted` in showResult: the pointer's position measured in the
      wheel's own unrotated frame, brought into one turn. JavaScript's `%`
      keeps the sign of the dividend, so the source adds a turn and takes
      the remainder again; the result is the floored remainder. */
  function Adjusted(angle: real): (a: real)
    ensures 0.0 <= a < FullTurn
    ensures a == FloorMod(PointerAngle - angle, FullTurn)
  {
    RemIdiomIsFloorMod(PointerAngle - angle, FullTurn);
    Rem(Rem(PointerAngle - angle, FullTurn) + FullTurn, FullTurn)
  }

  /** The pointer's position in the wheel's own frame measured in sectors:
      `adjusted / arc`. Counted in sectors, it is the floored remainder
      modulo N of how many sectors the pointer lies from the wheel's origin. */
  function Position(angle: real): (p: real)
    ensures 0.0 <= p < N as real
    ensures p == FloorMod((PointerAngle - angle) / Arc, N as real)
  {
    var a := Adjusted(angle);
    assert FullTurn / Arc == N as real;
    DivMonotone(0.0, a, Arc);
    DivMonotone(a, FullTurn, Arc);
    FloorModScale(PointerAngle - angle, FullTurn, Arc);
    a / Arc
  }

  /** The index showResult computes: the sector whose half-open span holds
      the pointer, so that a position on a boundary belongs to the sector
      that starts there. The second reduction into [0, N) never changes
      the index. */
  function ResolveIndex(angle: real): (i: nat)
    ensures i < N
    ensures i as real <= Position(angle) < i as real + 1.0
  {
    var index := Floor(Adjusted(angle) / Arc);
    assert 0 <= index < N;
    ReduceInRange(index);
    IntRem(IntRem(index, N) + N, N)
  }

  /** `categories[index]`: the category showResult announces. */
  function Resolve(angle: real): (c: Category)
    ensures c in Categories
  {
    CategoryCount();
    Categories[ResolveIndex(angle)]
  }

  /** The half-open spans do not overlap: the sector holding the pointer is
      the only one. */
  lemma ResolveIndexUnique(angle: real, i: int)
    requires 0 <= i < N
    requires i as real <= Position(angle) < i as real + 1.0
    ensures ResolveIndex(angle) == i
  {
  }

  /** Resolution is periodic: angles a whole number of turns apart resolve
      to the same category. */
  lemma ResolvePeriodic(angle: real, k: int)
    ensures ResolveIndex(angle + FullTurn * k as real) == ResolveIndex(angle)
  {
    AdjustedPeriodic(angle, k);
  }

  /** Turning the wheel by whole turns does not move the pointer in the
      wheel's own frame. */
  lemma AdjustedPeriodic(angle: real, k: int)
    ensures Adjusted(angle + FullTurn * k as real) == Adjusted(angle)
  {
    var x := PointerAngle - angle;
    assert PointerAngle - (angle + FullTurn * k as real) == x + FullTurn * (-k) as real;
    FloorModShift(x, FullTurn, -k);
  }

  /** Turning the wheel forward by t sectors moves the pointer back t
      sectors in the wheel's frame: the new index is the floor of the old
      position less t, reduced modulo N. */
  lemma ResolveAfterTurn(angle: real, t: real)
    ensures ResolveIndex(angle + Arc * t) == Floor(Position(angle) - t) % N
  {
    PositionAfterTurn(angle, t);
    FloorOfReduced(Position(angle) - t);
  }

  /** Turning the wheel forward by t sectors moves the pointer's position
      back by t, modulo N. */
  lemma PositionAfterTurn(angle: real, t: real)
    ensures Position(angle + Arc * t) == FloorMod(Position(angle) - t, N as real)
  {
    var x := PointerAngle - angle;
    var u := x / Arc;
    var p := Position(angle);
    assert (PointerAngle - (angle + Arc * t)) / Arc == u - t by {
      QuotientDifference(Arc * t, x, Arc);
    }
    // p differs from u by whole multiples of N, so u - t and p - t reduce alike.
    var k := Floor(u / N as real);
    assert u - t == (p - t) + (N as real) * k as real;
    FloorModShift(p - t, N as real, k);
  }

  /** Reducing a sector position modulo N and then flooring it gives the
      floor of the position reduced modulo N. */
  lemma FloorOfReduced(z: real)
    ensures Floor(FloorMod(z, N as real)) == Floor(z) % N
  {
    var q := Floor(z / N as real);
    var r := FloorMod(z, N as real);
    assert z == r + (N as real) * q as real;
    assert Floor(z) == Floor(r) + N * q;
  }

  /** drawWheel fills sector i between canvas angles angle + i * Arc and
      angle + (i + 1) * Arc; this says that, k turns along, that span covers
      the pointer. */
  predicate CoversPointer(angle: real, i: int, k: int) {
    angle + Arc * i as real + FullTurn * k as real <= PointerAngle < angle + Arc * (i + 1) as real + FullTurn * k as real
  }

  /** Sector i is the one drawn under the pointer. */
  ghost predicate UnderPointer(angle: real, i: int) {
    exists k: int :: CoversPointer(angle, i, k)
  }

  /** Sector i covers the pointer k turns along exactly when the pointer's
      position, counted in sectors from the wheel's origin and taken k turns
      back, lies in [i, i + 1). */
  lemma CoversInSectors(angle: real, i: int, k: int)
    ensures CoversPointer(angle, i, k)
        <==> i as real <= (PointerAngle - angle) / Arc - (N * k) as real < i as real + 1.0
  {
    var x := PointerAngle - angle;
    var b := x - FullTurn * k as real;
    assert b / Arc == x / Arc - (N * k) as real by {
      QuotientDifference(FullTurn * k as real, x, Arc);
    }
    SpanInUnits(b, Arc, i as real);
    SpanInUnits(b, Arc, i as real + 1.0);
  }

  /** The category showResult announces is exactly the one drawWheel paints
      under the pointer: the resolved index is under it, and no other is. */
  lemma ResolveIsUnderPointer(angle: real, i: int)
    requires 0 <= i < N
    ensures UnderPointer(angle, i) <==> i == ResolveIndex(angle)
  {
    var u := (PointerAngle - angle) / Arc;
    var p := Position(angle);
    if i == ResolveIndex(angle) {
      var k := Floor(u / N as real);
      assert p == u - (N * k) as real;
      CoversInSectors(angle, i, k);
    }
    if UnderPointer(angle, i) {
      var k :| CoversPointer(angle, i, k);
      CoversInSectors(angle, i, k);
      var v := u - (N * k) as real;
      IntegerIsInt(k);
      assert (u - v) / N as real == k as real;
      FloorModUnique(u, v, N as real);
    }
  }

  /** The second reduction of showResult leaves an index already in range alone. */
  lemma ReduceInRange(i: int)
    requires 0 <= i < N
    ensures IntRem(IntRem(i, N) + N, N) == i
  {
  }

  /** At rest (angle 0, as the page loads) the pointer sits three and three
      quarter sectors round, over History. */
  lemma RestingCategory()
    ensures Position(0.0) == 3.75
    ensures Resolve(0.0).name == "History"
  {
    assert Adjusted(0.0) == 3.0 * Pi / 2.0 by {
      FloorModUnique(PointerAngle, 3.0 * Pi / 2.0, FullTurn);
    }
  }
}
