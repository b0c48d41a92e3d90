/**
 Which curves bezierPoint and curvePoint are: their slopes, as limits, and the weights they give to their points.
 */
module SplineProofs {
  import opened Spline

  // ----- Slopes -----

  function Abs(x: real): real { if x < 0.0 then -x else x }

  /** Within d of t, the line of this slope through the point at t is as near to the function as e times the way. */
  ghost predicate Near(f: real -> real, t: real, slope: real, e: real, d: real) {
    forall h :: 0.0 < Abs(h) < d ==> Abs(f(t + h) - f(t) - slope * h) <= e * Abs(h)
  }

  ghost predicate Approached(f: real -> real, t: real, slope: real, e: real) {
    exists d :: d > 0.0 && Near(f, t, slope, e, d)
  }

  /** The derivative of f at t. */
  ghost predicate HasSlope(f: real -> real, t: real, slope: real) {
    forall e :: e > 0.0 ==> Approached(f, t, slope, e)
  }

  function Slope(k: Vec, t: real): real { 3.0 * k.a * (t * t) + 2.0 * k.b * t + k.c }

  lemma Remainder(k: Vec, t: real, h: real)
    ensures Cubic(k, t + h) - Cubic(k, t) - Slope(k, t) * h == (3.0 * k.a * t + k.b + k.a * h) * (h * h)
  {
    Cube(t, h);
    assert k.a * ((t + h) * (t + h) * (t + h))
        == k.a * (t * t * t) + k.a * (3.0 * (t * t * h)) + k.a * (3.0 * (t * h * h)) + k.a * (h * h * h);
    assert k.b * ((t + h) * (t + h)) == k.b * (t * t) + k.b * (2.0 * (t * h)) + k.b * (h * h);
    assert k.c * (t + h) == k.c * t + k.c * h;
  }

  lemma AbsTimes(x: real, y: real)
    ensures Abs(x * y) == Abs(x) * Abs(y)
  {
  }

  lemma Scaled(x: real, y: real, z: real)
    requires x <= y && z >= 0.0
    ensures x * z <= y * z
  {
  }

  lemma AbsOfSum(a: real, b: real, h: real)
    requires Abs(h) < 1.0
    ensures Abs(b + a * h) <= Abs(a) + Abs(b) + 1.0
  {
    AbsTimes(a, h);
    Scaled(Abs(h), 1.0, Abs(a));
  }

  lemma RemainderSmall(x: real, p: real, h: real, bound: real, e: real)
    requires Abs(p) <= bound && Abs(h) * bound <= e && x == p * (h * h)
    ensures Abs(x) <= e * Abs(h)
  {
    AbsTimes(p, h * h);
    AbsTimes(h, h);
    SmallEnough(Abs(p), Abs(h), bound, e);
  }

  lemma SmallEnough(r: real, x: real, bound: real, e: real)
    requires r <= bound && x >= 0.0 && x * bound <= e
    ensures r * (x * x) <= e * x
  {
    Scaled(r, bound, x);
    Scaled(r * x, e, x);
  }

  lemma CubicHasSlope(k: Vec, f: real -> real, t: real)
    requires forall u :: f(u) == Cubic(k, u)
    ensures HasSlope(f, t, Slope(k, t))
  {
    hide Cubic, Slope, Abs;
    forall e | e > 0.0 ensures Approached(f, t, Slope(k, t), e) {
      CubicApproached(k, f, t, e);
    }
  }

  lemma CubicApproached(k: Vec, f: real -> real, t: real, e: real)
    requires (forall u :: f(u) == Cubic(k, u)) && e > 0.0
    ensures Approached(f, t, Slope(k, t), e)
  {
    hide Cubic, Slope, Abs;
    var a, b := k.a, 3.0 * k.a * t + k.b;
    var bound := Bound(a, b);
    var d := if e / bound < 1.0 then e / bound else 1.0;
    forall h | 0.0 < Abs(h) < d ensures Abs(f(t + h) - f(t) - Slope(k, t) * h) <= e * Abs(h) {
      Within(Abs(h), bound, e);
      CubicNear(k, t, h, e);
    }
    assert Near(f, t, Slope(k, t), e, d);
  }

  function Bound(a: real, b: real): (bound: real)
    ensures bound > 0.0
  {
    Abs(a) + Abs(b) + 1.0
  }

  lemma CubicNear(k: Vec, t: real, h: real, e: real)
    requires Abs(h) < 1.0 && Abs(h) * Bound(k.a, 3.0 * k.a * t + k.b) <= e
    ensures Abs(Cubic(k, t + h) - Cubic(k, t) - Slope(k, t) * h) <= e * Abs(h)
  {
    hide Cubic, Slope, Abs;
    var a, b := k.a, 3.0 * k.a * t + k.b;
    AbsOfSum(a, b, h);
    var x, p := Cubic(k, t + h) - Cubic(k, t) - Slope(k, t) * h, b + a * h;
    Remainder(k, t, h);
    RemainderSmall(x, p, h, Bound(a, b), e);
  }

  lemma Within(x: real, bound: real, e: real)
    requires bound > 0.0 && x < e / bound
    ensures x * bound <= e
  {
    Scaled(x, e / bound, bound);
  }

  // ----- The Catmull-Rom segment -----

  /** The cubic that runs from b to c, leaving with slope m and arriving with slope n. */
  function Hermite(b: real, c: real, m: real, n: real, t: real): real {
    var u := 1.0 - t;
    b * (u * u * (1.0 + 2.0 * t)) + c * (t * t * (3.0 - 2.0 * t)) + m * (t * u * u) - n * (t * t * u)
  }

  function HermiteCoefficients(b: real, c: real, m: real, n: real): Vec {
    Vec(2.0 * b - 2.0 * c + m + n, 3.0 * c - 3.0 * b - 2.0 * m - n, m, b)
  }

  lemma HermiteIsCubic(b: real, c: real, m: real, n: real, t: real)
    ensures Hermite(b, c, m, n, t) == Cubic(HermiteCoefficients(b, c, m, n), t)
  {
    var u := 1.0 - t;
    assert u * u == 1.0 - 2.0 * t + t * t;
    assert u * u * (1.0 + 2.0 * t) == 1.0 - 3.0 * (t * t) + 2.0 * (t * t * t);
    assert t * u * u == t - 2.0 * (t * t) + t * t * t;
    assert t * t * u == t * t - t * t * t;
    assert t * t * (3.0 - 2.0 * t) == 3.0 * (t * t) - 2.0 * (t * t * t);
  }

  /** What a tightness leaves of half the way between two points. */
  function Tangent(tightness: real, x: real, y: real): real { (1.0 - tightness) / 2.0 * (y - x) }

  lemma CurveCoefficients(s: real, v: Vec)
    ensures Times(CurveBasis(s), v)
         == HermiteCoefficients(v.b, v.c, Tangent(s, v.a, v.c), Tangent(s, v.b, v.d))
  {
  }

  /** curvePoint is the cubic between its second and third point whose slope at either is half of (1 - tightness)
      times the way between the points on both sides of it. */
  lemma CurveIsHermite(s: real, a: real, b: real, c: real, d: real, t: real)
    ensures CurvePoint(CurveBasis(s), a, b, c, d, t)
         == Hermite(b, c, Tangent(s, a, c), Tangent(s, b, d), t)
  {
    hide Tangent, CurveBasis, CurvePoint, Hermite, HermiteCoefficients, Times, Cubic;
    CurveIsCubic(CurveBasis(s), Vec(a, b, c, d), t);
    CurveCoefficients(s, Vec(a, b, c, d));
    HermiteIsCubic(b, c, Tangent(s, a, c), Tangent(s, b, d), t);
  }

  function CurveCoordinateAt(s: real, a: real, b: real, c: real, d: real): real -> real {
    t => CurvePoint(CurveBasis(s), a, b, c, d, t)
  }

  lemma HermiteSlopes(b: real, c: real, m: real, n: real)
    ensures Slope(HermiteCoefficients(b, c, m, n), 0.0) == m && Slope(HermiteCoefficients(b, c, m, n), 1.0) == n
  {
  }

  /** The slopes at the two ends of a segment, as limits. */
  lemma CurveSlopes(s: real, a: real, b: real, c: real, d: real)
    ensures HasSlope(CurveCoordinateAt(s, a, b, c, d), 0.0, Tangent(s, a, c))
    ensures HasSlope(CurveCoordinateAt(s, a, b, c, d), 1.0, Tangent(s, b, d))
  {
    hide Tangent, CurveBasis, CurvePoint, HermiteCoefficients, Times, Cubic, HasSlope, Slope;
    var v, f := Vec(a, b, c, d), CurveCoordinateAt(s, a, b, c, d);
    var k := Times(CurveBasis(s), v);
    forall u ensures f(u) == Cubic(k, u) {
      CurveIsCubic(CurveBasis(s), v, u);
    }
    CurveCoefficients(s, v);
    HermiteSlopes(b, c, Tangent(s, a, c), Tangent(s, b, d));
    CubicHasSlope(k, f, 0.0);
    CubicHasSlope(k, f, 1.0);
  }

  /** Consecutive segments join with one slope, for any tightness. */
  lemma SegmentsJoinSmoothly(s: real, p1: real, p2: real, p3: real, p4: real, p5: real)
    ensures var slope := Tangent(s, p2, p4);
      && HasSlope(CurveCoordinateAt(s, p1, p2, p3, p4), 1.0, slope)
      && HasSlope(CurveCoordinateAt(s, p2, p3, p4, p5), 0.0, slope)
  {
    hide HasSlope, CurveCoordinateAt;
    CurveSlopes(s, p1, p2, p3, p4);
    CurveSlopes(s, p2, p3, p4, p5);
  }

  // ----- The Bezier curve -----

  function Between(a: real, b: real, t: real): real { a + (b - a) * t }

  /** bezierPoint goes t of the way between points that go t of the way between the control points. */
  lemma DeCasteljau(a: real, b: real, c: real, d: real, t: real)
    ensures var (ab, bc, cd) := (Between(a, b, t), Between(b, c, t), Between(c, d, t));
            BezierPoint(a, b, c, d, t) == Between(Between(ab, bc, t), Between(bc, cd, t), t)
  {
  }

  function BezierCoordinateAt(a: real, b: real, c: real, d: real): real -> real {
    t => BezierPoint(a, b, c, d, t)
  }

  /** It leaves its first point for the second one and arrives at the last one from the third one. */
  lemma BezierSlopes(a: real, b: real, c: real, d: real)
    ensures HasSlope(BezierCoordinateAt(a, b, c, d), 0.0, 3.0 * (b - a))
    ensures HasSlope(BezierCoordinateAt(a, b, c, d), 1.0, 3.0 * (d - c))
  {
    hide BezierPoint, Cubic, HasSlope;
    var v, f := Vec(a, b, c, d), BezierCoordinateAt(a, b, c, d);
    var k := Times(BEZIER_BASIS, v);
    forall u ensures f(u) == Cubic(k, u) {
      BezierIsCubic(v, u);
    }
    CubicHasSlope(k, f, 0.0);
    CubicHasSlope(k, f, 1.0);
  }
}
