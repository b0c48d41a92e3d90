/**
 Bezier and Catmull-Rom curves of core/methods/demo/PGraphics.java over the reals: vertices are produced by forward
 differences, three additions a vertex, and lie on the curve that bezierPoint and curvePoint evaluate.
 */
module Spline {

  // ----- Matrices -----

  datatype Vec = Vec(a: real, b: real, c: real, d: real)

  datatype Mat = Mat(r0: Vec, r1: Vec, r2: Vec, r3: Vec)

  function Dot(u: Vec, v: Vec): real { u.a * v.a + u.b * v.b + u.c * v.c + u.d * v.d }

  /** A row times a matrix. */
  function RowTimes(u: Vec, m: Mat): Vec {
    Vec(u.a * m.r0.a + u.b * m.r1.a + u.c * m.r2.a + u.d * m.r3.a,
        u.a * m.r0.b + u.b * m.r1.b + u.c * m.r2.b + u.d * m.r3.b,
        u.a * m.r0.c + u.b * m.r1.c + u.c * m.r2.c + u.d * m.r3.c,
        u.a * m.r0.d + u.b * m.r1.d + u.c * m.r2.d + u.d * m.r3.d)
  }

  /** PMatrix3D.apply: multiplication from the right. */
  function Apply(m: Mat, n: Mat): Mat {
    Mat(RowTimes(m.r0, n), RowTimes(m.r1, n), RowTimes(m.r2, n), RowTimes(m.r3, n))
  }

  /** A matrix times a column: the coefficients of the cubic with these control values. */
  function Times(m: Mat, v: Vec): Vec {
    Vec(Dot(m.r0, v), Dot(m.r1, v), Dot(m.r2, v), Dot(m.r3, v))
  }

  function Term(u: real, m: real, v: real): real { u * m * v }

  lemma ColumnSpreads(u: Vec, p: real, q: real, r: real, s: real, x: real)
    ensures (u.a * p + u.b * q + u.c * r + u.d * s) * x
         == Term(u.a, p, x) + Term(u.b, q, x) + Term(u.c, r, x) + Term(u.d, s, x)
  {
    Spread(u.a * p, u.b * q, u.c * r, u.d * s, x);
  }

  lemma RowSpreads(x: real, m: Vec, v: Vec)
    ensures x * Dot(m, v) == Term(x, m.a, v.a) + Term(x, m.b, v.b) + Term(x, m.c, v.c) + Term(x, m.d, v.d)
  {
    hide Term;
    Spread(m.a * v.a, m.b * v.b, m.c * v.c, m.d * v.d, x);
    Associates(x, m.a, v.a);
    Associates(x, m.b, v.b);
    Associates(x, m.c, v.c);
    Associates(x, m.d, v.d);
  }

  lemma Associates(u: real, m: real, v: real)
    ensures m * v * u == Term(u, m, v)
  {
  }

  lemma RowAssociates(u: Vec, m: Mat, v: Vec)
    ensures Dot(RowTimes(u, m), v) == Dot(u, Times(m, v))
  {
    hide Term;
    ColumnSpreads(u, m.r0.a, m.r1.a, m.r2.a, m.r3.a, v.a);
    ColumnSpreads(u, m.r0.b, m.r1.b, m.r2.b, m.r3.b, v.b);
    ColumnSpreads(u, m.r0.c, m.r1.c, m.r2.c, m.r3.c, v.c);
    ColumnSpreads(u, m.r0.d, m.r1.d, m.r2.d, m.r3.d, v.d);
    RowSpreads(u.a, m.r0, v);
    RowSpreads(u.b, m.r1, v);
    RowSpreads(u.c, m.r2, v);
    RowSpreads(u.d, m.r3, v);
  }

  lemma Spread(p: real, q: real, r: real, s: real, x: real)
    ensures (p + q + r + s) * x == p * x + q * x + r * x + s * x
  {
  }

  // ----- Cubics -----

  /** The cubic with coefficients k at t. */
  function Cubic(k: Vec, t: real): real {
    k.a * (t * t * t) + k.b * (t * t) + k.c * t + k.d
  }

  /** Differences of the cubic over steps of width f. */
  function D1(k: Vec, f: real, t: real): real { Cubic(k, t + f) - Cubic(k, t) }

  function D2(k: Vec, f: real, t: real): real { D1(k, f, t + f) - D1(k, f, t) }

  lemma Cube(t: real, f: real)
    ensures (t + f) * (t + f) == t * t + 2.0 * (t * f) + f * f
    ensures (t + f) * (t + f) * (t + f) == t * t * t + 3.0 * (t * t * f) + 3.0 * (t * f * f) + f * f * f
  {
  }

  lemma FirstDifference(k: Vec, f: real, t: real)
    ensures D1(k, f, t)
         == k.a * (3.0 * (t * t * f) + 3.0 * (t * f * f) + f * f * f) + k.b * (2.0 * (t * f) + f * f) + k.c * f
  {
    Cube(t, f);
  }

  lemma SecondDifference(k: Vec, f: real, t: real)
    ensures D2(k, f, t) == k.a * (6.0 * (t * f * f) + 6.0 * (f * f * f)) + k.b * (2.0 * (f * f))
  {
    FirstDifference(k, f, t);
    FirstDifference(k, f, t + f);
    assert (t + f) * f == t * f + f * f;
    assert (t + f) * (t + f) * f == t * t * f + 2.0 * (t * f * f) + f * f * f;
    assert (t + f) * f * f == t * f * f + f * f * f;
  }

  /** The third difference is the same everywhere. */
  lemma ThirdDifference(k: Vec, f: real, t: real)
    ensures D2(k, f, t + f) == D2(k, f, t) + k.a * (6.0 * (f * f * f))
  {
    SecondDifference(k, f, t);
    SecondDifference(k, f, t + f);
    assert (t + f) * f * f == t * f * f + f * f * f;
  }

  // ----- The two kinds of curve -----

  /** The width of a segment; that of none is never used. */
  function Width(segments: int): real { if segments == 0 then 0.0 else 1.0 / segments as real }

  function SplineForward(segments: int): Mat { Forward(Width(segments)) }

  /** The forward differences of a cubic in steps of width f. */
  function Forward(f: real): Mat {
    var ff := f * f;
    var fff := ff * f;
    Mat(Vec(0.0, 0.0, 0.0, 1.0),
        Vec(fff, ff, f, 0.0),
        Vec(6.0 * fff, 2.0 * ff, 0.0, 0.0),
        Vec(6.0 * fff, 0.0, 0.0, 0.0))
  }

  const BEZIER_BASIS: Mat :=
    Mat(Vec(-1.0, 3.0, -3.0, 1.0), Vec(3.0, -6.0, 3.0, 0.0), Vec(-3.0, 3.0, 0.0, 0.0), Vec(1.0, 0.0, 0.0, 0.0))

  function CurveBasis(s: real): Mat {
    Mat(Vec((s - 1.0) / 2.0, (s + 3.0) / 2.0, (-3.0 - s) / 2.0, (1.0 - s) / 2.0),
        Vec(1.0 - s, (-5.0 - s) / 2.0, s + 2.0, (s - 1.0) / 2.0),
        Vec((s - 1.0) / 2.0, 0.0, (1.0 - s) / 2.0, 0.0),
        Vec(0.0, 1.0, 0.0, 0.0))
  }

  function BezierPoint(a: real, b: real, c: real, d: real, t: real): real {
    var t1 := 1.0 - t;
    a * t1 * t1 * t1 + 3.0 * b * t * t1 * t1 + 3.0 * c * t * t * t1 + d * t * t * t
  }

  function CurvePoint(cb: Mat, a: real, b: real, c: real, d: real, t: real): real {
    var tt := t * t;
    var ttt := t * tt;
    a * (ttt * cb.r0.a + tt * cb.r1.a + t * cb.r2.a + cb.r3.a)
    + b * (ttt * cb.r0.b + tt * cb.r1.b + t * cb.r2.b + cb.r3.b)
    + c * (ttt * cb.r0.c + tt * cb.r1.c + t * cb.r2.c + cb.r3.c)
    + d * (ttt * cb.r0.d + tt * cb.r1.d + t * cb.r2.d + cb.r3.d)
  }

  lemma BezierIsCubic(v: Vec, t: real)
    ensures BezierPoint(v.a, v.b, v.c, v.d, t) == Cubic(Times(BEZIER_BASIS, v), t)
  {
  }

  lemma CurveIsCubic(cb: Mat, v: Vec, t: real)
    ensures CurvePoint(cb, v.a, v.b, v.c, v.d, t) == Cubic(Times(cb, v), t)
  {
  }

  lemma StartDifferences(k: Vec, f: real)
    ensures var forward := Forward(f);
      && Dot(forward.r0, k) == Cubic(k, 0.0)
      && Dot(forward.r1, k) == D1(k, f, 0.0) && Dot(forward.r2, k) == D2(k, f, 0.0)
      && Dot(forward.r3, k) == k.a * (6.0 * (f * f * f))
  {
    hide D1, D2;
    FirstDifference(k, f, 0.0);
    SecondDifference(k, f, 0.0);
  }

  /** The four rows give the start of the curve and its first three differences there. */
  lemma DrawMatrixDifferences(segments: int, basis: Mat, v: Vec)
    requires segments > 0
    ensures var m, k, f := Apply(SplineForward(segments), basis), Times(basis, v), 1.0 / segments as real;
      && Dot(m.r0, v) == Cubic(k, 0.0) && Dot(m.r1, v) == D1(k, f, 0.0) && Dot(m.r2, v) == D2(k, f, 0.0)
      && Dot(m.r3, v) == k.a * (6.0 * (f * f * f))
  {
    hide D1, D2, Forward, Dot, RowTimes, Times;
    var forward := SplineForward(segments);
    RowAssociates(forward.r0, basis, v);
    RowAssociates(forward.r1, basis, v);
    RowAssociates(forward.r2, basis, v);
    RowAssociates(forward.r3, basis, v);
    StartDifferences(Times(basis, v), 1.0 / segments as real);
  }

  // ----- The loops -----

  datatype Point = Point(x: real, y: real)

  /** The j-th vertex of a curve with coefficients kx and ky, in steps of width 1 / detail. */
  function CurveAt(kx: Vec, ky: Vec, detail: nat, j: nat): Point
    requires detail > 0
  {
    var t := j as real * (1.0 / detail as real);
    Point(Cubic(kx, t), Cubic(ky, t))
  }

  /** The vertices 1 to n of that curve. */
  function OnCurve(kx: Vec, ky: Vec, detail: nat, n: nat): (vertices: seq<Point>)
    requires detail > 0
    ensures |vertices| == n
  {
    seq(n, j requires 0 <= j < n => CurveAt(kx, ky, detail, j + 1))
  }

  /** The numbers of one coordinate at t. */
  ghost predicate Differences(k: Vec, f: real, t: real, x: real, plot1: real, plot2: real, plot3: real) {
    x == Cubic(k, t) && plot1 == D1(k, f, t) && plot2 == D2(k, f, t) && plot3 == k.a * (6.0 * (f * f * f))
  }

  /** Three additions lead to the next vertex. */
  lemma NextDifferences(k: Vec, f: real, t: real, x: real, plot1: real, plot2: real, plot3: real)
    requires Differences(k, f, t, x, plot1, plot2, plot3)
    ensures Differences(k, f, t + f, x + plot1, plot1 + plot2, plot2 + plot3, plot3)
  {
    ThirdDifference(k, f, t);
  }

  lemma OneMore(kx: Vec, ky: Vec, detail: nat, j: nat)
    requires detail > 0
    ensures OnCurve(kx, ky, detail, j + 1) == OnCurve(kx, ky, detail, j) + [CurveAt(kx, ky, detail, j + 1)]
  {
  }

  lemma NextVertex(kx: Vec, ky: Vec, detail: nat, j: nat, t: real, f: real)
    requires detail > 0 && f == 1.0 / detail as real && t == j as real * f
    ensures t + f == (j + 1) as real * f
    ensures CurveAt(kx, ky, detail, j + 1) == Point(Cubic(kx, t + f), Cubic(ky, t + f))
  {
    NextStep(j, f);
    CurveAtTime(kx, ky, detail, j + 1, t + f);
  }

  lemma CurveAtTime(kx: Vec, ky: Vec, detail: nat, j: nat, t: real)
    requires detail > 0 && t == j as real * (1.0 / detail as real)
    ensures CurveAt(kx, ky, detail, j) == Point(Cubic(kx, t), Cubic(ky, t))
  {
  }

  lemma NextStep(j: nat, f: real)
    ensures (j + 1) as real * f == j as real * f + f
  {
  }

  lemma PlotStart(detail: nat, basis: Mat, v: Vec, f: real)
    requires detail > 0 && f == 1.0 / detail as real
    ensures var (draw, k) := (Apply(SplineForward(detail), basis), Times(basis, v));
            Differences(k, f, 0.0, Cubic(k, 0.0), Dot(draw.r1, v), Dot(draw.r2, v), Dot(draw.r3, v))
  {
    DrawMatrixDifferences(detail, basis, v);
  }

  /** The common loop of bezierVertex and curveVertexSegment: `detail` vertices by forward differences. */
  method Plot(draw: Mat, ghost basis: Mat, detail: int, xs: Vec, ys: Vec, start: Point) returns (vertices: seq<Point>)
    requires draw == Apply(SplineForward(detail), basis)
    requires start == Point(Cubic(Times(basis, xs), 0.0), Cubic(Times(basis, ys), 0.0))
    ensures vertices == if detail > 0 then OnCurve(Times(basis, xs), Times(basis, ys), detail, detail) else []
  {
    var x, y := start.x, start.y;
    var xplot1, xplot2, xplot3 := Dot(draw.r1, xs), Dot(draw.r2, xs), Dot(draw.r3, xs);
    var yplot1, yplot2, yplot3 := Dot(draw.r1, ys), Dot(draw.r2, ys), Dot(draw.r3, ys);
    vertices := [];
    if detail <= 0 {
      return;
    }
    ghost var kx, ky, f := Times(basis, xs), Times(basis, ys), 1.0 / detail as real;
    PlotStart(detail, basis, xs, f);
    PlotStart(detail, basis, ys, f);
    ghost var t := 0.0;
    for j := 0 to detail
      invariant t == j as real * f && vertices == OnCurve(kx, ky, detail, j)
      invariant Differences(kx, f, t, x, xplot1, xplot2, xplot3)
      invariant Differences(ky, f, t, y, yplot1, yplot2, yplot3)
    {
      NextDifferences(kx, f, t, x, xplot1, xplot2, xplot3);
      NextDifferences(ky, f, t, y, yplot1, yplot2, yplot3);
      OneMore(kx, ky, detail, j);
      NextVertex(kx, ky, detail, j, t, f);
      t := t + f;
      x := x + xplot1;
      xplot1 := xplot1 + xplot2;
      xplot2 := xplot2 + xplot3;
      y := y + yplot1;
      yplot1 := yplot1 + yplot2;
      yplot2 := yplot2 + yplot3;
      vertices := vertices + [Point(x, y)];
    }
  }

  // ----- Shapes -----

  function BezierAt(p1: Point, p2: Point, p3: Point, p4: Point, detail: nat, j: nat): Point
    requires detail > 0
  {
    var t := j as real / detail as real;
    Point(BezierPoint(p1.x, p2.x, p3.x, p4.x, t), BezierPoint(p1.y, p2.y, p3.y, p4.y, t))
  }

  /** What bezierVertex adds after the vertex p1. */
  function BezierVertices(p1: Point, p2: Point, p3: Point, p4: Point, detail: int): (vertices: seq<Point>)
    ensures |vertices| == if detail > 0 then detail else 0
  {
    if detail > 0 then seq(detail, j requires 0 <= j < detail => BezierAt(p1, p2, p3, p4, detail, j + 1)) else []
  }

  function SegmentAt(tightness: real, p1: Point, p2: Point, p3: Point, p4: Point, detail: nat, j: nat): Point
    requires detail > 0
  {
    var t, cb := j as real / detail as real, CurveBasis(tightness);
    Point(CurvePoint(cb, p1.x, p2.x, p3.x, p4.x, t), CurvePoint(cb, p1.y, p2.y, p3.y, p4.y, t))
  }

  /** What curveVertexSegment adds. */
  function SegmentVertices(tightness: real, p1: Point, p2: Point, p3: Point, p4: Point, detail: int)
    : (vertices: seq<Point>)
    ensures |vertices| == 1 + if detail > 0 then detail else 0
  {
    if detail > 0 then seq(detail + 1, j requires 0 <= j <= detail => SegmentAt(tightness, p1, p2, p3, p4, detail, j))
    else [p2]
  }

  lemma StepTimes(j: nat, detail: nat)
    requires detail > 0
    ensures j as real * (1.0 / detail as real) == j as real / detail as real
  {
  }

  lemma BezierCoordinate(v: Vec, j: nat, detail: nat)
    requires detail > 0
    ensures Cubic(Times(BEZIER_BASIS, v), j as real * (1.0 / detail as real))
         == BezierPoint(v.a, v.b, v.c, v.d, j as real / detail as real)
  {
    StepTimes(j, detail);
    BezierIsCubic(v, j as real / detail as real);
  }

  lemma CurveCoordinate(cb: Mat, v: Vec, j: nat, detail: nat)
    requires detail > 0
    ensures Cubic(Times(cb, v), j as real * (1.0 / detail as real))
         == CurvePoint(cb, v.a, v.b, v.c, v.d, j as real / detail as real)
  {
    StepTimes(j, detail);
    CurveIsCubic(cb, v, j as real / detail as real);
  }

  /** The vertices by forward differences are the points of the Bezier curve. */
  lemma BezierOnCurve(p1: Point, p2: Point, p3: Point, p4: Point, detail: int)
    ensures var (xs, ys) := (Vec(p1.x, p2.x, p3.x, p4.x), Vec(p1.y, p2.y, p3.y, p4.y));
            detail > 0 ==>
            OnCurve(Times(BEZIER_BASIS, xs), Times(BEZIER_BASIS, ys), detail, detail)
            == BezierVertices(p1, p2, p3, p4, detail)
  {
    var xs, ys := Vec(p1.x, p2.x, p3.x, p4.x), Vec(p1.y, p2.y, p3.y, p4.y);
    forall j: nat | 1 <= j <= detail
      ensures CurveAt(Times(BEZIER_BASIS, xs), Times(BEZIER_BASIS, ys), detail, j)
           == BezierAt(p1, p2, p3, p4, detail, j)
    {
      BezierCoordinate(xs, j, detail);
      BezierCoordinate(ys, j, detail);
    }
  }

  lemma SegmentStart(s: real, p1: Point, p2: Point, p3: Point, p4: Point, detail: nat)
    requires detail > 0
    ensures SegmentAt(s, p1, p2, p3, p4, detail, 0) == p2
    ensures SegmentAt(s, p1, p2, p3, p4, detail, detail) == p3
  {
    assert 0 as real / detail as real == 0.0;
    assert detail as real / detail as real == 1.0;
    CurveEnds(s, p1.x, p2.x, p3.x, p4.x);
    CurveEnds(s, p1.y, p2.y, p3.y, p4.y);
  }

  /** The vertices by forward differences are the points of the Catmull-Rom segment. */
  lemma SegmentOnCurve(s: real, p1: Point, p2: Point, p3: Point, p4: Point, detail: int)
    ensures var (xs, ys) := (Vec(p1.x, p2.x, p3.x, p4.x), Vec(p1.y, p2.y, p3.y, p4.y));
            detail > 0 ==>
            [p2] + OnCurve(Times(CurveBasis(s), xs), Times(CurveBasis(s), ys), detail, detail)
            == SegmentVertices(s, p1, p2, p3, p4, detail)
  {
    var xs, ys := Vec(p1.x, p2.x, p3.x, p4.x), Vec(p1.y, p2.y, p3.y, p4.y);
    if detail > 0 {
      SegmentStart(s, p1, p2, p3, p4, detail);
    }
    forall j: nat | 1 <= j <= detail
      ensures CurveAt(Times(CurveBasis(s), xs), Times(CurveBasis(s), ys), detail, j)
           == SegmentAt(s, p1, p2, p3, p4, detail, j)
    {
      CurveCoordinate(CurveBasis(s), xs, j, detail);
      CurveCoordinate(CurveBasis(s), ys, j, detail);
    }
  }

  lemma SegmentBegins(s: real, p1: Point, p2: Point, p3: Point, p4: Point)
    ensures var (xs, ys) := (Vec(p1.x, p2.x, p3.x, p4.x), Vec(p1.y, p2.y, p3.y, p4.y));
            p2 == Point(Cubic(Times(CurveBasis(s), xs), 0.0), Cubic(Times(CurveBasis(s), ys), 0.0))
  {
  }

  /** The last vertex of a Bezier curve is its fourth control point. */
  lemma BezierEnds(p1: Point, p2: Point, p3: Point, p4: Point, detail: nat)
    requires detail > 0
    ensures BezierVertices(p1, p2, p3, p4, detail)[detail - 1] == p4
  {
    assert detail as real / detail as real == 1.0;
  }

  /** A segment starts at its second control point and ends at its third one, for any tightness, so that the next
      segment starts where it ends. */
  lemma SegmentsJoin(tightness: real, p1: Point, p2: Point, p3: Point, p4: Point, p5: Point, detail: nat)
    requires detail > 0
    ensures var u := SegmentVertices(tightness, p1, p2, p3, p4, detail);
            var v := SegmentVertices(tightness, p2, p3, p4, p5, detail);
            u[0] == p2 && u[detail] == p3 == v[0] && v[detail] == p4
  {
    SegmentStart(tightness, p1, p2, p3, p4, detail);
    SegmentStart(tightness, p2, p3, p4, p5, detail);
  }

  lemma CurveEnds(s: real, a: real, b: real, c: real, d: real)
    ensures CurvePoint(CurveBasis(s), a, b, c, d, 0.0) == b
    ensures CurvePoint(CurveBasis(s), a, b, c, d, 1.0) == c
  {
  }

  /** The parts of PGraphics that produce curves. */
  class Shape {
    var vertices: seq<Point>
    var curveVertices: seq<Point>
    var curveVertexCount: nat
    var bezierDetail: int
    var bezierDrawMatrix: Mat
    var curveDetail: int
    var curveTightness: real
    var curveBasisMatrix: Mat
    var curveDrawMatrix: Mat

    /** The matrices belong to the settings. */
    ghost predicate Valid()
      reads this
    {
      && bezierDrawMatrix == Apply(SplineForward(bezierDetail), BEZIER_BASIS)
      && curveBasisMatrix == CurveBasis(curveTightness)
      && curveDrawMatrix == Apply(SplineForward(curveDetail), curveBasisMatrix)
      && curveVertexCount <= |curveVertices|
    }

    /** The points given to curveVertex since the shape began. */
    ghost function CurvePoints(): seq<Point>
      requires curveVertexCount <= |curveVertices|
      reads this
    {
      curveVertices[..curveVertexCount]
    }

    constructor ()
      ensures Valid() && vertices == [] && CurvePoints() == []
    {
      hide SplineForward, Apply, CurveBasis;
      vertices, curveVertices, curveVertexCount := [], [], 0;
      bezierDetail, curveDetail, curveTightness := 20, 20, 0.0;
      bezierDrawMatrix := Apply(SplineForward(20), BEZIER_BASIS);
      curveBasisMatrix := CurveBasis(0.0);
      curveDrawMatrix := Apply(SplineForward(20), CurveBasis(0.0));
    }

    method BezierDetail(detail: int)
      requires Valid()
      modifies this`bezierDetail, this`bezierDrawMatrix
      ensures Valid() && bezierDetail == detail
    {
      hide SplineForward, Apply, CurveBasis;
      bezierDetail := detail;
      bezierDrawMatrix := SplineForward(detail);
      bezierDrawMatrix := Apply(bezierDrawMatrix, BEZIER_BASIS);
    }

    method CurveInit(detail: int, tightness: real)
      requires Valid()
      modifies this`curveDetail, this`curveTightness, this`curveBasisMatrix, this`curveDrawMatrix
      ensures Valid() && curveDetail == detail && curveTightness == tightness
    {
      hide SplineForward, Apply, CurveBasis;
      curveDetail, curveTightness := detail, tightness;
      curveBasisMatrix := CurveBasis(tightness);
      curveDrawMatrix := SplineForward(curveDetail);
      curveDrawMatrix := Apply(curveDrawMatrix, curveBasisMatrix);
    }

    /** bezierVertex: refused without a vertex to start from; otherwise the j-th new vertex is the point of the curve
        at j / detail. */
    method BezierVertex(p2: Point, p3: Point, p4: Point) returns (ok: bool)
      requires Valid()
      modifies this`vertices, this`curveVertexCount
      ensures Valid() && ok == (old(vertices) != [])
      ensures ok ==>
                var p1 := old(vertices)[|old(vertices)| - 1];
                && vertices == old(vertices) + BezierVertices(p1, p2, p3, p4, bezierDetail)
                && CurvePoints() == if bezierDetail > 0 then [] else old(CurvePoints())
      ensures !ok ==> vertices == old(vertices) && CurvePoints() == old(CurvePoints())
    {
      hide SplineForward, Apply;
      if vertices == [] {
        return false;
      }
      var p1 := vertices[|vertices| - 1];
      var xs, ys := Vec(p1.x, p2.x, p3.x, p4.x), Vec(p1.y, p2.y, p3.y, p4.y);
      BezierOnCurve(p1, p2, p3, p4, bezierDetail);
      BezierIsCubic(xs, 0.0);
      BezierIsCubic(ys, 0.0);
      var more := Plot(bezierDrawMatrix, BEZIER_BASIS, bezierDetail, xs, ys, p1);
      vertices := vertices + more;
      if more != [] {
        curveVertexCount := 0;  // as every call of vertex() does
      }
      ok := true;
    }

    /** curveVertex: from the fourth point on, each point adds a segment between the two points before it, and the
        points are kept for the next segment. */
    method CurveVertex(p: Point)
      requires Valid()
      modifies this`vertices, this`curveVertices, this`curveVertexCount
      ensures Valid() && CurvePoints() == old(CurvePoints()) + [p]
      ensures var n := |CurvePoints()|;
              vertices == old(vertices) + if n <= 3 then []
                else SegmentVertices(curveTightness, CurvePoints()[n - 4], CurvePoints()[n - 3], CurvePoints()[n - 2],
                                     p, curveDetail)
    {
      hide SplineForward, Apply, CurveBasis;
      ghost var points := CurvePoints() + [p];
      if curveVertexCount == |curveVertices| {
        curveVertices := curveVertices + [p];
      } else {
        curveVertices := curveVertices[curveVertexCount := p];
      }
      curveVertexCount := curveVertexCount + 1;
      assert CurvePoints() == points;
      if curveVertexCount > 3 {
        var n := curveVertexCount;
        CurveVertexSegment(curveVertices[n - 4], curveVertices[n - 3], curveVertices[n - 2], curveVertices[n - 1]);
      }
    }

    method CurveVertexSegment(p1: Point, p2: Point, p3: Point, p4: Point)
      requires Valid()
      modifies this`vertices, this`curveVertexCount
      ensures Valid() && curveVertexCount == old(curveVertexCount)
      ensures vertices == old(vertices) + SegmentVertices(curveTightness, p1, p2, p3, p4, curveDetail)
    {
      hide SplineForward, Apply;
      var xs, ys := Vec(p1.x, p2.x, p3.x, p4.x), Vec(p1.y, p2.y, p3.y, p4.y);
      SegmentOnCurve(curveTightness, p1, p2, p3, p4, curveDetail);
      SegmentBegins(curveTightness, p1, p2, p3, p4);
      var savedCount := curveVertexCount;
      vertices, curveVertexCount := vertices + [p2], 0;
      var more := Plot(curveDrawMatrix, curveBasisMatrix, curveDetail, xs, ys, p2);
      vertices, curveVertexCount := vertices + more, 0;
      curveVertexCount := savedCount;
    }
  }
}
