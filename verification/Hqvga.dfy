/**
 Drawing on the flat frame buffer of libraries/HQVGA/HQVGA.cpp: Bresenham lines that stop on address equality,
 and the rectangle move that is safe for overlapping rectangles.

 A pointer into the frame buffer is an index into `mem`, one word per pixel.
 */
module Hqvga {
  import opened Arithmetic

  const HSIZE: nat := 160
  const VSIZE: nat := 120

  datatype Point = Point(x: int, y: int)

  predicate OnScreen(p: Point) { 0 <= p.x < HSIZE && 0 <= p.y < VSIZE }

  /** getBasePointer(x, y). */
  function Address(p: Point): int { p.x + p.y * HSIZE }

  lemma AddressInjective(p: Point, q: Point)
    requires OnScreen(p) && OnScreen(q) && Address(p) == Address(q)
    ensures p == q
  {
  }

  // ----- The digital line -----

  function Abs(x: int): nat { if x > 0 then x else -1 * x }

  function Sign(from: int, to: int): int { if from < to then 1 else -1 }

  /** The coordinate `d` steps on the way from one to another. */
  function Toward(from: int, to: int, d: int): int { if from < to then from + d else from - d }

  /** The offset m * n / M of the ideal line after `n` of its M steps, rounded to the nearest integer, and a tie
      towards the start of the line. */
  function Rounded(M: nat, m: nat, n: nat): int {
    if M == 0 then 0 else (2 * m * n + M - 1) / (2 * M)
  }

  /** The line has one pixel for every step along its longer side. */
  function Steps(p: Point, q: Point): nat {
    if Abs(q.x - p.x) >= Abs(q.y - p.y) then Abs(q.x - p.x) else Abs(q.y - p.y)
  }

  function LinePoint(p: Point, q: Point, n: nat): Point {
    var dx, dy := Abs(q.x - p.x), Abs(q.y - p.y);
    if dx >= dy then Point(Toward(p.x, q.x, n), Toward(p.y, q.y, Rounded(dx, dy, n)))
    else Point(Toward(p.x, q.x, Rounded(dy, dx, n)), Toward(p.y, q.y, n))
  }

  /** After n of M steps along the longer side and k of m along the shorter, the ideal line is within half a unit. */
  ghost predicate Near(M: nat, m: nat, n: nat, k: int) {
    m <= M && (if M == 0 then n == k == 0 else 0 <= M + 2 * (M * k - m * n) < 2 * M)
  }

  lemma NearIsRounded(M: nat, m: nat, n: nat, k: int)
    requires M > 0
    ensures 0 <= M + 2 * (M * k - m * n) < 2 * M <==> k == Rounded(M, m, n)
  {
    var a, b := 2 * m * n + M - 1, 2 * M;
    assert M + 2 * (M * k - m * n) == b * k - a + b - 1;
    if b * k <= a < b * k + b {
      QuotientIs(a, b, k, a - b * k);
    }
  }

  lemma NearBounds(M: nat, m: nat, n: nat, k: int)
    requires Near(M, m, n, k) && n <= M
    ensures 0 <= k <= m
  {
    Grows(m, n, M);
    if k < 0 {
      Grows(M, k, -1);
    } else if k > m {
      Grows(M, m + 1, k);
    }
  }

  lemma NearEnd(M: nat, m: nat, k: int)
    requires Near(M, m, M, k)
    ensures k == m
  {
    NearBounds(M, m, M, k);
    if k < m {
      Grows(M, k, m - 1);
    }
  }

  lemma NearDiagonal(M: nat, n: nat, k: int)
    requires Near(M, M, n, k)
    ensures k == n
  {
    if M > 0 && k != n {
      assert M + 2 * (M * k - M * n) == M * (2 * (k - n) + 1);
      if k < n {
        Grows(M, 2 * (k - n) + 1, -1);
      } else {
        Grows(M, 2, 2 * (k - n) + 1);
      }
    }
  }

  /** The test that the loop makes on the doubled error, for the longer side and for the shorter one. */
  lemma NearStep(M: nat, m: nat, n: nat, k: int)
    requires Near(M, m, n, k) && n < M
    ensures var D := M * k - m * n;
            && 2 * M + 2 * D > m
            && Near(M, m, n + 1, if M + 2 * (D - m) < 0 then k + 1 else k)
  {
    assert m * (n + 1) == m * n + m;
    assert M * (k + 1) == M * k + M;
    if M == m {
      NearDiagonal(M, n, k);
    }
  }

  /** Where the line is. Its first and last pixels are the end points, it stays in their bounding box, goes from
      pixel to neighbouring pixel along its longer side, and no pixel is further than half a unit from the
      ideal line. */
  lemma {:induction false} LineIsNear(M: nat, m: nat, n: nat)
    requires m <= M && n <= M
    ensures Near(M, m, n, Rounded(M, m, n))
    ensures 0 <= Rounded(M, m, n) <= m
    ensures Rounded(M, m, 0) == 0 && (n == M ==> Rounded(M, m, n) == m)
    ensures n < M ==> 0 <= Rounded(M, m, n + 1) - Rounded(M, m, n) <= 1
  {
    if M > 0 {
      var k := Rounded(M, m, n);
      NearIsRounded(M, m, n, k);
      NearIsRounded(M, m, 0, 0);
      NearBounds(M, m, n, k);
      if n == M {
        NearEnd(M, m, k);
      } else {
        NearStep(M, m, n, k);
        var k' := if M + 2 * (M * k - m * n - m) < 0 then k + 1 else k;
        NearIsRounded(M, m, n + 1, k');
      }
    }
  }

  predicate Between(a: int, b: int, c: int) { a <= b <= c || c <= b <= a }

  lemma LineEnds(p: Point, q: Point)
    ensures LinePoint(p, q, 0) == p && LinePoint(p, q, Steps(p, q)) == q
  {
    var dx, dy := Abs(q.x - p.x), Abs(q.y - p.y);
    LineIsNear(if dx >= dy then dx else dy, if dx >= dy then dy else dx, Steps(p, q));
  }

  lemma LineInBox(p: Point, q: Point, n: nat)
    requires n <= Steps(p, q)
    ensures Between(p.x, LinePoint(p, q, n).x, q.x) && Between(p.y, LinePoint(p, q, n).y, q.y)
  {
    var dx, dy := Abs(q.x - p.x), Abs(q.y - p.y);
    LineIsNear(if dx >= dy then dx else dy, if dx >= dy then dy else dx, n);
  }

  lemma LineOnScreen(p: Point, q: Point, n: nat)
    requires OnScreen(p) && OnScreen(q) && n <= Steps(p, q)
    ensures OnScreen(LinePoint(p, q, n))
  {
    LineInBox(p, q, n);
  }

  lemma LineNeighbours(p: Point, q: Point, n: nat)
    requires n < Steps(p, q)
    ensures var (a, b) := (LinePoint(p, q, n), LinePoint(p, q, n + 1));
            a != b && Abs(b.x - a.x) <= 1 && Abs(b.y - a.y) <= 1
  {
    var dx, dy := Abs(q.x - p.x), Abs(q.y - p.y);
    LineIsNear(if dx >= dy then dx else dy, if dx >= dy then dy else dx, n);
  }

  /** No pixel of a line comes twice. */
  lemma LineDistinct(p: Point, q: Point, m: nat, n: nat)
    requires OnScreen(p) && OnScreen(q) && m < n <= Steps(p, q)
    ensures Address(LinePoint(p, q, m)) != Address(LinePoint(p, q, n))
  {
    LineOnScreen(p, q, m);
    LineOnScreen(p, q, n);
    if Address(LinePoint(p, q, m)) == Address(LinePoint(p, q, n)) {
      AddressInjective(LinePoint(p, q, m), LinePoint(p, q, n));
      assert false;
    }
  }

  /** Twice the distance from the ideal line, measured along the shorter side, is at most one. */
  lemma LineNearIdeal(p: Point, q: Point, n: nat)
    requires n <= Steps(p, q)
    ensures var (dx, dy, a) := (Abs(q.x - p.x), Abs(q.y - p.y), LinePoint(p, q, n));
            2 * Abs(dx * Abs(a.y - p.y) - dy * Abs(a.x - p.x)) <= Steps(p, q)
  {
    var dx, dy := Abs(q.x - p.x), Abs(q.y - p.y);
    var M, m := if dx >= dy then dx else dy, if dx >= dy then dy else dx;
    LineIsNear(M, m, n);
    var a := LinePoint(p, q, n);
    assert Abs(a.x - p.x) == if dx >= dy then n else Rounded(dy, dx, n);
    assert Abs(a.y - p.y) == if dx >= dy then Rounded(dx, dy, n) else n;
  }

  // ----- Frame buffers -----

  /** The first `count` pixels of the line in color `c`, every other cell as it was. */
  ghost predicate Painted(before: seq<nat>, after: seq<nat>, c: nat, p: Point, q: Point, count: nat) {
    && |after| == |before|
    && (forall n :: 0 <= n < count && n <= Steps(p, q) && 0 <= Address(LinePoint(p, q, n)) < |after| ==>
          after[Address(LinePoint(p, q, n))] == c)
    && (forall a :: 0 <= a < |after| && (forall n :: 0 <= n < count ==> Address(LinePoint(p, q, n)) != a) ==>
          after[a] == before[a])
  }

  /** A rectangle of the frame buffer, and the cells it consists of. */
  datatype Rect = Rect(x: nat, y: nat, width: nat, height: nat) {
    predicate OnScreen() { x + width <= HSIZE && y + height <= VSIZE }
    function Base(): nat { x + y * HSIZE }
    predicate Holds(a: int) { x <= a % HSIZE < x + width && y <= a / HSIZE < y + height }
  }

  /** Two rectangles of one size on the screen: what is moved from and to. */
  ghost predicate SameSize(s: Rect, t: Rect) {
    s.OnScreen() && t.OnScreen() && s.width == t.width && s.height == t.height
  }

  /** A frame buffer after the move of s to t: the cells of t hold what those of s held before, even if the two
      overlap, and every other cell is unchanged. */
  ghost function Moved(m: seq<nat>, s: Rect, t: Rect): (r: seq<nat>)
    requires SameSize(s, t) && |m| == HSIZE * VSIZE
    ensures |r| == |m|
  {
    seq(|m|, a requires 0 <= a < |m| => if t.Holds(a) then m[a - t.Base() + s.Base()] else m[a])
  }

  /** Read by rows and columns, this is a two-dimensional memmove. */
  lemma MovedCell(m: seq<nat>, s: Rect, t: Rect, r: nat, c: nat)
    requires SameSize(s, t) && |m| == HSIZE * VSIZE && r < t.height && c < t.width
    ensures 0 <= Address(Point(s.x + c, s.y + r)) < |m| && 0 <= Address(Point(t.x + c, t.y + r)) < |m|
    ensures Moved(m, s, t)[Address(Point(t.x + c, t.y + r))] == m[Address(Point(s.x + c, s.y + r))]
  {
    var a := Address(Point(t.x + c, t.y + r));
    assert a / HSIZE == t.y + r && a % HSIZE == t.x + c;
  }

  /** Nothing moves between the end of a row and the start of the next. */
  lemma MovedGap(m: seq<nat>, s: Rect, t: Rect, r: int, a: int)
    requires SameSize(s, t) && |m| == HSIZE * VSIZE && 0 <= a < |m|
    requires t.Base() + r * HSIZE + t.width <= a < t.Base() + (r + 1) * HSIZE
          || a < t.Base() || a >= t.Base() + (t.height - 1) * HSIZE + t.width
    ensures Moved(m, s, t)[a] == m[a]
  {
    assert !t.Holds(a);
  }

  /** The cells with addresses in from..to are those of `goal`, the others are still those of `m`. */
  ghost predicate Mixed(m: seq<nat>, goal: seq<nat>, now: seq<nat>, from: int, to: int) {
    && |now| == |goal| == |m|
    && forall a :: 0 <= a < |m| ==> now[a] == if from <= a < to then goal[a] else m[a]
  }

  lemma MixedGap(m: seq<nat>, s: Rect, t: Rect, now: seq<nat>, r: int)
    requires SameSize(s, t) && |m| == HSIZE * VSIZE
    ensures var (goal, end, next) := (Moved(m, s, t), t.Base() + r * HSIZE + t.width, t.Base() + (r + 1) * HSIZE);
            && (Mixed(m, goal, now, 0, end) ==> Mixed(m, goal, now, 0, next))
            && (Mixed(m, goal, now, next, |m|) ==> Mixed(m, goal, now, end, |m|))
  {
    var goal := Moved(m, s, t);
    forall a | 0 <= a < |m| && t.Base() + r * HSIZE + t.width <= a < t.Base() + (r + 1) * HSIZE
      ensures goal[a] == m[a]
    {
      MovedGap(m, s, t, r, a);
    }
  }

  lemma MixedDone(m: seq<nat>, s: Rect, t: Rect, now: seq<nat>, from: int, to: int)
    requires SameSize(s, t) && |m| == HSIZE * VSIZE && Mixed(m, Moved(m, s, t), now, from, to)
    requires from <= t.Base() && to >= t.Base() + t.height * HSIZE - HSIZE + t.width
    ensures now == Moved(m, s, t)
  {
    forall a | 0 <= a < |m| && !(from <= a < to) ensures Moved(m, s, t)[a] == m[a] {
      MovedGap(m, s, t, 0, a);
    }
  }

  class Vga {
    const mem: array<nat>
    var fg: nat

    ghost predicate Valid() { mem.Length == HSIZE * VSIZE }

    constructor ()
      ensures Valid() && fresh(mem)
    {
      mem := new nat[HSIZE * VSIZE];
      fg := 0;
    }

    /** Paints the pixels of the line from p to q, all of them, and nothing else; the loop is left at q and
        nowhere else, after as many moves as the longer side has. */
    method DrawLine(x0: int, y0: int, x1: int, y1: int) returns (ghost moves: nat)
      requires Valid() && OnScreen(Point(x0, y0)) && OnScreen(Point(x1, y1))
      modifies mem
      ensures Painted(old(mem[..]), mem[..], fg, Point(x0, y0), Point(x1, y1), moves + 1)
      ensures moves == Steps(Point(x0, y0), Point(x1, y1))
    {
      ghost var p, q := Point(x0, y0), Point(x1, y1);
      var dx: int, dy: int := Abs(x1 - x0), Abs(y1 - y0);
      var sx, sy := Sign(x0, x1), Sign(y0, y1);
      var err := dx - dy;
      var px, epx := Address(Point(x0, y0)), Address(Point(x1, y1));
      moves := 0;
      ghost var N := Steps(p, q);
      LineEnds(p, q);
      while true
        invariant moves <= N && px == Address(LinePoint(p, q, moves))
        invariant err == Error(p, q, moves)
        invariant Painted(old(mem[..]), mem[..], fg, p, q, moves)
        decreases N - moves
      {
        LineOnScreen(p, q, moves);
        PaintNext(old(mem[..]), mem[..], fg, p, q, moves);
        mem[px] := fg;
        if px == epx {
          AddressInjective(LinePoint(p, q, moves), q);
          LastPixelIsEnd(p, q, moves);
          break;
        }
        err, px := Advance(p, q, moves, err, px, dx, dy, sx, sy);
        moves := moves + 1;
      }
    }

    /** moveArea, for rectangles that overlap or not. */
    method MoveArea(x: nat, y: nat, width: nat, height: nat, tx: nat, ty: nat)
      requires Valid() && SameSize(Rect(x, y, width, height), Rect(tx, ty, width, height))
      modifies mem
      ensures mem[..] == Moved(old(mem[..]), Rect(x, y, width, height), Rect(tx, ty, width, height))
    {
      var vsource, vtarget := Address(Point(x, y)), Address(Point(tx, ty));
      if vtarget > vsource {
        MoveBackward(Rect(x, y, width, height), Rect(tx, ty, width, height));
      } else {
        MoveForward(Rect(x, y, width, height), Rect(tx, ty, width, height));
      }
    }

    /** The branch of moveArea for a target that does not come after the source. */
    method MoveForward(s: Rect, t: Rect)
      requires Valid() && SameSize(s, t) && t.Base() <= s.Base()
      modifies mem
      ensures mem[..] == Moved(old(mem[..]), s, t)
    {
      ghost var m := mem[..];
      ghost var goal := Moved(m, s, t);
      var vsource: int, vtarget: int := s.Base(), t.Base();
      var height, w := t.height, 0;
      ghost var r := 0;
      MixedStart(m, s, t, 0, vtarget);
      while height > 0
        invariant r + height == t.height && vtarget == t.Base() + r * HSIZE && vsource == s.Base() + r * HSIZE
        invariant Mixed(m, goal, mem[..], 0, vtarget)
      {
        height := height - 1;
        w := 0;
        while w < t.width
          invariant 0 <= w <= t.width
          invariant vtarget == t.Base() + r * HSIZE + w && vsource == s.Base() + r * HSIZE + w
          invariant Mixed(m, goal, mem[..], 0, vtarget)
        {
          MovedCell(m, s, t, r, w);
          mem[vtarget] := mem[vsource];
          vtarget, vsource, w := vtarget + 1, vsource + 1, w + 1;
        }
        MixedGap(m, s, t, mem[..], r);
        vsource, vtarget := vsource + (HSIZE - t.width), vtarget + (HSIZE - t.width);
        r := r + 1;
      }
      MixedDone(m, s, t, mem[..], 0, vtarget);
    }

    /** The branch of moveArea for a target that comes after the source: the last cell first. */
    method MoveBackward(s: Rect, t: Rect)
      requires Valid() && SameSize(s, t) && t.Base() > s.Base()
      modifies mem
      ensures mem[..] == Moved(old(mem[..]), s, t)
    {
      ghost var m := mem[..];
      ghost var goal := Moved(m, s, t);
      var vsource: int, vtarget: int := s.Base(), t.Base();
      var height: int, w := t.height, 0;
      vsource := vsource + (height - 1) * HSIZE + t.width - 1;
      vtarget := vtarget + (height - 1) * HSIZE + t.width - 1;
      MixedStart(m, s, t, vtarget + 1, |m|);
      while height > 0
        invariant 0 <= height <= t.height
        invariant vtarget == t.Base() + (height - 1) * HSIZE + t.width - 1
        invariant vsource == s.Base() + (height - 1) * HSIZE + t.width - 1
        invariant Mixed(m, goal, mem[..], vtarget + 1, |m|)
      {
        height := height - 1;
        w := 0;
        while w < t.width
          invariant 0 <= w <= t.width
          invariant vtarget == t.Base() + height * HSIZE + t.width - 1 - w
          invariant vsource == s.Base() + height * HSIZE + t.width - 1 - w
          invariant Mixed(m, goal, mem[..], vtarget + 1, |m|)
        {
          MovedCell(m, s, t, height, t.width - 1 - w);
          mem[vtarget] := mem[vsource];
          vtarget, vsource, w := vtarget - 1, vsource - 1, w + 1;
        }
        MixedGap(m, s, t, mem[..], height - 1);
        vsource, vtarget := vsource - (HSIZE - t.width), vtarget - (HSIZE - t.width);
      }
      MixedDone(m, s, t, mem[..], vtarget + 1, |m|);
    }
  }

  lemma MixedStart(m: seq<nat>, s: Rect, t: Rect, from: int, to: int)
    requires SameSize(s, t) && |m| == HSIZE * VSIZE
    requires to <= t.Base() || from >= t.Base() + (t.height - 1) * HSIZE + t.width
    ensures Mixed(m, Moved(m, s, t), m, from, to)
  {
    forall a | 0 <= a < |m| && from <= a < to ensures Moved(m, s, t)[a] == m[a] {
      MovedGap(m, s, t, 0, a);
    }
  }

  /** The error term that belongs to the n-th pixel. */
  function Error(p: Point, q: Point, n: nat): int {
    var dx, dy := Abs(q.x - p.x), Abs(q.y - p.y);
    if dx >= dy then dx - dy + dx * Rounded(dx, dy, n) - dy * n
    else dx - dy + dx * n - dy * Rounded(dy, dx, n)
  }

  /** One turn of the loop of drawLine, after its test for the end: on to the next pixel. */
  method Advance(ghost p: Point, ghost q: Point, ghost n: nat, e: int, at: int, dx: int, dy: int, sx: int, sy: int)
    returns (err: int, px: int)
    requires n < Steps(p, q)
    requires dx == Abs(q.x - p.x) && dy == Abs(q.y - p.y) && sx == Sign(p.x, q.x) && sy == Sign(p.y, q.y)
    requires e == Error(p, q, n) && at == Address(LinePoint(p, q, n))
    ensures err == Error(p, q, n + 1) && px == Address(LinePoint(p, q, n + 1))
  {
    LineStep(p, q, n);
    err, px := e, at;
    var e2 := 2 * err;
    if e2 > -dy {
      err := err - dy;
      px := px + sx;
    }
    if e2 < dx {
      err := err + dx;
      px := px + sy * HSIZE;
    }
  }

  /** How one step along the longer side changes the offset along the shorter one. */
  lemma RoundedStep(M: nat, m: nat, n: nat)
    requires m <= M && n < M
    ensures var k := Rounded(M, m, n);
            var D := M * k - m * n;
            var up := M + 2 * (D - m) < 0;
            && 2 * M + 2 * D > m
            && Rounded(M, m, n + 1) == (if up then k + 1 else k)
            && M * Rounded(M, m, n + 1) - m * (n + 1) == D - m + (if up then M else 0)
  {
    var k := Rounded(M, m, n);
    LineIsNear(M, m, n);
    NearStep(M, m, n, k);
    var k' := if M + 2 * (M * k - m * n - m) < 0 then k + 1 else k;
    NearIsRounded(M, m, n + 1, k');
    OneFurther(M, k);
    OneFurther(m, n);
  }

  lemma OneFurther(a: int, b: int)
    ensures a * (b + 1) == a * b + a
  {
  }

  /** The two tests on the doubled error move on exactly to the next pixel of the line. */
  lemma LineStep(p: Point, q: Point, n: nat)
    requires n < Steps(p, q)
    ensures var (dx, dy) := (Abs(q.x - p.x), Abs(q.y - p.y));
            var e2 := 2 * Error(p, q, n);
            var right, down := e2 + dy > 0, e2 < dx;
            && Error(p, q, n + 1) == Error(p, q, n) - (if right then dy else 0) + (if down then dx else 0)
            && Address(LinePoint(p, q, n + 1)) == Address(LinePoint(p, q, n))
               + (if right then Sign(p.x, q.x) else 0) + (if down then Sign(p.y, q.y) * HSIZE else 0)
  {
    hide Rounded;
    var dx, dy := Abs(q.x - p.x), Abs(q.y - p.y);
    OneFurther(dx, n);
    OneFurther(dy, n);
    if dx >= dy {
      RoundedStep(dx, dy, n);
    } else {
      RoundedStep(dy, dx, n);
    }
  }

  lemma LastPixelIsEnd(p: Point, q: Point, n: nat)
    requires n <= Steps(p, q) && LinePoint(p, q, n) == q
    ensures n == Steps(p, q)
  {
  }

  lemma PaintNext(before: seq<nat>, after: seq<nat>, c: nat, p: Point, q: Point, n: nat)
    requires Painted(before, after, c, p, q, n) && n <= Steps(p, q)
    requires 0 <= Address(LinePoint(p, q, n)) < |after|
    ensures Painted(before, after[Address(LinePoint(p, q, n)) := c], c, p, q, n + 1)
  {
  }
}
