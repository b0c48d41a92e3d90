/**
 The scaling copy of core/methods/demo/PImage.java within one image, which `blend` makes when the rectangles do not
 intersect: when it comes out as from another image, and when it smears.
 */
module BlitInPlace {
  import opened Arithmetic
  import opened Bilinear
  import opened Blit
  import opened BlitProofs
  import opened Ints
  import opened Pixels
  import opened Wrappers

  // ----- No cell is looked at after it has been written -----

  ghost predicate Fresh(c: Copy) {
    forall k, n, k', n' :: 0 <= k < c.ax.count && 0 <= n < c.ay.count && c.IsDone(k', n', n, k) ==>
      !c.source.LooksAt(c.Position(k', n'), Sample(c.ax, k), Sample(c.ay, n))
  }

  lemma SeenAsWas(c: Copy, cells: seq<int>, before: seq<int>, n: int, k: int)
    requires c.within && c.source.cells == before && Fresh(c) && Drawn(c, cells, before, n, k)
    requires 0 <= k < c.ax.count && 0 <= n < c.ay.count && c.Readable(k, n) && |before| == c.screenW * c.screenH
    ensures SeesAsWas(c, cells, k, n)
  {
    hide Sample, Drawn, Picture.Read, Picture.Readable, Picture.LooksAt, Copy.Position;
    var sX, sY := Sample(c.ax, k), Sample(c.ay, n);
    SameLength(c, cells, before, n, k);
    forall i | 0 <= i < |cells| && c.source.LooksAt(i, sX, sY) ensures c.source.cells[i] == c.Seen(cells).cells[i] {
      CellUnchanged(c, cells, before, n, k, i);
    }
    SameTexels(c.source, c.Seen(cells), sX, sY);
  }

  /** Within one image a copy draws what it would from the image as it was, when no cell is looked at after it has been
      written. */
  lemma DrawnWhenFresh(c: Copy, lines: nat, part: nat)
    requires c.OnScreen() && |c.source.cells| == c.screenW * c.screenH && Reached(c, lines, part)
    requires c.within && Fresh(c) && c.CanRead(lines, part)
    ensures Drawn(c, c.Draw(c.source.cells, lines, part), c.source.cells, lines, part)
  {
    hide Drawn, Copy.Draw, Copy.Readable, SeesAsWas, Fresh;
    var before := c.source.cells;
    forall k, n | c.IsDone(k, n, lines, part) ensures Stable(c, before, k, n) {
      assert c.Readable(k, n);
      forall cells: seq<int> | Drawn(c, cells, before, n, k) ensures SeesAsWas(c, cells, k, n) {
        SeenAsWas(c, cells, before, n, k);
      }
    }
    DrawnWhenStable(c, before, lines, part);
  }


  /** Along one axis, t is a texel that is looked at for cell k: the one of the sample, or the next. */
  predicate IsTexel(axis: Axis, side: nat, k: int, t: int) {
    var u := Sample(axis, k) / ONE;
    0 <= k < axis.count && (t == u || t == Min(u + 1, side - 1))
  }

  predicate InTarget(axis: Axis, t: int) { axis.first <= t < axis.first + axis.count }

  /** No cell of the target is looked at. */
  ghost predicate Untouched(axis: Axis, side: nat) {
    forall k, t :: IsTexel(axis, side, k, t) ==> !InTarget(axis, t)
  }

  /** What is looked at of the target is not behind the cell that is drawn. */
  ghost predicate NeverBehind(axis: Axis, side: nat) {
    forall k, t :: IsTexel(axis, side, k, t) && InTarget(axis, t) ==> k <= t - axis.first
  }

  /** A cell is not drawn from itself. */
  ghost predicate NeverLevel(axis: Axis, side: nat) {
    forall k, t :: IsTexel(axis, side, k, t) && InTarget(axis, t) ==> k != t - axis.first
  }

  /** A copy within an image whose samples are inside. */
  ghost predicate InPlace(c: Copy) {
    && c.source.Valid() && c.source.width == c.screenW && c.source.height == c.screenH && c.OnScreen()
    && (forall k :: 0 <= k < c.ax.count ==> 0 <= Sample(c.ax, k) < c.screenW * ONE)
    && (forall n :: 0 <= n < c.ay.count ==> 0 <= Sample(c.ay, n) < c.screenH * ONE)
  }

  /** Two axes say which cells are looked at. */
  lemma LooksAtTexels(c: Copy, k: int, n: int, u: nat, v: nat)
    requires InPlace(c) && 0 <= k < c.ax.count && 0 <= n < c.ay.count && u < c.screenW && v < c.screenH
    ensures c.source.LooksAt(Cell(c.screenW, u, v), Sample(c.ax, k), Sample(c.ay, n))
       <==> IsTexel(c.ax, c.screenW, k, u) && IsTexel(c.ay, c.screenH, n, v)
  {
    hide Sample, Wrap, Cell;
    var sX, sY := Sample(c.ax, k), Sample(c.ay, n);
    InsideReads(c.source, sX, sY);
    var u1, v1 := sX / ONE, sY / ONE;
    var u2, v2 := c.source.Next(u1), c.source.Below(v1);
    CellsSame(c.screenW, u, v, u1, v1);
    CellsSame(c.screenW, u, v, u2, v1);
    CellsSame(c.screenW, u, v, u1, v2);
    CellsSame(c.screenW, u, v, u2, v2);
  }

  lemma CellsSame(width: nat, x: nat, y: nat, u: nat, v: nat)
    requires x < width && u < width
    ensures Cell(width, x, y) == Cell(width, u, v) <==> x == u && y == v
  {
    if x != u || y != v {
      CellsDiffer(width, x, y, u, v);
    }
  }

  lemma Stale(c: Copy, k: int, n: int, u: int, v: int)
    requires InPlace(c) && IsTexel(c.ax, c.screenW, k, u) && IsTexel(c.ay, c.screenH, n, v)
    requires InTarget(c.ax, u) && InTarget(c.ay, v)
    requires v - c.ay.first < n || (v - c.ay.first == n && u - c.ax.first < k)
    ensures !Fresh(c)
  {
    hide Sample, Picture.LooksAt;
    LooksAtTexels(c, k, n, u, v);
    var k', n' := u - c.ax.first, v - c.ay.first;
    assert c.IsDone(k', n', n, k) && c.Position(k', n') == Cell(c.screenW, u, v);
  }

  lemma TargetTexels(c: Copy, k: int, n: int, k': int, n': int)
    requires InPlace(c) && 0 <= k < c.ax.count && 0 <= n < c.ay.count && c.IsDone(k', n', n, k)
    requires c.source.LooksAt(c.Position(k', n'), Sample(c.ax, k), Sample(c.ay, n))
    ensures IsTexel(c.ax, c.screenW, k, c.ax.first + k') && IsTexel(c.ay, c.screenH, n, c.ay.first + n')
    ensures InTarget(c.ax, c.ax.first + k') && InTarget(c.ay, c.ay.first + n')
  {
    hide Sample, Picture.LooksAt;
    LooksAtTexels(c, k, n, c.ax.first + k', c.ay.first + n');
  }

  /** Exactly when no cell is looked at after it has been written: the target is looked at in no column or only ahead in
      the lines, and only ahead in the columns or never in the line that is drawn. */
  lemma FreshByAxes(c: Copy)
    requires InPlace(c)
    ensures Fresh(c) <==>
      && (Untouched(c.ax, c.screenW) || NeverBehind(c.ay, c.screenH))
      && (NeverBehind(c.ax, c.screenW) || NeverLevel(c.ay, c.screenH))
  {
    hide IsTexel, InTarget, Sample, Picture.LooksAt, Copy.Position;
    if !Untouched(c.ax, c.screenW) && !NeverBehind(c.ay, c.screenH) {
      var k, u :| IsTexel(c.ax, c.screenW, k, u) && InTarget(c.ax, u);
      var n, v :| IsTexel(c.ay, c.screenH, n, v) && InTarget(c.ay, v) && n > v - c.ay.first;
      Stale(c, k, n, u, v);
    } else if !NeverBehind(c.ax, c.screenW) && !NeverLevel(c.ay, c.screenH) {
      var k, u :| IsTexel(c.ax, c.screenW, k, u) && InTarget(c.ax, u) && k > u - c.ax.first;
      var n, v :| IsTexel(c.ay, c.screenH, n, v) && InTarget(c.ay, v) && n == v - c.ay.first;
      Stale(c, k, n, u, v);
    } else {
      forall k, n, k', n' | 0 <= k < c.ax.count && 0 <= n < c.ay.count && c.IsDone(k', n', n, k)
        ensures !c.source.LooksAt(c.Position(k', n'), Sample(c.ax, k), Sample(c.ay, n))
      {
        if c.source.LooksAt(c.Position(k', n'), Sample(c.ax, k), Sample(c.ay, n)) {
          TargetTexels(c, k, n, k', n');
          assert false;
        }
      }
    }
  }

  // ----- Which texels an axis looks at -----

  /** The samples of the axis are inside the side, and so is its target. */
  ghost predicate AxisInside(axis: Axis, side: nat) {
    && 0 <= axis.first && axis.first + Max(axis.count, 0) <= side && axis.step >= 0
    && forall k :: 0 <= k < axis.count ==> 0 <= Sample(axis, k) == Exact(axis, k) < side * ONE
  }

  lemma TexelsRise(axis: Axis, side: nat, k: int, last: int)
    requires AxisInside(axis, side) && 0 <= k <= last < axis.count
    ensures Sample(axis, k) / ONE <= Sample(axis, last) / ONE
  {
    hide Sample;
    Grows(axis.step, k, last);
  }

  lemma NextTexel(axis: Axis, side: nat, k: int)
    requires AxisInside(axis, side) && axis.step <= ONE && 0 <= k && k + 1 < axis.count
    ensures Sample(axis, k + 1) / ONE <= Sample(axis, k) / ONE + 1
  {
    hide Sample;
    assert Exact(axis, k + 1) == Exact(axis, k) + axis.step;
  }

  /** In steps of at most one texel no texel is left out between two. */
  lemma {:induction false} Crosses(axis: Axis, side: nat, k: int)
    requires AxisInside(axis, side) && axis.step <= ONE && 0 <= k < axis.count
    requires Sample(axis, 0) / ONE < axis.first <= Min(Sample(axis, k) / ONE + 1, side - 1)
    ensures !Untouched(axis, side)
    decreases k
  {
    hide Sample;
    var next := Min(Sample(axis, k) / ONE + 1, side - 1);
    if k == 0 {
      assert IsTexel(axis, side, k, next) && InTarget(axis, next);
    } else {
      NextTexel(axis, side, k - 1);
      if axis.first <= Min(Sample(axis, k - 1) / ONE + 1, side - 1) {
        Crosses(axis, side, k - 1);
      } else {
        assert IsTexel(axis, side, k, next) && InTarget(axis, next);
      }
    }
  }

  /** In steps of at most one texel, no cell of the target is looked at exactly when all texels lie before it, or all
      behind it. */
  lemma UntouchedRange(axis: Axis, side: nat)
    requires AxisInside(axis, side) && axis.step <= ONE && axis.count > 0
    ensures Untouched(axis, side) <==>
      || Min(Sample(axis, axis.count - 1) / ONE + 1, side - 1) < axis.first
      || axis.first + axis.count <= Sample(axis, 0) / ONE
  {
    hide Sample;
    var start, last := Sample(axis, 0) / ONE, axis.count - 1;
    var end := Min(Sample(axis, last) / ONE + 1, side - 1);
    if end < axis.first || axis.first + axis.count <= start {
      forall k, t | IsTexel(axis, side, k, t) ensures !InTarget(axis, t) {
        TexelsRise(axis, side, 0, k);
        TexelsRise(axis, side, k, last);
      }
    } else if start < axis.first {
      Crosses(axis, side, last);
    } else {
      assert IsTexel(axis, side, 0, start) && InTarget(axis, start);
    }
  }

  // ----- Rectangles that do not intersect -----

  /** The cells that two ranges share, as `intersect` counts them: both with their last. */
  function Overlap(s1: int, s2: int, d1: int, d2: int): int {
    var s, d := s2 - s1 + 1, d2 - d1 + 1;
    if d1 < s1 then Min(d + d1 - s1, s) else Min(d, s + s1 - d1)
  }

  /** intersect. */
  predicate Intersect(src: Rect, dest: Rect) {
    !(Overlap(src.x1, src.x2, dest.x1, dest.x2) <= 0 || Overlap(src.y1, src.y2, dest.y1, dest.y2) <= 0)
  }

  lemma ClippedInside(src1: int, src2: int, limit: nat, dest1: int, dest2: int, screen: nat)
    requires limit <= WIDEST && Clip(src1, src2, limit, dest1, dest2, screen).Some? && screen <= limit
    ensures AxisInside(Clip(src1, src2, limit, dest1, dest2, screen).value, limit)
  {
    var axis := Clip(src1, src2, limit, dest1, dest2, screen).value;
    ClipSteps(src1, src2, limit, dest1, dest2, screen);
    forall k | 0 <= k < axis.count ensures 0 <= Sample(axis, k) == Exact(axis, k) < limit * ONE {
      ClipInside(src1, src2, limit, dest1, dest2, screen, k);
    }
  }

  lemma ClipSteps(src1: int, src2: int, limit: nat, dest1: int, dest2: int, screen: nat)
    requires Clip(src1, src2, limit, dest1, dest2, screen).Some?
    ensures Clip(src1, src2, limit, dest1, dest2, screen).value.step >= 0
  {
    var from, upTo := Max(src1, 0), if src2 >= limit then limit - 1 else src2;
    StepsInside(upTo - from, dest2 - dest1, 0);
  }

  lemma CopiedInPlace(source: Picture, src: Rect, dest: Rect, blend: (int, int) -> int)
    requires source.Valid() && source.width <= WIDEST && source.height <= WIDEST
    ensures var clipped := Clipped(source, true, src, dest, source.width, source.height, blend);
      clipped.Some? ==> InPlace(clipped.value)
  {
    hide Clip, Sample;
    var clipped := Clipped(source, true, src, dest, source.width, source.height, blend);
    if clipped.Some? {
      ClippedInside(src.x1, src.x2, source.width, dest.x1, dest.x2, source.width);
      ClippedInside(src.y1, src.y2, source.height, dest.y1, dest.y2, source.height);
    }
  }

  /** A target that is not cut at its start, or whose source starts at the edge, is drawn from the range of the
      source. */
  lemma ApartUntouched(src1: int, src2: int, limit: nat, dest1: int, dest2: int)
    requires limit <= WIDEST && (dest1 >= 0 || src1 <= 0) && Overlap(src1, src2, dest1, dest2) <= 0
    requires Clip(src1, src2, limit, dest1, dest2, limit).Some?
    ensures Untouched(Clip(src1, src2, limit, dest1, dest2, limit).value, limit)
  {
    var axis := Clip(src1, src2, limit, dest1, dest2, limit).value;
    forall k, t | IsTexel(axis, limit, k, t) ensures !InTarget(axis, t) {
      ClipInside(src1, src2, limit, dest1, dest2, limit, k);
    }
  }

  /** Rectangles that do not intersect are copied within one image as from another, unless the target is cut on the
      left or at the top and the source does not start there. */
  lemma InPlaceFresh(source: Picture, src: Rect, dest: Rect, blend: (int, int) -> int)
    requires source.Valid() && source.width <= WIDEST && source.height <= WIDEST && !Intersect(src, dest)
    requires (dest.x1 >= 0 || src.x1 <= 0) && (dest.y1 >= 0 || src.y1 <= 0)
    ensures var clipped := Clipped(source, true, src, dest, source.width, source.height, blend);
      clipped.Some? ==> Fresh(clipped.value)
  {
    hide Clip, IsTexel, InTarget, Fresh;
    var clipped := Clipped(source, true, src, dest, source.width, source.height, blend);
    if clipped.Some? {
      CopiedInPlace(source, src, dest, blend);
      FreshByAxes(clipped.value);
      if Overlap(src.x1, src.x2, dest.x1, dest.x2) <= 0 {
        ApartUntouched(src.x1, src.x2, source.width, dest.x1, dest.x2);
      } else {
        ApartUntouched(src.y1, src.y2, source.height, dest.y1, dest.y2);
      }
    }
  }

  // ----- Copies that keep the size -----

  /** Every sample is the corner of a texel. */
  ghost predicate Corners(axis: Axis, side: nat) {
    AxisInside(axis, side) && axis.step == ONE && axis.offset % ONE == 0
  }

  /** How far the texel of a cell is from the cell. */
  function Shift(axis: Axis): int { axis.offset / ONE - axis.first }

  lemma CornerOf(axis: Axis, side: nat, k: int)
    requires Corners(axis, side) && 0 <= k < axis.count
    ensures Sample(axis, k) % ONE == 0 && 0 <= Sample(axis, k) / ONE == axis.first + k + Shift(axis) < side
  {
    hide Sample;
    assert Exact(axis, k) == (axis.offset / ONE + k) * ONE;
  }

  /** A copy within one image that keeps the size. */
  ghost predicate KeepsSize(c: Copy) {
    && c.within && InPlace(c) && Corners(c.ax, c.screenW) && Corners(c.ay, c.screenH)
  }

  /** The target overlaps what it is drawn from, and comes after it. */
  predicate Smears(c: Copy) {
    var sx, sy := Shift(c.ax), Shift(c.ay);
    -c.ax.count < sx < c.ax.count && -c.ay.count < sy < c.ay.count && (sy < 0 || (sy == 0 && sx < 0))
  }

  lemma CornerWeights()
    ensures WeightsAt(0, 0) == Weights(ONE - 2, 0, 0, 0)
  {
  }

  lemma CornerFilter(t: Texels, t': Texels)
    requires t.ul == t'.ul
    ensures Filtered(WeightsAt(0, 0), t) == Filtered(WeightsAt(0, 0), t')
  {
    hide WeightsAt, Wrap, Or;
    CornerWeights();
  }

  /** Where the texel of cell (k, n) is. */
  function Origin(c: Copy, k: int, n: int): int { c.Position(k + Shift(c.ax), n + Shift(c.ay)) }

  lemma OriginInside(c: Copy, k: int, n: int)
    requires KeepsSize(c) && 0 <= k < c.ax.count && 0 <= n < c.ay.count
    ensures 0 <= c.ax.first + k + Shift(c.ax) < c.screenW && 0 <= c.ay.first + n + Shift(c.ay) < c.screenH
    ensures 0 <= Origin(c, k, n) == Cell(c.screenW, c.ax.first + k + Shift(c.ax), c.ay.first + n + Shift(c.ay))
    ensures Origin(c, k, n) < |c.source.cells| && c.Readable(k, n)
    ensures c.source.TexelsAt(Sample(c.ax, k), Sample(c.ay, n)).ul == c.source.cells[Origin(c, k, n)]
    ensures Sample(c.ax, k) % ONE == 0 && Sample(c.ay, n) % ONE == 0
  {
    hide Sample, Wrap;
    CornerOf(c.ax, c.screenW, k);
    CornerOf(c.ay, c.screenH, n);
    InsideReads(c.source, Sample(c.ax, k), Sample(c.ay, n));
    CellInside(c.screenW, c.screenH, c.ax.first + k + Shift(c.ax), c.ay.first + n + Shift(c.ay));
  }

  /** With other cells it is the same copy. */
  lemma OtherCells(c: Copy, cells: seq<int>)
    requires KeepsSize(c) && |cells| == |c.source.cells|
    ensures KeepsSize(c.(source := c.Seen(cells))) && c.Seen(cells) == c.source.(cells := cells)
  {
  }

  lemma CornerSeen(c: Copy, cells: seq<int>, k: int, n: int)
    requires KeepsSize(c) && 0 <= k < c.ax.count && 0 <= n < c.ay.count && |cells| == |c.source.cells|
    requires 0 <= Origin(c, k, n) < |cells| && cells[Origin(c, k, n)] == c.source.cells[Origin(c, k, n)]
    ensures SeesAsWas(c, cells, k, n)
  {
    hide KeepsSize, Picture.TexelsAt, Picture.Readable, Sample, WeightsAt, Filtered, Copy.Position;
    var sX, sY, c' := Sample(c.ax, k), Sample(c.ay, n), c.(source := c.Seen(cells));
    OtherCells(c, cells);
    OriginInside(c, k, n);
    OriginInside(c', k, n);
    CornerFilter(c.source.TexelsAt(sX, sY), c'.source.TexelsAt(sX, sY));
  }

  lemma PositionIs(c: Copy, k: int, n: int, k': int, n': int)
    requires c.OnScreen() && 0 <= k < c.ax.count && 0 <= n < c.ay.count
    requires 0 <= c.ax.first + k' < c.screenW && 0 <= c.ay.first + n'
    ensures c.Position(k, n) == c.Position(k', n') <==> k == k' && n == n'
  {
    hide Cell;
    CellsSame(c.screenW, c.ax.first + k, c.ay.first + n, c.ax.first + k', c.ay.first + n');
    PositionCell(c, k, n);
    PositionCell(c, k', n');
  }

  lemma PositionCell(c: Copy, k: int, n: int)
    requires 0 <= c.ax.first + k && 0 <= c.ay.first + n
    ensures c.Position(k, n) == Cell(c.screenW, c.ax.first + k, c.ay.first + n)
  {
  }

  /** Cell (k, n) of the target is drawn from one before it. */
  predicate FromBefore(c: Copy, k: int, n: int) { c.IsDone(k + Shift(c.ax), n + Shift(c.ay), n, k) }

  lemma OriginFresh(c: Copy, cells: seq<int>, k: int, n: int)
    requires KeepsSize(c) && 0 <= k < c.ax.count && 0 <= n < c.ay.count
    requires !FromBefore(c, k, n)
    requires Drawn(c, cells, c.source.cells, n, k)
    ensures SeesAsWas(c, cells, k, n)
  {
    hide Drawn, SeesAsWas, Sample, Copy.Position, Picture.TexelsAt, Copy.Readable, Corners;
    var i, before := Origin(c, k, n), c.source.cells;
    OriginInside(c, k, n);
    SameLength(c, cells, before, n, k);
    forall k', n' | c.IsDone(k', n', n, k) ensures c.Position(k', n') != i {
      PositionIs(c, k', n', k + Shift(c.ax), n + Shift(c.ay));
    }
    CellUnchanged(c, cells, before, n, k, i);
    CornerSeen(c, cells, k, n);
  }

  /** As long as no cell is drawn from one before it, the copy is that of another image. */
  lemma DrawnUpTo(c: Copy, lines: nat, part: nat)
    requires KeepsSize(c) && Reached(c, lines, part)
    requires forall k, n :: c.IsDone(k, n, lines, part) ==> !FromBefore(c, k, n)
    ensures Drawn(c, c.Draw(c.source.cells, lines, part), c.source.cells, lines, part)
  {
    hide Drawn, SeesAsWas, Copy.Draw, Corners, Sample;
    var before := c.source.cells;
    forall k, n | c.IsDone(k, n, lines, part) ensures Stable(c, before, k, n) {
      forall cells: seq<int> | Drawn(c, cells, before, n, k) ensures SeesAsWas(c, cells, k, n) {
        OriginFresh(c, cells, k, n);
      }
    }
    DrawnWhenStable(c, before, lines, part);
  }

  lemma NotBefore(c: Copy, k: int, n: int)
    requires !Smears(c) && 0 <= k < c.ax.count && 0 <= n < c.ay.count
    ensures !FromBefore(c, k, n)
  {
  }

  /** The copy, made in an image with these cells. */
  ghost function Of(c: Copy, cells: seq<int>): Copy { c.(source := c.source.(cells := cells)) }

  /** It draws the whole target as from the image as it was. */
  ghost predicate AsFromSnapshot(c: Copy) {
    var lines := Max(c.ay.count, 0);
    Drawn(c, c.Draw(c.source.cells, lines, 0), c.source.cells, lines, 0)
  }

  lemma SizeKept(c: Copy, cells: seq<int>)
    requires KeepsSize(c) && |cells| == |c.source.cells|
    ensures KeepsSize(Of(c, cells))
  {
  }

  lemma DrawnWhole(c: Copy)
    requires KeepsSize(c) && !Smears(c)
    ensures AsFromSnapshot(c)
  {
    hide KeepsSize, Smears, Copy.Draw, Drawn;
    var lines := Max(c.ay.count, 0);
    forall k, n | c.IsDone(k, n, lines, 0) ensures !FromBefore(c, k, n) {
      NotBefore(c, k, n);
    }
    DrawnUpTo(c, Max(c.ay.count, 0), 0);
  }

  lemma ShiftOnce(c: Copy, cells: seq<int>)
    ensures Of(c, cells).source.cells == cells && Of(c, cells).ax == c.ax && Of(c, cells).ay == c.ay
    ensures Of(c, cells).blend == c.blend && Smears(Of(c, cells)) == Smears(c)
    ensures forall k, n :: Origin(Of(c, cells), k, n) == Origin(c, k, n)
  {
  }

  lemma {:induction false} LineKeeps(c: Copy, cells: seq<int>, n: nat, start: nat, end: nat, i: nat)
    requires start <= end && i < |cells| && forall k: nat :: start <= k < end ==> c.Position(k, n) != i
    ensures c.DrawLine(cells, n, end)[i] == c.DrawLine(cells, n, start)[i]
    decreases end
  {
    hide Copy.Position, Copy.Seen, Picture.Readable, Picture.Read, Sample;
    if start < end {
      LineKeeps(c, cells, n, start, end - 1, i);
    }
  }

  lemma {:induction false} LinesKeep(c: Copy, cells: seq<int>, start: nat, end: nat, i: nat)
    requires start <= end && i < |cells|
    requires forall n: nat, k: nat :: start <= n < end && k < c.ax.count ==> c.Position(k, n) != i
    ensures c.DrawLines(cells, end)[i] == c.DrawLines(cells, start)[i]
    decreases end
  {
    hide Copy.Position, Copy.DrawLine;
    if start < end {
      LinesKeep(c, cells, start, end - 1, i);
      LineKeeps(c, c.DrawLines(cells, end - 1), end - 1, 0, Max(c.ax.count, 0), i);
      NothingMore(c, c.DrawLines(cells, end - 1), end - 1);
    }
  }

  /** A copy changes cells of its target only, also when it smears. */
  lemma OnlyTarget(c: Copy, cells: seq<int>, lines: nat, part: nat, i: nat)
    requires i < |cells| && part <= Max(c.ax.count, 0)
    requires forall n: nat, k: nat :: k < c.ax.count ==> c.Position(k, n) != i
    ensures c.Draw(cells, lines, part)[i] == cells[i]
  {
    hide Copy.Position, Copy.DrawCell;
    LinesKeep(c, cells, 0, lines, i);
    LineKeeps(c, c.DrawLines(cells, lines), lines, 0, part, i);
  }

  /** A cell is left as it was drawn. */
  lemma CellStays(c: Copy, cells: seq<int>, k: nat, n: nat)
    requires c.OnScreen() && k < c.ax.count && n < c.ay.count && |cells| == c.screenW * c.screenH
    ensures 0 <= c.Position(k, n) < |cells|
    ensures c.Draw(cells, c.ay.count, 0)[c.Position(k, n)] == c.DrawCell(c.Draw(cells, n, k), k, n)[c.Position(k, n)]
  {
    hide Copy.DrawCell, Copy.Position;
    var i := c.Position(k, n);
    OnTheScreen(c, k, n, Cell(c.screenW, c.ax.first, c.ay.first + n));
    forall m: nat, j: nat | m < c.ay.count && j < c.ax.count && (m != n || j != k) ensures c.Position(j, m) != i {
      PositionIs(c, j, m, k, n);
    }
    LineKeeps(c, c.DrawLines(cells, n), n, k + 1, c.ax.count, i);
    LinesKeep(c, cells, n + 1, c.ay.count, i);
  }

  lemma CornerDrawn(c: Copy, k: int, n: int)
    requires KeepsSize(c) && 0 <= k < c.ax.count && 0 <= n < c.ay.count
    ensures 0 <= Origin(c, k, n) < |c.source.cells| && c.Readable(k, n)
    ensures Blue(c.source.Read(Sample(c.ax, k), Sample(c.ay, n))) == Darker(Blue(c.source.cells[Origin(c, k, n)]))
  {
    hide KeepsSize, Picture.TexelsAt, Picture.Readable, Picture.Read, Sample, Copy.Position;
    OriginInside(c, k, n);
    CornerReads(c.source, Sample(c.ax, k), Sample(c.ay, n));
  }

  /** What a cell of the target holds, of a copy that has been drawn as from a snapshot so far. */
  lemma DrawnBlue(c: Copy, cells: seq<int>, lines: int, part: int, k: int, n: int)
    requires KeepsSize(c) && Drawn(c, cells, c.source.cells, lines, part) && c.IsDone(k, n, lines, part)
    requires n < c.ay.count && forall a, b :: c.blend(a, b) == b
    ensures 0 <= c.Position(k, n) < |cells| && 0 <= Origin(c, k, n) < |c.source.cells|
    ensures Blue(cells[c.Position(k, n)]) == Darker(Blue(c.source.cells[Origin(c, k, n)]))
  {
    hide Sample, Picture.Read, Picture.Readable;
    CornerDrawn(c, k, n);
    OnTheScreen(c, k, n, Cell(c.screenW, c.ax.first, c.ay.first + n));
    var x, y := c.ax.first + k, c.ay.first + n;
    PositionCell(c, k, n);
    assert At(cells, Cell(c.screenW, x, y)) == CellAfter(c, c.source.cells, lines, part, x, y);
  }

  /** What it holds when it has just been drawn. */
  lemma NextBlue(c: Copy, cells: seq<int>, k: nat, n: nat)
    requires KeepsSize(c) && |cells| == |c.source.cells| && k < c.ax.count && n < c.ay.count
    requires forall a, b :: c.blend(a, b) == b
    ensures 0 <= c.Position(k, n) < |cells| && 0 <= Origin(c, k, n) < |cells|
    ensures Blue(c.DrawCell(cells, k, n)[c.Position(k, n)]) == Darker(Blue(cells[Origin(c, k, n)]))
  {
    hide KeepsSize, Sample, Picture.Read, Picture.Readable, Copy.Position, Copy.Seen, Copy.DrawCell, Origin, Of, Blue;
    var d := Of(c, cells);
    SizeKept(c, cells);
    WithinSeen(c, cells);
    ShiftOnce(c, cells);
    CornerDrawn(d, k, n);
    OnScreenWhole(c);
    OnTheScreen(c, k, n, Cell(c.screenW, c.ax.first, c.ay.first + n));
    CellHolds(c, cells, k, n, c.Position(k, n));
  }

  lemma CellHolds(c: Copy, cells: seq<int>, k: nat, n: nat, i: nat)
    requires i == c.Position(k, n) && i < |cells| && c.Seen(cells).Readable(Sample(c.ax, k), Sample(c.ay, n))
    requires forall a, b :: c.blend(a, b) == b
    ensures c.DrawCell(cells, k, n)[i] == c.Seen(cells).Read(Sample(c.ax, k), Sample(c.ay, n))
  {
    hide Sample, Picture.Read, Picture.Readable, Copy.Seen, Copy.Position;
    var was, now := cells[i], c.Seen(cells).Read(Sample(c.ax, k), Sample(c.ay, n));
    assert c.blend(was, now) == now;
  }

  lemma WithinSeen(c: Copy, cells: seq<int>)
    requires KeepsSize(c)
    ensures c.Seen(cells) == Of(c, cells).source && Of(c, cells).Seen(cells) == Of(c, cells).source
  {
  }

  lemma OnScreenWhole(c: Copy)
    requires KeepsSize(c)
    ensures c.OnScreen() && |c.source.cells| == c.screenW * c.screenH
  {
  }

  /** One white texel among black ones, in a copy that smears: it is not there any more when its turn comes. */
  lemma WhiteIsLost(c: Copy, k: nat, n: nat, i: nat)
    requires KeepsSize(c) && Smears(c) && (forall a, b :: c.blend(a, b) == b) && i < |c.source.cells|
    requires k == Max(0, -Shift(c.ax)) && n == -Shift(c.ay) && i == Origin(c, k, n)
    requires forall j :: 0 <= j < |c.source.cells| ==> c.source.cells[j] == if j == i then -1 else 0
    ensures !AsFromSnapshot(c)
  {
    hide KeepsSize, Drawn, Copy.Draw, Copy.DrawCell, Copy.Position;
    var before, sx, sy := c.source.cells, Shift(c.ax), Shift(c.ay);
    OnScreenWhole(c);
    DrawnUpTo(c, n, k);
    var cells := c.Draw(before, n, k);
    var k', n' := k + sx, n + sy;
    OriginInside(c, k', n');
    PositionIs(c, k', n', k' + sx, n' + sy);
    DrawnBlue(c, cells, n, k, k', n');
    NextBlue(c, cells, k, n);
    CellStays(c, before, k, n);
    if AsFromSnapshot(c) {
      DrawnBlue(c, c.Draw(before, c.ay.count, 0), c.ay.count, 0, k, n);
      assert false;
    }
  }

  /** A copy within one image that keeps the size and replaces the pixels comes out as from the image as it was,
      whatever that holds, exactly when the target does not overlap what it is drawn from, or does not come after
      it. */
  lemma SameSizeInPlace(c: Copy)
    requires KeepsSize(c) && forall a, b :: c.blend(a, b) == b
    ensures (forall cells: seq<int> :: |cells| == |c.source.cells| ==> AsFromSnapshot(Of(c, cells))) <==> !Smears(c)
  {
    hide KeepsSize, AsFromSnapshot, Smears, Copy.Position;
    if Smears(c) {
      var k, n: int := Max(0, -Shift(c.ax)), -Shift(c.ay);
      SmearsInside(c, k, n);
      OriginInside(c, k, n);
      var i := Origin(c, k, n);
      var cells := seq(|c.source.cells|, j => if j == i then -1 else 0);
      SizeKept(c, cells);
      ShiftOnce(c, cells);
      WhiteIsLost(Of(c, cells), k, n, i);
    } else {
      forall cells: seq<int> | |cells| == |c.source.cells| ensures AsFromSnapshot(Of(c, cells)) {
        SizeKept(c, cells);
        ShiftOnce(c, cells);
        DrawnWhole(Of(c, cells));
      }
    }
  }

  lemma SmearsInside(c: Copy, k: int, n: int)
    requires Smears(c) && k == Max(0, -Shift(c.ax)) && n == -Shift(c.ay)
    ensures 0 <= k < c.ax.count && 0 <= n < c.ay.count
  {
  }

  lemma ClipCorners(src1: int, src2: int, limit: nat, dest1: int, dest2: int, screen: nat)
    requires limit <= WIDEST && screen <= limit && Clip(src1, src2, limit, dest1, dest2, screen).Some?
    requires Min(src2, limit - 1) - Max(src1, 0) == dest2 - dest1
    ensures Corners(Clip(src1, src2, limit, dest1, dest2, screen).value, limit)
  {
    SameSizeStep(dest2 - dest1);
    ClippedInside(src1, src2, limit, dest1, dest2, screen);
  }

  /** What is left of the source has the size of the target: such copies within an image keep the size. */
  lemma RectsKeepSize(source: Picture, src: Rect, dest: Rect, blend: (int, int) -> int)
    requires source.Valid() && source.width <= WIDEST && source.height <= WIDEST
    requires Min(src.x2, source.width - 1) - Max(src.x1, 0) == dest.x2 - dest.x1
    requires Min(src.y2, source.height - 1) - Max(src.y1, 0) == dest.y2 - dest.y1
    ensures var clipped := Clipped(source, true, src, dest, source.width, source.height, blend);
      clipped.Some? ==> KeepsSize(clipped.value)
  {
    hide Clip, Corners;
    var clipped := Clipped(source, true, src, dest, source.width, source.height, blend);
    if clipped.Some? {
      CopiedInPlace(source, src, dest, blend);
      ClipCorners(src.x1, src.x2, source.width, dest.x1, dest.x2, source.width);
      ClipCorners(src.y1, src.y2, source.height, dest.y1, dest.y2, source.height);
    }
  }

  /** `blend` makes such copies: of rectangles that do not intersect, when the target is cut on the left. */
  lemma CutTargetSmears(source: Picture, blend: (int, int) -> int)
    requires source.Valid() && source.width == 7 && source.height == 3
    ensures var src, dest := Rect(3, 0, 6, 2), Rect(-1, 1, 2, 3);
      var clipped := Clipped(source, true, src, dest, 7, 3, blend);
      !Intersect(src, dest) && clipped.Some? && KeepsSize(clipped.value) && Smears(clipped.value)
  {
    SameSizeStep(3);
    SameSizeStep(2);
    RectsKeepSize(source, Rect(3, 0, 6, 2), Rect(-1, 1, 2, 3), blend);
    assert Clip(3, 6, 7, -1, 2, 7) == Some(Axis(0, 2, ONE, ONE));
    assert Clip(0, 2, 3, 1, 3, 3) == Some(Axis(1, 2, 0, ONE));
  }
}
