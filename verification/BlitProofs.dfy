/**
 The scaling copy of core/methods/demo/PImage.java: which copies stay inside the source, that the target is drawn from
 the source and nothing else is changed, and what becomes of the pixels.
 */
module BlitProofs {
  import opened Arithmetic
  import opened Bilinear
  import opened Blit
  import opened Ints
  import opened Pixels
  import opened Wrappers

  // ----- Which copies are read inside the source -----

  lemma SmallReads(source: Picture, within: bool, src: Rect, dest: Rect, screenW: nat, screenH: nat,
                   blend: (int, int) -> int)
    requires source.Valid() && source.width <= WIDEST && source.height <= WIDEST
    ensures Readable(Clipped(source, within, src, dest, screenW, screenH, blend))
  {
    hide Clip, Sample, Picture.Readable;
    var clipped := Clipped(source, within, src, dest, screenW, screenH, blend);
    if clipped.Some? {
      var c := clipped.value;
      NarrowFits(src.x1, src.x2, source.width, dest.x1, dest.x2, screenW);
      NarrowFits(src.y1, src.y2, source.height, dest.y1, dest.y2, screenH);
      forall k, n | 0 <= k < c.ax.count && 0 <= n < c.ay.count ensures c.Readable(k, n) {
        InsideReads(source, Sample(c.ax, k), Sample(c.ay, n));
      }
    }
  }

  lemma ShortSide(w: nat, h: nat)
    requires w * h < INT_LIMIT && h > WIDEST
    ensures w < 32768
  {
    assert w >= 32768 ==> w * h >= 32768 * h;
  }

  /** One cell, sampled at the first texel. */
  const NEAR: Axis := Axis(0, 1, 0, ONE)

  lemma NearClip(limit: nat)
    requires limit >= 2
    ensures Clip(0, 1, limit, 0, 1, 1) == Some(NEAR) && Sample(NEAR, 0) == 0
  {
    SameSizeStep(1);
  }

  /** Left of an image, and above one of so few columns, there is nothing in the array. */
  lemma OutsideArray(source: Picture)
    ensures !source.Holds(-65536, 0)
    ensures 0 < source.width < 32768 ==> !source.Holds(0, -65536)
  {
  }

  lemma WideThrows(source: Picture, within: bool, blend: (int, int) -> int)
    requires source.width > WIDEST && source.height >= 2
    ensures !Readable(Clipped(source, within, Rect(65536, 0, 65537, 1), Rect(0, 0, 1, 1), 1, 1, blend))
  {
    hide Clip, Sample, Picture.Holds;
    WideWraps(source.width);
    NearClip(source.height);
    OutsideArray(source);
    assert !Copy(source, within, 1, 1, FAR, NEAR, blend).Readable(0, 0);
  }

  lemma HighThrows(source: Picture, within: bool, blend: (int, int) -> int)
    requires source.Valid() && source.height > WIDEST && source.width >= 2
    ensures !Readable(Clipped(source, within, Rect(0, 65536, 1, 65537), Rect(0, 0, 1, 1), 1, 1, blend))
  {
    hide Clip, Sample, Picture.Holds;
    WideWraps(source.height);
    NearClip(source.width);
    ShortSide(source.width, source.height);
    OutsideArray(source);
    assert !Copy(source, within, 1, 1, NEAR, FAR, blend).Readable(0, 0);
  }

  /** No copy throws exactly when the source has less than two columns or lines, or neither side has over 65537. */
  lemma CopiesRead(source: Picture, within: bool, blend: (int, int) -> int)
    requires source.Valid()
    ensures (forall src: Rect, dest: Rect, screenW: nat, screenH: nat ::
               Readable(Clipped(source, within, src, dest, screenW, screenH, blend)))
      <==> source.width < 2 || source.height < 2 || (source.width <= WIDEST && source.height <= WIDEST)
  {
    if source.width < 2 || source.height < 2 {
    } else if source.width <= WIDEST && source.height <= WIDEST {
      forall src: Rect, dest: Rect, screenW: nat, screenH: nat
        ensures Readable(Clipped(source, within, src, dest, screenW, screenH, blend))
      {
        SmallReads(source, within, src, dest, screenW, screenH, blend);
      }
    } else if source.width > WIDEST {
      WideThrows(source, within, blend);
    } else {
      HighThrows(source, within, blend);
    }
  }

  // ----- The copy as from a snapshot -----

  /** Cell (x, y) of the screen, were the copy to cell `part` of line `lines` made from the source as it was. */
  ghost function CellAfter(c: Copy, before: seq<int>, lines: int, part: int, x: nat, y: nat): int {
    var was, k, n := At(before, Cell(c.screenW, x, y)), x - c.ax.first, y - c.ay.first;
    if c.IsDone(k, n, lines, part) && c.Readable(k, n)
    then c.blend(was, c.source.Read(Sample(c.ax, k), Sample(c.ay, n))) else was
  }

  ghost predicate Drawn(c: Copy, cells: seq<int>, before: seq<int>, lines: int, part: int) {
    && |cells| == |before|
    && forall x: nat, y: nat :: x < c.screenW && y < c.screenH ==>
      At(cells, Cell(c.screenW, x, y)) == CellAfter(c, before, lines, part, x, y)
  }

  /** The sample of cell (k, n) reads the same when the screen holds these cells. */
  ghost predicate SeesAsWas(c: Copy, cells: seq<int>, k: int, n: int) {
    var sX, sY := Sample(c.ax, k), Sample(c.ay, n);
    && c.Readable(k, n) && c.Seen(cells).Readable(sX, sY)
    && c.Seen(cells).Read(sX, sY) == c.source.Read(sX, sY)
  }

  /** What the copy has drawn before cell (k, n) does not matter to its sample. */
  ghost predicate Stable(c: Copy, before: seq<int>, k: int, n: int) {
    forall cells: seq<int> :: Drawn(c, cells, before, n, k) ==> SeesAsWas(c, cells, k, n)
  }

  /** So of all cells before cell `part` of line `lines`. */
  ghost predicate AllStable(c: Copy, before: seq<int>, lines: int, part: int) {
    forall k, n :: c.IsDone(k, n, lines, part) ==> Stable(c, before, k, n)
  }

  lemma StartDrawn(c: Copy, cells: seq<int>)
    ensures Drawn(c, cells, cells, 0, 0)
  {
  }

  lemma CellUnchanged(c: Copy, cells: seq<int>, before: seq<int>, lines: int, part: int, i: nat)
    requires Drawn(c, cells, before, lines, part) && i < |cells| == c.screenW * c.screenH
    requires forall k, n :: c.IsDone(k, n, lines, part) ==> c.Position(k, n) != i
    ensures cells[i] == before[i]
  {
    hide Copy.Readable, Picture.Read, Sample;
    CellOf(c.screenW, c.screenH, i);
    var x, y := i % c.screenW, i / c.screenW;
    assert At(cells, Cell(c.screenW, x, y)) == CellAfter(c, before, lines, part, x, y);
    assert c.Position(x - c.ax.first, y - c.ay.first) == Cell(c.screenW, x, y);
  }

  lemma SameTexel(p: Picture, q: Picture, u: int, v: int)
    requires p.width == q.width && |p.cells| == |q.cells| && p.Holds(u, v)
    ensures q.Holds(u, v) && q.Index(u, v) == p.Index(u, v)
  {
    hide Wrap;
  }

  lemma SameTexels(p: Picture, q: Picture, sX: int, sY: int)
    requires p.width == q.width && p.height == q.height && |p.cells| == |q.cells| && p.Readable(sX, sY)
    requires forall i :: 0 <= i < |p.cells| && p.LooksAt(i, sX, sY) ==> p.cells[i] == q.cells[i]
    ensures q.Readable(sX, sY) && p.Read(sX, sY) == q.Read(sX, sY)
  {
    hide Picture.Index, Filtered, WeightsAt;
    var u, v := sX / ONE, sY / ONE;
    SameTexel(p, q, u, v);
    SameTexel(p, q, u, p.Below(v));
    SameTexel(p, q, p.Next(u), v);
    SameTexel(p, q, p.Next(u), p.Below(v));
  }

  lemma SameLength(c: Copy, cells: seq<int>, before: seq<int>, lines: int, part: int)
    requires Drawn(c, cells, before, lines, part)
    ensures |cells| == |before|
  {
  }

  /** One more cell has been drawn. */
  lemma CellDrawn(c: Copy, cells: seq<int>, before: seq<int>, n: nat, k: nat, pixel: int, i: nat)
    requires c.OnScreen() && k < c.ax.count && n < c.ay.count && c.Readable(k, n)
    requires Drawn(c, cells, before, n, k) && |cells| == c.screenW * c.screenH
    requires pixel == c.source.Read(Sample(c.ax, k), Sample(c.ay, n)) && i == c.Position(k, n) < |cells|
    ensures Drawn(c, cells[i := c.blend(cells[i], pixel)], before, n, k + 1)
  {
    hide Sample, Picture.Read, Picture.Readable;
    var xx, yy := c.ax.first + k, c.ay.first + n;
    assert i == Cell(c.screenW, xx, yy);
    forall x: nat, y: nat | x < c.screenW && y < c.screenH
      ensures At(cells[i := c.blend(cells[i], pixel)], Cell(c.screenW, x, y)) == CellAfter(c, before, n, k + 1, x, y)
    {
      CellInside(c.screenW, c.screenH, x, y);
      if x != xx || y != yy {
        CellsDiffer(c.screenW, x, y, xx, yy);
      }
      assert At(cells, Cell(c.screenW, x, y)) == CellAfter(c, before, n, k, x, y);
    }
  }

  lemma CellsDiffer(width: nat, x: nat, y: nat, u: nat, v: nat)
    requires x < width && u < width && (x != u || y != v)
    ensures Cell(width, x, y) != Cell(width, u, v)
  {
    if y < v {
      CellBefore(width, x, y, v);
    } else if v < y {
      CellBefore(width, u, v, y);
    }
  }

  lemma LineDrawn(c: Copy, cells: seq<int>, before: seq<int>, n: nat)
    requires Drawn(c, cells, before, n, Max(c.ax.count, 0))
    ensures Drawn(c, cells, before, n + 1, 0)
  {
    hide Copy.Readable, Picture.Read, Sample;
    forall x: nat, y: nat | x < c.screenW && y < c.screenH
      ensures At(cells, Cell(c.screenW, x, y)) == CellAfter(c, before, n + 1, 0, x, y)
    {
      assert CellAfter(c, before, n + 1, 0, x, y) == CellAfter(c, before, n, Max(c.ax.count, 0), x, y);
    }
  }

  lemma StableOne(c: Copy, before: seq<int>, lines: int, part: int, k: int, n: int, cells: seq<int>)
    requires AllStable(c, before, lines, part) && c.IsDone(k, n, lines, part) && Drawn(c, cells, before, n, k)
    ensures SeesAsWas(c, cells, k, n)
  {
    hide Drawn, SeesAsWas;
    assert Stable(c, before, k, n);
  }

  lemma Earlier(c: Copy, before: seq<int>, lines: int, part: int, lines': int, part': int)
    requires AllStable(c, before, lines, part) && (lines' < lines || (lines' == lines && part' <= part))
    requires part' <= Max(c.ax.count, 0)
    ensures AllStable(c, before, lines', part')
  {
    hide Stable;
    forall k, n | c.IsDone(k, n, lines', part') ensures Stable(c, before, k, n) {
      assert c.IsDone(k, n, lines, part);
    }
  }

  lemma {:induction false} DrawnLine(c: Copy, cells: seq<int>, before: seq<int>, n: nat, part: nat)
    requires c.OnScreen() && n < c.ay.count && part <= Max(c.ax.count, 0) && |cells| == c.screenW * c.screenH
    requires AllStable(c, before, n, part) && Drawn(c, cells, before, n, 0)
    ensures Drawn(c, c.DrawLine(cells, n, part), before, n, part)
    decreases part
  {
    hide Drawn, AllStable, Sample, Picture.Read, Picture.Readable, Copy.Position, Copy.Seen;
    if part > 0 {
      var k := part - 1;
      Earlier(c, before, n, part, n, k);
      DrawnLine(c, cells, before, n, k);
      var drawn := c.DrawLine(cells, n, k);
      StableOne(c, before, n, part, k, n, drawn);
      OnTheScreen(c, k, n, Cell(c.screenW, c.ax.first, c.ay.first + n));
      CellDrawn(c, drawn, before, n, k, c.source.Read(Sample(c.ax, k), Sample(c.ay, n)), c.Position(k, n));
    }
  }

  lemma {:induction false} DrawnLines(c: Copy, before: seq<int>, lines: nat)
    requires c.OnScreen() && lines <= Max(c.ay.count, 0) && |before| == c.screenW * c.screenH
    requires AllStable(c, before, lines, 0)
    ensures Drawn(c, c.DrawLines(before, lines), before, lines, 0)
    decreases lines
  {
    hide Drawn, AllStable, Copy.DrawLine;
    if lines == 0 {
      StartDrawn(c, before);
    } else {
      var n, whole := lines - 1, Max(c.ax.count, 0);
      Earlier(c, before, lines, 0, n, 0);
      DrawnLines(c, before, n);
      Earlier(c, before, lines, 0, n, whole);
      DrawnLine(c, c.DrawLines(before, n), before, n, whole);
      LineDrawn(c, c.DrawLine(c.DrawLines(before, n), n, whole), before, n);
    }
  }

  /** A copy has come to cell `part` of line `lines`. */
  predicate Reached(c: Copy, lines: nat, part: nat) {
    (lines < c.ay.count && part <= Max(c.ax.count, 0)) || (lines == Max(c.ay.count, 0) && part == 0)
  }

  /** A copy draws what it would from the source as it was, when what it has drawn does not matter to its samples. */
  lemma DrawnWhenStable(c: Copy, before: seq<int>, lines: nat, part: nat)
    requires c.OnScreen() && |before| == c.screenW * c.screenH && Reached(c, lines, part)
    requires AllStable(c, before, lines, part)
    ensures Drawn(c, c.Draw(before, lines, part), before, lines, part)
  {
    hide Drawn, AllStable, Copy.DrawLine, Copy.DrawLines;
    Earlier(c, before, lines, part, lines, 0);
    DrawnLines(c, before, lines);
    if part > 0 {
      DrawnLine(c, c.DrawLines(before, lines), before, lines, part);
    } else {
      NothingMore(c, c.DrawLines(before, lines), lines);
    }
  }

  lemma NothingMore(c: Copy, cells: seq<int>, n: nat)
    ensures c.DrawLine(cells, n, 0) == cells
  {
  }

  /** From another image. */
  lemma DrawnFromAnother(c: Copy, before: seq<int>, lines: nat, part: nat)
    requires c.OnScreen() && |before| == c.screenW * c.screenH && Reached(c, lines, part)
    requires !c.within && c.CanRead(lines, part)
    ensures Drawn(c, c.Draw(before, lines, part), before, lines, part)
  {
    hide Drawn, Copy.Draw, Copy.Readable;
    forall k, n | c.IsDone(k, n, lines, part) ensures Stable(c, before, k, n) {
      assert c.Readable(k, n);
      AlwaysStable(c, before, k, n);
    }
    DrawnWhenStable(c, before, lines, part);
  }

  lemma AlwaysStable(c: Copy, before: seq<int>, k: int, n: int)
    requires !c.within && c.Readable(k, n)
    ensures Stable(c, before, k, n)
  {
    hide Drawn, Picture.Read, Picture.Readable;
  }

  lemma ClippedOnScreen(source: Picture, within: bool, src: Rect, dest: Rect, screenW: nat, screenH: nat,
                        blend: (int, int) -> int)
    ensures var clipped := Clipped(source, within, src, dest, screenW, screenH, blend);
      clipped.Some? ==> clipped.value.OnScreen()
  {
  }

  // ----- A copy scales -----

  /** A sample of cell x of the target that is in proportion, and in the image. */
  ghost predicate Scales(s: int, src1: int, src2: int, side: nat, dest1: int, dest2: int, x: int) {
    0 <= s < side * ONE && Proportional(s, src1, src2, side, dest1, dest2, x)
  }

  lemma AxisScales(src1: int, src2: int, side: nat, dest1: int, dest2: int, screen: nat, k: int)
    requires side <= WIDEST && Clip(src1, src2, side, dest1, dest2, screen).Some?
    ensures var axis := Clip(src1, src2, side, dest1, dest2, screen).value;
      0 <= k < axis.count ==> Scales(Sample(axis, k), src1, src2, side, dest1, dest2, axis.first + k)
  {
    hide Proportional;
    var axis := Clip(src1, src2, side, dest1, dest2, screen).value;
    if 0 <= k < axis.count {
      ClipInside(src1, src2, side, dest1, dest2, screen, k);
      ClipCovers(src1, src2, side, dest1, dest2, screen, axis.first + k);
      if dest2 - dest1 == 1 {
        OneCellScales(src1, src2, side, dest1, dest2, screen, k);
      } else {
        RatioFits(Min(src2, side - 1) - Max(src1, 0), dest2 - dest1);
        ClipScales(src1, src2, side, dest1, dest2, screen, k);
      }
    }
  }

  lemma OneCellScales(src1: int, src2: int, side: nat, dest1: int, dest2: int, screen: nat, k: int)
    requires Clip(src1, src2, side, dest1, dest2, screen).Some? && dest2 - dest1 == 1
    requires 0 <= k < Clip(src1, src2, side, dest1, dest2, screen).value.count
    ensures var axis := Clip(src1, src2, side, dest1, dest2, screen).value;
      Proportional(Exact(axis, k), src1, src2, side, dest1, dest2, axis.first + k)
  {
  }

  lemma RatioFits(srcSize: nat, destSize: nat)
    requires srcSize < WIDEST && destSize > 1
    ensures srcSize * ONE / destSize < INT_LIMIT
  {
    var q := srcSize * ONE / destSize;
    assert q * destSize <= srcSize * ONE <= 65536 * ONE;
    Grows(q, 2, destSize);
  }

  /** The pixel at (x, y) once the copy is complete, or as it was when nothing is drawn. */
  ghost function After(clipped: Option<Copy>, before: seq<int>, i: nat): int {
    match clipped
    case None => At(before, i)
    case Some(c) => At(c.Draw(before, Max(c.ay.count, 0), 0), i)
  }

  /** The cell of the screen is one of the target, of a source that is not empty. */
  predicate Covered(source: Picture, src: Rect, dest: Rect, x: int, y: int) {
    && Max(src.x1, 0) < Min(src.x2, source.width - 1) && Max(src.y1, 0) < Min(src.y2, source.height - 1)
    && dest.x1 <= x < dest.x2 && dest.y1 <= y < dest.y2
  }

  lemma DrawnCell(c: Copy, cells: seq<int>, before: seq<int>, x: nat, y: nat)
    requires Drawn(c, cells, before, Max(c.ay.count, 0), 0) && x < c.screenW && y < c.screenH && c.AllReadable()
    ensures var i, k, n := Cell(c.screenW, x, y), x - c.ax.first, y - c.ay.first;
      if 0 <= k < c.ax.count && 0 <= n < c.ay.count
      then c.Readable(k, n) && At(cells, i) == c.blend(At(before, i), c.source.Read(Sample(c.ax, k), Sample(c.ay, n)))
      else At(cells, i) == At(before, i)
  {
    hide Sample, Picture.Readable, Picture.Read;
    var k, n := x - c.ax.first, y - c.ay.first;
    assert At(cells, Cell(c.screenW, x, y)) == CellAfter(c, before, Max(c.ay.count, 0), 0, x, y);
    assert 0 <= k < c.ax.count && 0 <= n < c.ay.count ==> c.Readable(k, n);
  }

  /** Of an image that no copy leaves, each covered cell of the screen is blended with the pixel at a position in
      proportion to its own, and every other cell is as it was. */
  lemma CopyScales(source: Picture, src: Rect, dest: Rect, screenW: nat, screenH: nat, blend: (int, int) -> int,
                   before: seq<int>, x: nat, y: nat)
    requires source.Valid() && source.width <= WIDEST && source.height <= WIDEST
    requires |before| == screenW * screenH && x < screenW && y < screenH
    ensures var i := Cell(screenW, x, y);
      var now := After(Clipped(source, false, src, dest, screenW, screenH, blend), before, i);
      if Covered(source, src, dest, x, y) then
        exists sX, sY ::
          && Scales(sX, src.x1, src.x2, source.width, dest.x1, dest.x2, x)
          && Scales(sY, src.y1, src.y2, source.height, dest.y1, dest.y2, y)
          && source.Readable(sX, sY) && now == blend(At(before, i), source.Read(sX, sY))
      else now == At(before, i)
  {
    hide Clip, Scales, Sample, Drawn, Copy.Draw, Picture.Readable, Picture.Read;
    var clipped := Clipped(source, false, src, dest, screenW, screenH, blend);
    ClipCovers(src.x1, src.x2, source.width, dest.x1, dest.x2, screenW, x);
    ClipCovers(src.y1, src.y2, source.height, dest.y1, dest.y2, screenH, y);
    if clipped.Some? {
      var c := clipped.value;
      SmallReads(source, false, src, dest, screenW, screenH, blend);
      ClippedOnScreen(source, false, src, dest, screenW, screenH, blend);
      AllCanBeRead(c);
      DrawnFromAnother(c, before, Max(c.ay.count, 0), 0);
      DrawnCell(c, c.Draw(before, Max(c.ay.count, 0), 0), before, x, y);
      if Covered(source, src, dest, x, y) {
        AxisScales(src.x1, src.x2, source.width, dest.x1, dest.x2, screenW, x - c.ax.first);
        AxisScales(src.y1, src.y2, source.height, dest.y1, dest.y2, screenH, y - c.ay.first);
      }
    }
  }

  lemma AllCanBeRead(c: Copy)
    requires c.AllReadable()
    ensures c.CanRead(Max(c.ay.count, 0), 0)
  {
    hide Copy.Readable;
  }

  // ----- What is drawn -----

  /** Each channel of a pixel is mixed by itself. */
  ghost predicate Mixes(pixel: int, w: Weights, t: Texels) {
    && Alpha(pixel) == Mixed(w, t.Alphas()) && Red(pixel) == Mixed(w, t.Reds())
    && Green(pixel) == Mixed(w, t.Greens()) && Blue(pixel) == Mixed(w, t.Blues())
  }

  /** The pixel that is read at a sample: each channel is mixed by itself, with the same weights. */
  lemma ReadChannels(source: Picture, sX: int, sY: int)
    requires source.Readable(sX, sY)
    ensures AreWeights(WeightsAt(sX % ONE, sY % ONE))
    ensures Mixes(source.Read(sX, sY), WeightsAt(sX % ONE, sY % ONE), source.TexelsAt(sX, sY))
  {
    hide Picture.Readable, Picture.TexelsAt, Filtered, Mixed, WeightsAt;
    WeightsSum(sX % ONE, sY % ONE);
    FilteredChannels(WeightsAt(sX % ONE, sY % ONE), source.TexelsAt(sX, sY));
  }

  lemma SameSizeSamples(src1: int, src2: int, limit: nat, dest1: int, dest2: int, screen: nat, k: int)
    requires 0 <= src1 && src2 < limit && dest1 >= 0 && dest2 - dest1 == src2 - src1
    ensures var clipped := Clip(src1, src2, limit, dest1, dest2, screen);
      clipped.Some? ==> Sample(clipped.value, k) == Wrap((src1 + k) * ONE)
  {
    if src2 - src1 > 0 {
      SameSizeStep(src2 - src1);
    }
  }

  function Darker(c: int): int { if c == 0 then 0 else c - 1 }

  lemma WholeSample(t: Texels)
    requires t.Between(0, 255)
    ensures Mixed(WeightsAt(0, 0), t) == Darker(t.ul)
  {
  }

  /** Each channel has become one darker, zero excepted. */
  ghost predicate Darkens(pixel: int, texel: int) {
    && Alpha(pixel) == Darker(Alpha(texel)) && Red(pixel) == Darker(Red(texel))
    && Green(pixel) == Darker(Green(texel)) && Blue(pixel) == Darker(Blue(texel))
  }

  lemma CornerDarkens(t: Texels, pixel: int)
    requires Mixes(pixel, WeightsAt(0, 0), t)
    ensures Darkens(pixel, t.ul)
  {
    hide Mixed, WeightsAt;
    WholeSample(t.Alphas());
    WholeSample(t.Reds());
    WholeSample(t.Greens());
    WholeSample(t.Blues());
  }

  lemma Corner(u: nat)
    ensures u * ONE / ONE == u && u * ONE % ONE == 0
  {
  }

  lemma CornerTexel(source: Picture, sX: int, sY: int)
    requires source.Valid() && source.Has(sX, sY)
    ensures source.Readable(sX, sY)
    ensures 0 <= sX / ONE && 0 <= sY / ONE
    ensures source.TexelsAt(sX, sY).ul == At(source.cells, Cell(source.width, sX / ONE, sY / ONE))
  {
    hide Picture.Index;
    InsideReads(source, sX, sY);
  }

  lemma CornerReads(source: Picture, sX: int, sY: int)
    requires source.Readable(sX, sY) && sX % ONE == 0 && sY % ONE == 0
    ensures Darkens(source.Read(sX, sY), source.TexelsAt(sX, sY).ul)
  {
    hide Picture.Readable, Picture.Read, Picture.TexelsAt, Mixes, Darkens, WeightsAt;
    ReadChannels(source, sX, sY);
    CornerDarkens(source.TexelsAt(sX, sY), source.Read(sX, sY));
  }

  /** A copy that keeps its size reads each texel by itself, and makes its channels one darker, zero excepted. */
  lemma SameSizeDarkens(source: Picture, u: nat, v: nat)
    requires source.Valid() && u < source.width && v < source.height
    ensures source.Readable(u * ONE, v * ONE)
    ensures Darkens(source.Read(u * ONE, v * ONE), At(source.cells, Cell(source.width, u, v)))
  {
    hide Picture.Readable, Picture.Read, Picture.TexelsAt, Darkens;
    Corner(u);
    Corner(v);
    CornerTexel(source, u * ONE, v * ONE);
    CornerReads(source, u * ONE, v * ONE);
  }
}
