/**
 The scaling copy of core/methods/demo/PImage.java: `blit_resize` with its clipping, and the two methods that step
 through the source image in 15-bit fixed point, in ints.

 The steps are exact floors of the ratio of the sizes. A blending mode is a function of two pixels.
 */
module Blit {
  import opened Arithmetic
  import opened Bilinear
  import opened Ints
  import opened Pixels
  import opened Wrappers

  // ----- Clipping, along one axis -----

  /** The copy along one axis: `count` cells from `first` on, sampled from `offset` on, `step` apart. */
  datatype Axis = Axis(first: int, count: int, offset: int, step: int)

  /** A number too large for an int is cast to the greatest. */
  function Step(srcSize: int, destSize: int): int
    requires destSize > 0
  {
    Min(srcSize * ONE / destSize, INT_LIMIT - 1)
  }

  function Clip(src1: int, src2: int, limit: nat, dest1: int, dest2: int, screen: nat): Option<Axis> {
    var from, upTo := Max(src1, 0), if src2 >= limit then limit - 1 else src2;
    var srcSize, destSize := upTo - from, dest2 - dest1;
    if destSize <= 0 || srcSize <= 0 || dest1 >= screen || from >= limit then None
    else
      var step := Step(srcSize, destSize);
      Some(if dest1 < 0 then Axis(0, Min(destSize + dest1, screen), -dest1 * step, step)
           else Axis(dest1, Min(destSize, screen - dest1), from * ONE, step))
  }

  /** The sample of cell k, were it not kept in an int. */
  function Exact(axis: Axis, k: int): int { axis.offset + k * axis.step }

  /** The sample of cell k. */
  function Sample(axis: Axis, k: int): int { Wrap(Exact(axis, k)) }

  lemma NextSample(axis: Axis, k: int)
    ensures Wrap(Sample(axis, k) + axis.step) == Sample(axis, k + 1)
  {
    hide Wrap;
    WrapStep(Exact(axis, k), axis.step);
    assert Exact(axis, k) + axis.step == Exact(axis, k + 1);
  }

  lemma WholeSteps(total: nat, destSize: nat)
    requires destSize > 0
    ensures 0 <= total / destSize * destSize <= total
  {
  }

  lemma FewerSteps(n: nat, destSize: nat, step: nat)
    requires n < destSize
    ensures n * step + step <= step * destSize
  {
    assert (n + 1) * step <= destSize * step;
  }

  lemma StepsInside(srcSize: nat, destSize: nat, n: int)
    requires srcSize > 0 && destSize > 0 && 0 <= n < destSize
    ensures 0 <= Step(srcSize, destSize) && 0 <= n * Step(srcSize, destSize) < srcSize * ONE
  {
    var exact, step := srcSize * ONE / destSize, Step(srcSize, destSize);
    WholeSteps(srcSize * ONE, destSize);
    FewerSteps(n, destSize, exact);
    if exact == 0 {
      assert n * step == 0;
    } else {
      Grows(n, step, exact);
    }
  }

  /** But for the width of an int every sample lies left of the last texel of the source, and every cell on the screen:
      for any two rectangles. */
  lemma ClipInside(src1: int, src2: int, limit: nat, dest1: int, dest2: int, screen: nat, k: int)
    ensures var clipped := Clip(src1, src2, limit, dest1, dest2, screen);
      clipped.Some? && 0 <= k < clipped.value.count ==>
        && 0 <= clipped.value.first + k < screen
        && 0 <= Exact(clipped.value, k) < (limit - 1) * ONE
        && Exact(clipped.value, k) < Min(src2, limit - 1) * ONE
        && (dest1 >= 0 || src1 <= 0 ==> Max(src1, 0) * ONE <= Exact(clipped.value, k))
        && clipped.value.step >= 0
  {
    var clipped := Clip(src1, src2, limit, dest1, dest2, screen);
    if clipped.Some? && 0 <= k < clipped.value.count {
      var from, upTo := Max(src1, 0), if src2 >= limit then limit - 1 else src2;
      var step, n := clipped.value.step, if dest1 < 0 then k - dest1 else k;
      StepsInside(upTo - from, dest2 - dest1, n);
      if dest1 < 0 {
        assert -dest1 * step + k * step == n * step;
      }
    }
  }

  /** Position s of the source is in proportion to cell x of the target, cut off by less than a unit for each cell
      before it. A target that is cut at its start is drawn from the edge of the image, not of the rectangle. */
  ghost predicate Proportional(s: int, src1: int, src2: int, limit: nat, dest1: int, dest2: int, x: int) {
    var srcSize, destSize := Min(src2, limit - 1) - Max(src1, 0), dest2 - dest1;
    var start, n := if dest1 < 0 then 0 else Max(src1, 0), x - dest1;
    0 <= n * (srcSize * ONE) - destSize * (s - start * ONE) < Max(n, 1) * destSize
  }

  lemma CutOff(total: nat, size: nat, n: nat)
    requires size > 0
    ensures 0 <= n * total - size * (n * (total / size)) < Max(n, 1) * size
  {
    var step := total / size;
    var rest := total % size;
    assert total == size * step + rest;
    assert n * total == n * (size * step) + n * rest;
    assert n * (size * step) == size * (n * step);
    if n > 0 {
      assert n * rest < n * size;
    }
  }

  /** A copy scales: every sample is in proportion, whenever the ratio of the sizes is an int. */
  lemma ClipScales(src1: int, src2: int, limit: nat, dest1: int, dest2: int, screen: nat, k: int)
    requires Clip(src1, src2, limit, dest1, dest2, screen).Some?
    requires (Min(src2, limit - 1) - Max(src1, 0)) * ONE / (dest2 - dest1) < INT_LIMIT
    ensures var axis := Clip(src1, src2, limit, dest1, dest2, screen).value;
      0 <= k <= dest2 - dest1 ==> Proportional(Exact(axis, k), src1, src2, limit, dest1, dest2, axis.first + k)
  {
    var axis := Clip(src1, src2, limit, dest1, dest2, screen).value;
    if 0 <= k <= dest2 - dest1 {
      var total, size, n := (Min(src2, limit - 1) - Max(src1, 0)) * ONE, dest2 - dest1, axis.first + k - dest1;
      CutOff(total, size, n);
      if dest1 < 0 {
        assert -dest1 * axis.step + k * axis.step == n * axis.step;
      }
    }
  }

  /** A ratio that is no int is cut down to the greatest one. */
  lemma ClipSaturates(src1: int, src2: int, limit: nat, dest1: int, dest2: int, screen: nat)
    requires Clip(src1, src2, limit, dest1, dest2, screen).Some?
    requires (Min(src2, limit - 1) - Max(src1, 0)) * ONE / (dest2 - dest1) >= INT_LIMIT
    ensures Clip(src1, src2, limit, dest1, dest2, screen).value.step == 0x7FFF_FFFF
  {
  }

  /** What is drawn is the part of the target that is on the screen, when neither rectangle is empty. */
  lemma ClipCovers(src1: int, src2: int, limit: nat, dest1: int, dest2: int, screen: nat, x: int)
    ensures var clipped := Clip(src1, src2, limit, dest1, dest2, screen);
      clipped.Some? && clipped.value.first <= x < clipped.value.first + clipped.value.count
      <==> Max(src1, 0) < Min(src2, limit - 1) && dest1 <= x < dest2 && 0 <= x < screen
  {
  }

  /** The samples that are read lie left of the last texel. */
  ghost predicate SamplesInside(src1: int, src2: int, limit: nat, dest1: int, dest2: int, screen: nat) {
    var clipped := Clip(src1, src2, limit, dest1, dest2, screen);
    clipped.Some? ==> forall k :: 0 <= k < clipped.value.count ==> 0 <= Sample(clipped.value, k) < (limit - 1) * ONE
  }

  /** The widest side whose samples are ints. */
  const WIDEST := 65537

  lemma NarrowFits(src1: int, src2: int, limit: nat, dest1: int, dest2: int, screen: nat)
    requires limit <= WIDEST
    ensures SamplesInside(src1, src2, limit, dest1, dest2, screen)
  {
    var clipped := Clip(src1, src2, limit, dest1, dest2, screen);
    if clipped.Some? {
      var axis := clipped.value;
      forall k | 0 <= k < axis.count ensures 0 <= Sample(axis, k) < (limit - 1) * ONE {
        ClipInside(src1, src2, limit, dest1, dest2, screen, k);
      }
    }
  }

  lemma SameSizeStep(n: nat)
    requires n > 0
    ensures Step(n, n) == ONE
  {
    QuotientIs(n * ONE, n, ONE, 0);
  }

  /** One cell, sampled at texel 65536. */
  const FAR: Axis := Axis(0, 1, 65536 * ONE, ONE)

  /** The last texel but one of a wider side is sampled at the least int. */
  lemma WideWraps(limit: nat)
    requires limit > WIDEST
    ensures Clip(65536, 65537, limit, 0, 1, 1) == Some(FAR) && Sample(FAR, 0) == -INT_LIMIT
  {
    SameSizeStep(1);
  }

  /** Every rectangle is sampled inside the source exactly when the side has at most 65537 texels. */
  lemma SamplesFit(limit: nat)
    ensures (forall src1: int, src2: int, dest1: int, dest2: int, screen: nat ::
               SamplesInside(src1, src2, limit, dest1, dest2, screen)) <==> limit <= WIDEST
  {
    if limit <= WIDEST {
      forall src1: int, src2: int, dest1: int, dest2: int, screen: nat
        ensures SamplesInside(src1, src2, limit, dest1, dest2, screen)
      {
        NarrowFits(src1, src2, limit, dest1, dest2, screen);
      }
    } else {
      WideWraps(limit);
      assert !SamplesInside(65536, 65537, limit, 0, 1, 1);
    }
  }

  /** Clipping on the left keeps every sample where it is without the screen's edge, exactly when the target is not cut
      there or the source starts at its own edge: a cut target is sampled from the left edge of the image. */
  lemma ClipKeepsSamples(src1: int, src2: int, limit: nat, dest1: int, dest2: int, screen: nat, k: int)
    requires Clip(src1, src2, limit, dest1, dest2, screen).Some?
    ensures var axis := Clip(src1, src2, limit, dest1, dest2, screen).value;
      Exact(axis, k) == Max(src1, 0) * ONE + (axis.first + k - dest1) * axis.step <==> dest1 >= 0 || src1 <= 0
  {
    var axis := Clip(src1, src2, limit, dest1, dest2, screen).value;
    if dest1 < 0 {
      assert -dest1 * axis.step + k * axis.step == (k - dest1) * axis.step;
    }
  }

  // ----- The source -----

  datatype Picture = Picture(cells: seq<int>, width: nat, height: nat) {
    ghost predicate Has(sX: int, sY: int) { 0 <= sX < width * ONE && 0 <= sY < height * ONE }

    /** Where the texel (u, v) is looked for. */
    function Index(u: int, v: int): int { Wrap(v * width + u) }

    /** The last row and column stand in for the next. */
    function Next(u: int): int { Min(u + 1, width - 1) }

    function Below(v: int): int { Min(v + 1, height - 1) }

    ghost predicate Holds(u: int, v: int) { 0 <= Index(u, v) < |cells| }

    /** The texels around a sample are in the array: otherwise it cannot be read. */
    ghost predicate Readable(sX: int, sY: int) {
      var u, v := sX / ONE, sY / ONE;
      Holds(u, v) && Holds(u, Below(v)) && Holds(Next(u), v) && Holds(Next(u), Below(v))
    }

    /** Cell i is looked at for a sample. */
    ghost predicate LooksAt(i: int, sX: int, sY: int) {
      var u, v := sX / ONE, sY / ONE;
      i == Index(u, v) || i == Index(u, Below(v)) || i == Index(Next(u), v) || i == Index(Next(u), Below(v))
    }

    ghost function TexelsAt(sX: int, sY: int): Texels
      requires Readable(sX, sY)
    {
      var u, v := sX / ONE, sY / ONE;
      Texels(cells[Index(u, v)], cells[Index(u, Below(v))],
             cells[Index(Next(u), v)], cells[Index(Next(u), Below(v))])
    }

    /** The pixel that is read at a sample. */
    ghost function Read(sX: int, sY: int): int
      requires Readable(sX, sY)
    {
      Filtered(WeightsAt(sX % ONE, sY % ONE), TexelsAt(sX, sY))
    }

    /** The cells are those of an array. */
    ghost predicate Valid() { |cells| == width * height < INT_LIMIT }
  }

  lemma IndexInside(source: Picture, u: nat, v: nat)
    requires source.Valid() && u < source.width && v < source.height
    ensures source.Index(u, v) == Cell(source.width, u, v) < |source.cells|
  {
    CellInside(source.width, source.height, u, v);
  }

  lemma TexelInside(n: nat, s: int)
    requires 0 <= s < n * ONE
    ensures 0 <= s / ONE < n
  {
  }

  /** A sample inside the image reads the four texels around it. */
  lemma InsideReads(source: Picture, sX: int, sY: int)
    requires source.Valid() && source.Has(sX, sY)
    ensures source.Readable(sX, sY)
    ensures var u, v := sX / ONE, sY / ONE;
      && 0 <= u < source.width && 0 <= v < source.height
      && source.Index(u, v) == Cell(source.width, u, v)
      && source.Index(source.Next(u), v) == Cell(source.width, source.Next(u), v)
      && source.Index(u, source.Below(v)) == Cell(source.width, u, source.Below(v))
      && source.Index(source.Next(u), source.Below(v)) == Cell(source.width, source.Next(u), source.Below(v))
  {
    var u, v := sX / ONE, sY / ONE;
    TexelInside(source.width, sX);
    TexelInside(source.height, sY);
    IndexInside(source, u, v);
    IndexInside(source, source.Next(u), v);
    IndexInside(source, u, source.Below(v));
    IndexInside(source, source.Next(u), source.Below(v));
  }

  // ----- The copy -----

  /** The state of the scaler. */
  class Scaler {
    var srcBuffer: array<int>
    var iw: nat
    var iw1: int
    var ih1: int
    var srcXOffset: int
    var srcYOffset: int
    var sX: int
    var fracV: int
    var ifV: int
    var v1: int
    var v2: int

    ghost predicate Valid()
      reads this
    {
      iw1 == iw - 1 && -1 <= ih1 && srcBuffer.Length == iw * (ih1 + 1)
    }

    /** The source as it is now: the copy may be changing it. */
    ghost function Source(): Picture
      requires Valid()
      reads this, srcBuffer
    {
      Picture(srcBuffer[..], iw, ih1 + 1)
    }

    /** The fields of a scan line belong to the sample in y. */
    ghost predicate OnLine(sY: int)
      reads this
    {
      && fracV == sY % ONE && ifV == ONE - 1 - fracV
      && v1 == Wrap(sY / ONE * iw) && v2 == Wrap(Min(sY / ONE + 1, ih1) * iw)
    }

    constructor (srcBuffer: array<int>, width: nat, height: nat, srcXOffset: int, srcYOffset: int)
      requires srcBuffer.Length == width * height
      ensures Valid() && this.srcBuffer == srcBuffer && Source() == Picture(srcBuffer[..], width, height)
      ensures this.srcXOffset == srcXOffset && this.srcYOffset == srcYOffset
    {
      this.srcBuffer, this.srcXOffset, this.srcYOffset := srcBuffer, srcXOffset, srcYOffset;
      iw, iw1, ih1 := width, width - 1, height - 1;
      sX, fracV, ifV, v1, v2 := 0, 0, 0, 0, 0;
    }

    /** filter_new_scanline. */
    method FilterNewScanline()
      requires Valid()
      modifies `sX, `fracV, `ifV, `v1, `v2
      ensures OnLine(srcYOffset) && sX == srcXOffset
    {
      sX := srcXOffset;
      fracV := srcYOffset % ONE;
      ifV := ONE - 1 - fracV;
      v1 := Wrap(srcYOffset / ONE * iw);
      v2 := Wrap(Min(srcYOffset / ONE + 1, ih1) * iw);
    }

    /** The four texels, in the order in which they are read. */
    method ReadTexels(u1: int, u2: int, ghost line: int, ghost below: int) returns (t: Option<Texels>)
      requires Valid() && v1 == Wrap(line * iw) && v2 == Wrap(below * iw)
      ensures var ul, ll := Source().Index(u1, line), Source().Index(u1, below);
        var ur, lr := Source().Index(u2, line), Source().Index(u2, below);
        var n := srcBuffer.Length;
        t == if 0 <= ul < n && 0 <= ur < n && 0 <= ll < n && 0 <= lr < n
             then Some(Texels(srcBuffer[ul], srcBuffer[ll], srcBuffer[ur], srcBuffer[lr])) else None
    {
      hide Wrap;
      var ul, ur, ll, lr := Wrap(v1 + u1), Wrap(v1 + u2), Wrap(v2 + u1), Wrap(v2 + u2);
      WrapStep(line * iw, u1);
      WrapStep(line * iw, u2);
      WrapStep(below * iw, u1);
      WrapStep(below * iw, u2);
      var n := srcBuffer.Length;
      if !(0 <= ul < n) || !(0 <= ur < n) || !(0 <= ll < n) || !(0 <= lr < n) {
        return None;
      }
      t := Some(Texels(srcBuffer[ul], srcBuffer[ll], srcBuffer[ur], srcBuffer[lr]));
    }

    /** filter_bilinear: a texel that is not in the array throws. */
    method FilterBilinear(ghost sY: int) returns (pixel: Option<int>)
      requires Valid() && OnLine(sY)
      ensures pixel == if Source().Readable(sX, sY) then Some(Source().Read(sX, sY)) else None
    {
      hide Wrap, Filtered;
      var fracU := sX % ONE;
      var ifU := ONE - 1 - fracU;
      var w := Weights(ifU * ifV / ONE, ifU * fracV / ONE, fracU * ifV / ONE, fracU * fracV / ONE);
      var u1 := sX / ONE;
      var u2 := Min(u1 + 1, iw1);
      var t := ReadTexels(u1, u2, sY / ONE, Min(sY / ONE + 1, ih1));
      pixel := match t
        case Some(texels) => Some(Filtered(w, texels))
        case None => None;
    }
  }

  /** A copy of part of the source to the screen, or `within` one image, which then is the screen too. */
  datatype Copy = Copy(source: Picture, within: bool, screenW: nat, screenH: nat, ax: Axis, ay: Axis,
                       blend: (int, int) -> int)
  {
    ghost predicate OnScreen() {
      && 0 <= ax.first && ax.first + Max(ax.count, 0) <= screenW
      && 0 <= ay.first && ay.first + Max(ay.count, 0) <= screenH
    }

    /** The source, when the screen holds these cells. */
    ghost function Seen(cells: seq<int>): Picture { if within then source.(cells := cells) else source }

    /** Where cell k of line n of the target is. */
    function Position(k: int, n: int): int { (ay.first + n) * screenW + ax.first + k }

    /** The screen once cell k of line n has been drawn on it. */
    ghost function DrawCell(cells: seq<int>, k: nat, n: nat): (after: seq<int>)
      ensures |after| == |cells|
    {
      var sX, sY, i := Sample(ax, k), Sample(ay, n), Position(k, n);
      if 0 <= i < |cells| && Seen(cells).Readable(sX, sY)
      then cells[i := blend(cells[i], Seen(cells).Read(sX, sY))] else cells
    }

    /** The screen once the first cells of line n have been drawn on it. */
    ghost function DrawLine(cells: seq<int>, n: nat, part: nat): (after: seq<int>)
      ensures |after| == |cells|
    {
      if part == 0 then cells else DrawCell(DrawLine(cells, n, part - 1), part - 1, n)
    }

    ghost function DrawLines(cells: seq<int>, lines: nat): (after: seq<int>)
      ensures |after| == |cells|
    {
      if lines == 0 then cells else DrawLine(DrawLines(cells, lines - 1), lines - 1, Max(ax.count, 0))
    }

    /** The screen once the copy has come to cell `part` of line `lines`, each cell read and written in its turn. */
    ghost function Draw(cells: seq<int>, lines: nat, part: nat): (after: seq<int>)
      ensures |after| == |cells|
    {
      DrawLine(DrawLines(cells, lines), lines, part)
    }

    /** Cell (k, n) of the target comes before cell `part` of line `lines`. */
    predicate IsDone(k: int, n: int, lines: int, part: int) {
      0 <= k < ax.count && 0 <= n && (n < lines || (n == lines && k < part))
    }

    ghost predicate Readable(k: int, n: int) { source.Readable(Sample(ax, k), Sample(ay, n)) }

    /** All samples can be read that come before cell `part` of line `lines`. */
    ghost predicate CanRead(lines: int, part: int) {
      forall k, n :: IsDone(k, n, lines, part) ==> Readable(k, n)
    }

    ghost predicate AllReadable() {
      forall k, n :: 0 <= k < ax.count && 0 <= n < ay.count ==> Readable(k, n)
    }
  }

  lemma CanReadNext(c: Copy, n: nat, k: nat)
    requires c.CanRead(n, k) && c.Readable(k, n)
    ensures c.CanRead(n, k + 1)
  {
    hide Copy.Readable;
  }

  lemma CanReadLine(c: Copy, n: nat)
    requires c.CanRead(n, Max(c.ax.count, 0))
    ensures c.CanRead(n + 1, 0)
  {
    hide Copy.Readable;
    forall k, m | c.IsDone(k, m, n + 1, 0) ensures c.Readable(k, m) {
      assert c.IsDone(k, m, n, Max(c.ax.count, 0));
    }
  }

  lemma OnTheScreen(c: Copy, k: nat, n: nat, destOffset: nat)
    requires c.OnScreen() && k < c.ax.count && n < c.ay.count
    requires destOffset == Cell(c.screenW, c.ax.first, c.ay.first + n)
    ensures c.Position(k, n) == destOffset + k < c.screenW * c.screenH
  {
    RowInside(c.screenW, c.screenH, c.ay.first + n);
  }

  /** The scaler works for this copy. */
  ghost predicate Serves(scaler: Scaler, c: Copy, dest: array<int>)
    reads scaler, scaler.srcBuffer, dest
  {
    && scaler.Valid() && c.within == (dest == scaler.srcBuffer) && scaler.Source() == c.Seen(dest[..])
    && |c.source.cells| == scaler.srcBuffer.Length
  }

  /** One cell of the target, unless its sample cannot be read. */
  method BlitCell(scaler: Scaler, dest: array<int>, i: nat, blend: (int, int) -> int,
                  ghost c: Copy, ghost k: nat, ghost n: nat)
    returns (ok: bool)
    requires Serves(scaler, c, dest) && scaler.OnLine(Sample(c.ay, n)) && scaler.sX == Sample(c.ax, k)
    requires i == c.Position(k, n) && i < dest.Length && blend == c.blend
    modifies dest
    ensures Serves(scaler, c, dest) && ok == c.Readable(k, n)
    ensures dest[..] == if ok then c.DrawCell(old(dest[..]), k, n) else old(dest[..])
  {
    hide Picture.Read, Sample, Wrap, Filtered;
    ghost var cells := dest[..];
    var pixel := scaler.FilterBilinear(Sample(c.ay, n));
    ok := pixel.Some?;
    if ok {
      dest[i] := blend(dest[i], pixel.value);
      assert dest[..] == cells[i := blend(cells[i], pixel.value)];
    }
  }

  /** One pass of the inner loop: a line of the target, up to a sample that cannot be read. */
  method BlitLine(scaler: Scaler, dest: array<int>, destOffset: nat, destW: int, dx: int, blend: (int, int) -> int,
                  ghost c: Copy, ghost n: nat)
    returns (ok: bool, ghost part: nat)
    requires Serves(scaler, c, dest) && scaler.OnLine(Sample(c.ay, n)) && scaler.sX == Sample(c.ax, 0)
    requires c.OnScreen() && n < c.ay.count && dest.Length == c.screenW * c.screenH && blend == c.blend
    requires dx == c.ax.step && destW == c.ax.count && destOffset == Cell(c.screenW, c.ax.first, c.ay.first + n)
    requires c.CanRead(n, 0)
    modifies dest, scaler`sX
    ensures Serves(scaler, c, dest) && dest[..] == c.DrawLine(old(dest[..]), n, part) && c.CanRead(n, part)
    ensures if ok then part == Max(c.ax.count, 0) else part < c.ax.count && !c.Readable(part, n)
  {
    hide Sample, Copy.DrawCell, Copy.CanRead, Copy.Readable, Copy.Position, Copy.Seen, Wrap;
    ghost var before := dest[..];
    var x := 0;
    while x < destW
      invariant 0 <= x <= Max(destW, 0) && Serves(scaler, c, dest) && scaler.OnLine(Sample(c.ay, n))
      invariant scaler.sX == Sample(c.ax, x) && dest[..] == c.DrawLine(before, n, x) && c.CanRead(n, x)
    {
      OnTheScreen(c, x, n, destOffset);
      ok := BlitCell(scaler, dest, destOffset + x, blend, c, x, n);
      if !ok {
        return false, x;
      }
      CanReadNext(c, n, x);
      NextSample(c.ax, x);
      scaler.sX := Wrap(scaler.sX + dx);
      x := x + 1;
    }
    return true, x;
  }

  lemma NextLine(screenW: nat, first: nat, y: nat)
    ensures Cell(screenW, first, y) + screenW == Cell(screenW, first, y + 1)
  {
  }

  /** The two loops, up to a sample that cannot be read. */
  method BlitLines(scaler: Scaler, dest: array<int>, screenW: nat, destX1: nat, destY1: nat, destW: int, destH: int,
                   dx: int, dy: int, blend: (int, int) -> int, ghost c: Copy)
    returns (ok: bool, ghost lines: nat, ghost part: nat)
    requires Serves(scaler, c, dest) && c.OnScreen() && screenW == c.screenW && blend == c.blend
    requires dest.Length == c.screenW * c.screenH
    requires destX1 == c.ax.first && destW == c.ax.count && dx == c.ax.step && scaler.srcXOffset == Sample(c.ax, 0)
    requires destY1 == c.ay.first && destH == c.ay.count && dy == c.ay.step && scaler.srcYOffset == Sample(c.ay, 0)
    modifies dest, scaler
    ensures dest[..] == c.Draw(old(dest[..]), lines, part) && c.CanRead(lines, part)
    ensures if ok then lines == Max(c.ay.count, 0) && part == 0
            else lines < c.ay.count && part < c.ax.count && !c.Readable(part, lines)
  {
    hide Copy.DrawCell, Copy.CanRead, Copy.Readable, Copy.Seen, Sample, Wrap;
    ghost var before := dest[..];
    var destOffset := destY1 * screenW + destX1;
    var y := 0;
    NothingRead(c);
    while y < destH
      invariant 0 <= y <= Max(destH, 0) && destOffset == Cell(screenW, c.ax.first, c.ay.first + y)
      invariant Serves(scaler, c, dest) && scaler.srcBuffer == old(scaler.srcBuffer)
      invariant scaler.srcXOffset == Sample(c.ax, 0) && scaler.srcYOffset == Sample(c.ay, y)
      invariant dest[..] == c.DrawLines(before, y) && c.CanRead(y, 0)
    {
      scaler.FilterNewScanline();
      ok, part := BlitLine(scaler, dest, destOffset, destW, dx, blend, c, y);
      if !ok {
        return false, y, part;
      }
      CanReadLine(c, y);
      NextLine(screenW, c.ax.first, c.ay.first + y);
      NextSample(c.ay, y);
      destOffset := destOffset + screenW;
      scaler.srcYOffset := Wrap(scaler.srcYOffset + dy);
      y := y + 1;
    }
    return true, y, 0;
  }

  lemma NothingRead(c: Copy)
    ensures c.CanRead(0, 0)
  {
  }

  datatype Rect = Rect(x1: int, y1: int, x2: int, y2: int)

  /** What is drawn of a rectangle of the source in a rectangle of the screen, if anything is. */
  function Clipped(source: Picture, within: bool, src: Rect, dest: Rect, screenW: nat, screenH: nat,
                   blend: (int, int) -> int): (clipped: Option<Copy>)
  {
    var ax, ay := Clip(src.x1, src.x2, source.width, dest.x1, dest.x2, screenW),
                  Clip(src.y1, src.y2, source.height, dest.y1, dest.y2, screenH);
    if ax.None? || ay.None? then None else Some(Copy(source, within, screenW, screenH, ax.value, ay.value, blend))
  }

  ghost predicate Readable(clipped: Option<Copy>) { clipped.Some? ==> clipped.value.AllReadable() }

  lemma ReadToTheEnd(c: Copy, lines: int, part: int)
    requires c.CanRead(lines, part)
    ensures lines >= c.ay.count ==> c.AllReadable()
    ensures 0 <= part < c.ax.count && 0 <= lines < c.ay.count && !c.Readable(part, lines) ==> !c.AllReadable()
  {
    hide Copy.Readable;
    if lines >= c.ay.count {
      forall k, n | 0 <= k < c.ax.count && 0 <= n < c.ay.count ensures c.Readable(k, n) {
        assert c.IsDone(k, n, lines, part);
      }
    }
  }

  /** blit_resize, also within one image: for any two rectangles it draws the target cell by cell where that is on the
      screen, and nothing else; it throws at the first sample that cannot be read. */
  method BlitResize(pixels: array<int>, width: nat, height: nat, srcX1: int, srcY1: int, srcX2: int, srcY2: int,
                    destPixels: array<int>, screenW: nat, screenH: nat,
                    destX1: int, destY1: int, destX2: int, destY2: int, blend: (int, int) -> int)
    returns (ok: bool, ghost lines: nat, ghost part: nat)
    requires pixels.Length == width * height && destPixels.Length == screenW * screenH
    modifies destPixels
    ensures var source, within := Picture(old(pixels[..]), width, height), pixels == destPixels;
      var src, dest := Rect(srcX1, srcY1, srcX2, srcY2), Rect(destX1, destY1, destX2, destY2);
      var clipped := Clipped(source, within, src, dest, screenW, screenH, blend);
      && (ok <==> Readable(clipped))
      && match clipped
         case None => destPixels[..] == old(destPixels[..])
         case Some(c) =>
           && destPixels[..] == c.Draw(old(destPixels[..]), lines, part)
           && if ok then lines == Max(c.ay.count, 0) && part == 0
              else lines < c.ay.count && part < c.ax.count && c.CanRead(lines, part) && !c.Readable(part, lines)
  {
    hide Copy.Draw, Copy.CanRead, Copy.AllReadable, Copy.Readable, Wrap, Step;
    var sx1, sy1 := if srcX1 < 0 then 0 else srcX1, if srcY1 < 0 then 0 else srcY1;
    var sx2, sy2 := if srcX2 >= width then width - 1 else srcX2, if srcY2 >= height then height - 1 else srcY2;
    var srcW, srcH, destW, destH := sx2 - sx1, sy2 - sy1, destX2 - destX1, destY2 - destY1;
    if destW <= 0 || destH <= 0 || srcW <= 0 || srcH <= 0
       || destX1 >= screenW || destY1 >= screenH || sx1 >= width || sy1 >= height {
      return true, 0, 0;
    }
    var dx := Step(srcW, destW);
    var dy := Step(srcH, destH);
    var srcXOffset := Wrap(if destX1 < 0 then -destX1 * dx else sx1 * ONE);
    var srcYOffset := Wrap(if destY1 < 0 then -destY1 * dy else sy1 * ONE);
    var left, top := destX1, destY1;
    if left < 0 {
      destW := destW + left;
      left := 0;
    }
    if top < 0 {
      destH := destH + top;
      top := 0;
    }
    destW := Min(destW, screenW - left);
    destH := Min(destH, screenH - top);
    ghost var c := Clipped(Picture(pixels[..], width, height), pixels == destPixels, Rect(srcX1, srcY1, srcX2, srcY2),
                           Rect(destX1, destY1, destX2, destY2), screenW, screenH, blend).value;
    var scaler := new Scaler(pixels, width, height, srcXOffset, srcYOffset);
    ok, lines, part := BlitLines(scaler, destPixels, screenW, left, top, destW, destH, dx, dy, blend, c);
    ReadToTheEnd(c, lines, part);
  }
}
