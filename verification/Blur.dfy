/**
 The blur of an RGB image in core/methods/demo/PImage.java: `buildBlurKernel` and the two passes of `blurRGB`, in place,
 with the exceptions that they end in.
 */
module Blur {
  import opened Arithmetic
  import opened BlurKernel
  import opened Ints
  import opened Pixels

  // ----- What the two passes compute -----

  /** Of a row, the window around cell x. */
  function RowFrom(radius: nat, x: int): nat { if x < radius then 0 else x - radius }

  function RowUpTo(radius: nat, x: int, n: int): int { if x + radius + 2 < n then x + radius + 2 else n }

  /** Of a column the window ends early near the top: the row counter starts as far down as the window sticks out. */
  function ColumnUpTo(radius: nat, y: int, n: nat): int {
    RowUpTo(radius, y, if y < radius then n - (radius - y) else n)
  }

  function RowValue(row: seq<int>, radius: nat, x: nat): int
    requires radius > 0 && x < |row|
  {
    CentreWeighs(radius, x, RowFrom(radius, x), RowUpTo(radius, x, |row|));
    Value(row, radius, x, RowFrom(radius, x), RowUpTo(radius, x, |row|))
  }

  function ColumnValue(column: seq<int>, radius: nat, y: nat): int
    requires 0 < radius < |column| && y < |column|
  {
    CentreWeighs(radius, y, RowFrom(radius, y), ColumnUpTo(radius, y, |column|));
    Value(column, radius, y, RowFrom(radius, y), ColumnUpTo(radius, y, |column|))
  }

  /** One more cell of a window, in ints. */
  lemma OneMore(line: seq<int>, radius: nat, c: int, lo: int, i: int, acc: int)
    requires 0 <= lo <= i < |line| && acc == Wrap(WeightedSum(line, radius, c, lo, i))
    ensures Wrap(acc + Weight(radius, i - c) * line[i]) == Wrap(WeightedSum(line, radius, c, lo, i + 1))
  {
    WrapStep(WeightedSum(line, radius, c, lo, i), Weight(radius, i - c) * line[i]);
  }

  lemma OneMoreWeight(radius: nat, c: int, lo: int, i: int)
    requires 0 < radius <= MAX_RADIUS && lo <= i
    ensures Wrap(Weights(radius, c, lo, i) + Weight(radius, i - c)) == Weights(radius, c, lo, i + 1)
  {
    WindowBelow(radius, c, lo, i + 1);
  }

  /** The accumulators hold what the window lo..i of three lines sums up to. */
  ghost predicate Summed(red: seq<int>, green: seq<int>, blue: seq<int>, radius: nat, c: int, lo: int, i: int,
                         cr: int, cg: int, cb: int, sum: int)
    requires 0 <= lo && i <= |red| == |green| == |blue|
  {
    && sum == Weights(radius, c, lo, i)
    && cr == Wrap(WeightedSum(red, radius, c, lo, i))
    && cg == Wrap(WeightedSum(green, radius, c, lo, i))
    && cb == Wrap(WeightedSum(blue, radius, c, lo, i))
  }

  /** Nothing is summed up over an empty window. */
  lemma EmptyWindow(red: seq<int>, green: seq<int>, blue: seq<int>, radius: nat, c: int, lo: int, hi: int)
    requires 0 <= lo && hi <= |red| == |green| == |blue| && hi <= lo
    ensures Summed(red, green, blue, radius, c, lo, hi, 0, 0, 0, 0)
  {
  }

  lemma OneMoreCell(red: seq<int>, green: seq<int>, blue: seq<int>, radius: nat, c: int, lo: int, i: int,
                    cr: int, cg: int, cb: int, sum: int)
    requires 0 <= lo <= i < |red| == |green| == |blue| && 0 < radius <= MAX_RADIUS
    requires Summed(red, green, blue, radius, c, lo, i, cr, cg, cb, sum)
    ensures var w := Weight(radius, i - c);
      Summed(red, green, blue, radius, c, lo, i + 1,
             Wrap(cr + w * red[i]), Wrap(cg + w * green[i]), Wrap(cb + w * blue[i]), Wrap(sum + w))
  {
    OneMore(red, radius, c, lo, i, cr);
    OneMore(green, radius, c, lo, i, cg);
    OneMore(blue, radius, c, lo, i, cb);
    OneMoreWeight(radius, c, lo, i);
  }

  // ----- Rows and columns of an image -----

  datatype Channel = R | G | B

  function Part(channel: Channel, c: int): int {
    match channel
    case R => Red(c)
    case G => Green(c)
    case B => Blue(c)
  }

  /** One channel of a row of pixels. */
  function Row(pixels: seq<int>, width: nat, y: nat, channel: Channel): seq<int> {
    seq(width, (x: nat) => Part(channel, At(pixels, Cell(width, x, y))))
  }

  lemma RowMatches(pixels: seq<int>, width: nat, y: nat, channel: Channel)
    requires Cell(width, 0, y) + width <= |pixels|
    ensures |Row(pixels, width, y, channel)| == width
    ensures forall x :: 0 <= x < width ==>
      Row(pixels, width, y, channel)[x] == Part(channel, pixels[Cell(width, 0, y) + x])
  {
  }

  /** One channel of the image after the row pass. */
  function RowPass(pixels: seq<int>, width: nat, radius: nat, channel: Channel, x: nat, y: nat): int
    requires radius > 0 && x < width
  {
    RowValue(Row(pixels, width, y, channel), radius, x)
  }

  /** These cells are the first rows of that channel after the row pass. */
  ghost predicate PassedRows(cells: seq<int>, pixels: seq<int>, width: nat, radius: nat, channel: Channel, rows: nat)
    requires radius > 0
  {
    forall x: nat, y: nat :: x < width && y < rows ==>
      At(cells, Cell(width, x, y)) == RowPass(pixels, width, radius, channel, x, y)
  }

  /** The values of a row have been written from `yi` on. */
  ghost predicate Filled(cells: seq<int>, before: seq<int>, yi: nat, row: seq<int>, radius: nat)
    requires radius > 0
  {
    && yi + |row| <= |cells| == |before|
    && (forall k :: 0 <= k < yi ==> cells[k] == before[k])
    && (forall x :: 0 <= x < |row| ==> cells[yi + x] == RowValue(row, radius, x))
  }

  lemma OneMoreRow(before: seq<int>, cells: seq<int>, pixels: seq<int>, width: nat, radius: nat,
                   channel: Channel, y: nat)
    requires radius > 0 && PassedRows(before, pixels, width, radius, channel, y)
    requires Filled(cells, before, Cell(width, 0, y), Row(pixels, width, y, channel), radius)
    ensures PassedRows(cells, pixels, width, radius, channel, y + 1)
  {
    CellsBefore(width, y);
  }

  predicate Bytes(line: seq<int>) { forall q :: 0 <= q < |line| ==> IsByte(line[q]) }

  /** One column of an image of this width. */
  function Column(cells: seq<int>, width: nat, height: nat, x: nat): seq<int> {
    seq(height, (q: nat) => At(cells, Cell(width, x, q)))
  }

  ghost predicate IsColumn(column: seq<int>, cells: array<int>, width: nat, x: nat)
    reads cells
  {
    forall q :: 0 <= q < |column| ==> Cell(width, x, q) < cells.Length && column[q] == cells[Cell(width, x, q)]
  }

  lemma ColumnIsColumn(cells: array<int>, width: nat, height: nat, x: nat)
    requires cells.Length == width * height && x < width
    ensures IsColumn(Column(cells[..], width, height, x), cells, width, x)
  {
    forall q: nat | q < height ensures Cell(width, x, q) < cells.Length {
      CellInside(width, height, x, q);
    }
  }

  /** The cells lo..hi of three columns are bytes. */
  ghost predicate WindowBytes(red: seq<int>, green: seq<int>, blue: seq<int>, lo: nat, hi: int)
    requires hi <= |red| == |green| == |blue|
  {
    forall k :: lo <= k < hi ==> IsByte(red[k]) && IsByte(green[k]) && IsByte(blue[k])
  }

  lemma OneMoreBytes(red: seq<int>, green: seq<int>, blue: seq<int>, lo: nat, i: nat)
    requires i < |red| == |green| == |blue| && WindowBytes(red, green, blue, lo, i)
    requires IsByte(red[i]) && IsByte(green[i]) && IsByte(blue[i])
    ensures WindowBytes(red, green, blue, lo, i + 1)
  {
  }

  /** The pixel that the column pass writes, from what the row pass has left in three arrays. */
  function ColumnPixel(r2: seq<int>, g2: seq<int>, b2: seq<int>, width: nat, height: nat, radius: nat,
                       x: nat, y: nat): int
    requires 0 < radius < height && y < height
  {
    Pack(ColumnValue(Column(r2, width, height, x), radius, y),
         ColumnValue(Column(g2, width, height, x), radius, y),
         ColumnValue(Column(b2, width, height, x), radius, y))
  }

  /** The cells of row y as far as x are what the column pass writes, and were bytes; the rows above are as before. */
  ghost predicate PassedTo(cells: seq<int>, before: seq<int>, r2: seq<int>, g2: seq<int>, b2: seq<int>,
                           width: nat, height: nat, radius: nat, x: nat, y: nat)
    requires 0 < radius && y < height
  {
    && Cell(width, x, y) <= |cells| == |before|
    && (forall k :: 0 <= k < Cell(width, 0, y) ==> cells[k] == before[k])
    && (x > 0 ==> radius < height)
    && (forall k: nat :: k < x ==>
          && At(cells, Cell(width, k, y)) == ColumnPixel(r2, g2, b2, width, height, radius, k, y)
          && CellBytes(r2, g2, b2, Cell(width, k, y)))
  }

  predicate CellBytes(r2: seq<int>, g2: seq<int>, b2: seq<int>, i: nat) {
    IsByte(At(r2, i)) && IsByte(At(g2, i)) && IsByte(At(b2, i))
  }

  lemma StartRow(cells: seq<int>, r2: seq<int>, g2: seq<int>, b2: seq<int>,
                 width: nat, height: nat, radius: nat, y: nat)
    requires 0 < radius && y < height && Cell(width, 0, y) <= |cells|
    ensures PassedTo(cells, cells, r2, g2, b2, width, height, radius, 0, y)
  {
  }

  lemma OneMorePixel(cells: seq<int>, before: seq<int>, r2: seq<int>, g2: seq<int>, b2: seq<int>,
                     width: nat, height: nat, radius: nat, x: nat, y: nat, i: nat)
    requires 0 < radius < height && y < height && PassedTo(cells, before, r2, g2, b2, width, height, radius, x, y)
    requires i == Cell(width, x, y) < |cells| && CellBytes(r2, g2, b2, i)
    ensures PassedTo(cells[i := ColumnPixel(r2, g2, b2, width, height, radius, x, y)], before, r2, g2, b2,
                     width, height, radius, x + 1, y)
  {
  }

  function Offset(ym: int, width: nat): int { ym * width }

  lemma NextOffset(ym: int, width: nat)
    ensures Offset(ym, width) + width == Offset(ym + 1, width)
  {
  }

  /** The first rows are what the column pass writes, and were bytes. */
  ghost predicate PassedColumns(cells: seq<int>, r2: seq<int>, g2: seq<int>, b2: seq<int>,
                                width: nat, height: nat, radius: nat, rows: nat)
    requires 0 < radius && rows <= height
  {
    && (width > 0 && rows > 0 ==> radius < height)
    && (forall x: nat, y: nat :: x < width && y < rows ==>
          && At(cells, Cell(width, x, y)) == ColumnPixel(r2, g2, b2, width, height, radius, x, y)
          && CellBytes(r2, g2, b2, Cell(width, x, y)))
  }

  lemma OneMoreRowOfColumns(cells: seq<int>, before: seq<int>, r2: seq<int>, g2: seq<int>, b2: seq<int>,
                            width: nat, height: nat, radius: nat, y: nat)
    requires 0 < radius && y < height && PassedColumns(before, r2, g2, b2, width, height, radius, y)
    requires PassedTo(cells, before, r2, g2, b2, width, height, radius, width, y)
    ensures PassedColumns(cells, r2, g2, b2, width, height, radius, y + 1)
  {
    CellsBefore(width, y);
  }

  /** How a blur ends. */
  datatype Ended = Done | DivideByZero | IndexOutOfBounds

  /** One channel of the blurred image: the column pass over the row pass. */
  function PassedColumn(pixels: seq<int>, width: nat, height: nat, radius: nat, channel: Channel, x: nat): seq<int>
    requires radius > 0 && x < width
  {
    seq(height, (q: nat) requires radius > 0 && x < width => RowPass(pixels, width, radius, channel, x, q))
  }

  function Blurred(pixels: seq<int>, width: nat, height: nat, radius: nat, channel: Channel, x: nat, y: nat): int
    requires 0 < radius < height && x < width && y < height
  {
    ColumnValue(PassedColumn(pixels, width, height, radius, channel, x), radius, y)
  }

  function BlurredPixel(pixels: seq<int>, width: nat, height: nat, radius: nat, x: nat, y: nat): int
    requires radius > 0 && x < width && y < height
  {
    if radius < height then
      Pack(Blurred(pixels, width, height, radius, R, x, y),
           Blurred(pixels, width, height, radius, G, x, y),
           Blurred(pixels, width, height, radius, B, x, y))
    else 0
  }

  /** The row pass leaves a byte everywhere. */
  ghost predicate RowPassBytes(pixels: seq<int>, width: nat, height: nat, radius: nat)
    requires radius > 0
  {
    forall channel, x: nat, y: nat :: x < width && y < height ==> IsByte(RowPass(pixels, width, radius, channel, x, y))
  }

  lemma ColumnPasses(cells: seq<int>, pixels: seq<int>, width: nat, height: nat, radius: nat, channel: Channel, x: nat)
    requires radius > 0 && x < width && PassedRows(cells, pixels, width, radius, channel, height)
    ensures Column(cells, width, height, x) == PassedColumn(pixels, width, height, radius, channel, x)
  {
  }

  /** An array holds bytes when the row pass leaves bytes in its channel. */
  lemma BytesOfChannel(cells: seq<int>, pixels: seq<int>, width: nat, height: nat, radius: nat, channel: Channel)
    requires radius > 0 && |cells| == width * height && PassedRows(cells, pixels, width, radius, channel, height)
    requires RowPassBytes(pixels, width, height, radius)
    ensures Bytes(cells)
  {
    forall i | 0 <= i < width * height ensures IsByte(cells[i]) {
      CellOf(width, height, i);
      assert At(cells, Cell(width, i % width, i / width))
          == RowPass(pixels, width, radius, channel, i % width, i / width);
    }
  }

  /** Where the array holds a byte, the row pass leaves one. */
  lemma ByteOfCell(cells: seq<int>, pixels: seq<int>, width: nat, height: nat, radius: nat, channel: Channel,
                   x: nat, y: nat)
    requires radius > 0 && PassedRows(cells, pixels, width, radius, channel, height) && x < width && y < height
    requires IsByte(At(cells, Cell(width, x, y)))
    ensures IsByte(RowPass(pixels, width, radius, channel, x, y))
  {
  }

  lemma BytesOfCells(r2: seq<int>, g2: seq<int>, b2: seq<int>, pixels: seq<int>, width: nat, height: nat, radius: nat)
    requires radius > 0
    requires PassedRows(r2, pixels, width, radius, R, height)
    requires PassedRows(g2, pixels, width, radius, G, height)
    requires PassedRows(b2, pixels, width, radius, B, height)
    requires forall x: nat, y: nat :: x < width && y < height ==> CellBytes(r2, g2, b2, Cell(width, x, y))
    ensures RowPassBytes(pixels, width, height, radius)
  {
    forall channel, x: nat, y: nat | x < width && y < height
      ensures IsByte(RowPass(pixels, width, radius, channel, x, y))
    {
      assert CellBytes(r2, g2, b2, Cell(width, x, y));
      match channel {
        case R => ByteOfCell(r2, pixels, width, height, radius, R, x, y);
        case G => ByteOfCell(g2, pixels, width, height, radius, G, x, y);
        case B => ByteOfCell(b2, pixels, width, height, radius, B, x, y);
      }
    }
  }

  ghost predicate IsBlurred(cells: seq<int>, pixels: seq<int>, width: nat, height: nat, radius: nat)
    requires radius > 0
  {
    forall x: nat, y: nat :: x < width && y < height ==>
      At(cells, Cell(width, x, y)) == BlurredPixel(pixels, width, height, radius, x, y)
  }

  lemma TwoPasses(cells: seq<int>, r2: seq<int>, g2: seq<int>, b2: seq<int>, pixels: seq<int>,
                  width: nat, height: nat, radius: nat)
    requires radius > 0 && |r2| == |g2| == |b2| == width * height
    requires PassedRows(r2, pixels, width, radius, R, height)
    requires PassedRows(g2, pixels, width, radius, G, height)
    requires PassedRows(b2, pixels, width, radius, B, height)
    ensures RowPassBytes(pixels, width, height, radius) ==> Bytes(r2) && Bytes(g2) && Bytes(b2)
    ensures PassedColumns(cells, r2, g2, b2, width, height, radius, height) ==>
      RowPassBytes(pixels, width, height, radius) && IsBlurred(cells, pixels, width, height, radius)
  {
    if RowPassBytes(pixels, width, height, radius) {
      BytesOfChannel(r2, pixels, width, height, radius, R);
      BytesOfChannel(g2, pixels, width, height, radius, G);
      BytesOfChannel(b2, pixels, width, height, radius, B);
    }
    if PassedColumns(cells, r2, g2, b2, width, height, radius, height) {
      BytesOfCells(r2, g2, b2, pixels, width, height, radius);
      forall x: nat, y: nat | x < width && y < height
        ensures At(cells, Cell(width, x, y)) == BlurredPixel(pixels, width, height, radius, x, y)
      {
        ColumnPasses(r2, pixels, width, height, radius, R, x);
        ColumnPasses(g2, pixels, width, height, radius, G, x);
        ColumnPasses(b2, pixels, width, height, radius, B, x);
      }
    }
  }

  /** Of the radii from 1 to 248, the one nearest to what is wanted. */
  function ClampedRadius(wanted: int): (radius: nat)
    ensures 1 <= radius <= 248
    ensures (radius == 1 || radius <= wanted) && (radius == 248 || radius >= wanted)
  {
    if wanted < 1 then 1 else if wanted < 248 then wanted else 248
  }

  class Image {
    var width: nat
    var height: nat
    var pixels: array<int>
    var blurRadius: nat
    var blurKernelSize: nat
    var blurKernel: array<int>
    var blurMult: array2<int>

    ghost predicate Valid()
      reads this, blurKernel, blurMult
    {
      && pixels.Length == width * height && pixels != blurKernel
      && blurRadius <= MAX_RADIUS
      && (blurRadius > 0 ==>
            && blurKernelSize == blurKernel.Length == blurMult.Length0 == 2 * blurRadius + 2 && blurMult.Length1 == 256
            && (forall i :: 0 <= i < blurKernelSize ==> blurKernel[i] == Weight(blurRadius, i - blurRadius))
            && (forall i, j :: 0 <= i < blurKernelSize && 0 <= j < 256 ==>
                  blurMult[i, j] == Weight(blurRadius, i - blurRadius) * j))
    }

    constructor (width: nat, height: nat)
      ensures Valid() && blurRadius == 0 && this.width == width && this.height == height
    {
      this.width, this.height := width, height;
      pixels := new int[width * height](_ => 0);
      blurRadius, blurKernelSize := 0, 0;
      blurKernel := new int[0];
      blurMult := new int[0, 0];
    }

    /** buildBlurKernel, for the radius that is wanted: the kernel is built again only when it changes. */
    method BuildBlurKernel(wanted: int)
      requires Valid()
      modifies `blurRadius, `blurKernelSize, `blurKernel, `blurMult
      ensures Valid() && blurRadius == ClampedRadius(wanted)
      ensures blurKernel == old(blurKernel) || fresh(blurKernel)
    {
      var radius := ClampedRadius(wanted);
      if blurRadius != radius {
        blurRadius := radius;
        blurKernelSize := (1 + blurRadius) * 2;
        blurKernel := new int[blurKernelSize](_ => 0);
        blurMult := new int[blurKernelSize, 256]((_, _) => 0);
        FillKernel();
      }
    }

    static predicate FilledAt(d: int, i: int) { 0 < d < i || -i < d < 0 }

    /** The kernel is filled from the middle outwards. */
    method FillKernel()
      requires pixels.Length == width * height && pixels != blurKernel && 0 < blurRadius <= MAX_RADIUS
      requires blurKernelSize == blurKernel.Length == blurMult.Length0 == 2 * blurRadius + 2 && blurMult.Length1 == 256
      requires forall i :: 0 <= i < blurKernelSize ==> blurKernel[i] == 0
      requires forall i, j :: 0 <= i < blurKernelSize && 0 <= j < 256 ==> blurMult[i, j] == 0
      modifies blurKernel, blurMult
      ensures Valid()
    {
      var radius, i, radiusi := blurRadius, 1, blurRadius - 1;
      while i < radius
        invariant 1 <= i <= radius && radiusi == radius - i
        invariant forall k :: 0 <= k < blurKernelSize ==>
          blurKernel[k] == if FilledAt(k - radius, i) then Weight(radius, k - radius) else 0
        invariant forall k, j :: 0 <= k < blurKernelSize && 0 <= j < 256 ==>
          blurMult[k, j] == if FilledAt(k - radius, i) then Weight(radius, k - radius) * j else 0
      {
        var bki := radiusi * radiusi;
        blurKernel[radius + i], blurKernel[radiusi] := bki, bki;
        FillMult(radius + i, bki);
        FillMult(radiusi, bki);
        radiusi := radiusi - 1;
        i := i + 1;
      }
      var bk := radius * radius;
      blurKernel[radius] := bk;
      FillMult(radius, bk);
    }

    method FillMult(row: nat, weight: int)
      requires row < blurMult.Length0 && blurMult.Length1 == 256
      modifies blurMult
      ensures forall k, j :: 0 <= k < blurMult.Length0 && 0 <= j < 256 ==>
        blurMult[k, j] == if k == row then weight * j else old(blurMult[k, j])
    {
      var j := 0;
      while j < 256
        invariant 0 <= j <= 256
        invariant forall k, l :: 0 <= k < blurMult.Length0 && 0 <= l < 256 ==>
          blurMult[k, l] == if k == row && l < j then weight * l else old(blurMult[k, l])
      {
        blurMult[row, j] := weight * j;
        j := j + 1;
      }
    }

    /** What both inner loops add for a cell with these values. */
    method Accumulate(i: nat, r: int, g: int, b: int, cr: int, cg: int, cb: int, sum: int)
      returns (cr1: int, cg1: int, cb1: int, sum1: int)
      requires Valid() && blurRadius > 0 && i < blurKernelSize && IsByte(r) && IsByte(g) && IsByte(b)
      ensures var w := Weight(blurRadius, i - blurRadius);
        cr1 == Wrap(cr + w * r) && cg1 == Wrap(cg + w * g) && cb1 == Wrap(cb + w * b) && sum1 == Wrap(sum + w)
    {
      cr1 := Wrap(cr + blurMult[i, r]);
      cg1 := Wrap(cg + blurMult[i, g]);
      cb1 := Wrap(cb + blurMult[i, b]);
      sum1 := Wrap(sum + blurKernel[i]);
    }

    /** The inner loop of the first pass. */
    method SumRow(yi: nat, x: nat, ghost red: seq<int>, ghost green: seq<int>, ghost blue: seq<int>)
      returns (cr: int, cg: int, cb: int, sum: int)
      requires Valid() && blurRadius > 0 && x < width && yi + width <= pixels.Length
      requires |red| == |green| == |blue| == width
      requires forall k :: 0 <= k < width ==>
        red[k] == Red(pixels[yi + k]) && green[k] == Green(pixels[yi + k]) && blue[k] == Blue(pixels[yi + k])
      ensures Summed(red, green, blue, blurRadius, x, RowFrom(blurRadius, x), RowUpTo(blurRadius, x, width),
                     cr, cg, cb, sum)
    {
      cr, cg, cb, sum := 0, 0, 0, 0;
      var read: int, bk0: int := x - blurRadius, 0;
      if read < 0 {
        bk0 := -read;
        read := 0;
      }
      var i := bk0;
      ghost var lo := read;
      while i < blurKernelSize
        invariant read == x - blurRadius + i && lo <= read <= RowUpTo(blurRadius, x, width)
        invariant Summed(red, green, blue, blurRadius, x, lo, read, cr, cg, cb, sum)
      {
        if read >= width {
          break;
        }
        var c := pixels[read + yi];
        OneMoreCell(red, green, blue, blurRadius, x, lo, read, cr, cg, cb, sum);
        cr, cg, cb, sum := Accumulate(i, Red(c), Green(c), Blue(c), cr, cg, cb, sum);
        read := read + 1;
        i := i + 1;
      }
    }

    /** The row pass over one row. */
    method BlurRow(yi: nat, r2: array<int>, g2: array<int>, b2: array<int>,
                   ghost red: seq<int>, ghost green: seq<int>, ghost blue: seq<int>)
      requires Valid() && blurRadius > 0 && yi + width <= pixels.Length == r2.Length == g2.Length == b2.Length
      requires {r2, g2, b2} !! {pixels, blurKernel} && r2 != g2 && r2 != b2 && g2 != b2
      requires |red| == |green| == |blue| == width
      requires forall k :: 0 <= k < width ==>
        red[k] == Red(pixels[yi + k]) && green[k] == Green(pixels[yi + k]) && blue[k] == Blue(pixels[yi + k])
      modifies r2, g2, b2
      ensures Filled(r2[..], old(r2[..]), yi, red, blurRadius)
      ensures Filled(g2[..], old(g2[..]), yi, green, blurRadius)
      ensures Filled(b2[..], old(b2[..]), yi, blue, blurRadius)
    {
      var x := 0;
      while x < width
        invariant x <= width
        invariant forall k :: 0 <= k < yi ==> r2[k] == old(r2[k]) && g2[k] == old(g2[k]) && b2[k] == old(b2[k])
        invariant forall k :: 0 <= k < x ==>
          && r2[yi + k] == RowValue(red, blurRadius, k)
          && g2[yi + k] == RowValue(green, blurRadius, k)
          && b2[yi + k] == RowValue(blue, blurRadius, k)
      {
        var cr, cg, cb, sum := SumRow(yi, x, red, green, blue);
        CentreWeighs(blurRadius, x, RowFrom(blurRadius, x), RowUpTo(blurRadius, x, width));
        var ri := yi + x;
        r2[ri] := Divide(cr, sum);
        g2[ri] := Divide(cg, sum);
        b2[ri] := Divide(cb, sum);
        x := x + 1;
      }
    }

    /** The row pass over the next row. */
    method BlurNextRow(yi: nat, ghost y: nat, r2: array<int>, g2: array<int>, b2: array<int>)
      requires Valid() && blurRadius > 0 && y < height && yi == Cell(width, 0, y)
      requires pixels.Length == r2.Length == g2.Length == b2.Length
      requires {r2, g2, b2} !! {pixels, blurKernel} && r2 != g2 && r2 != b2 && g2 != b2
      modifies r2, g2, b2
      ensures Filled(r2[..], old(r2[..]), yi, Row(pixels[..], width, y, R), blurRadius)
      ensures Filled(g2[..], old(g2[..]), yi, Row(pixels[..], width, y, G), blurRadius)
      ensures Filled(b2[..], old(b2[..]), yi, Row(pixels[..], width, y, B), blurRadius)
    {
      ghost var p := pixels[..];
      RowInside(width, height, y);
      RowMatches(p, width, y, R);
      RowMatches(p, width, y, G);
      RowMatches(p, width, y, B);
      BlurRow(yi, r2, g2, b2, Row(p, width, y, R), Row(p, width, y, G), Row(p, width, y, B));
    }

    /** The row pass. */
    method BlurRows(r2: array<int>, g2: array<int>, b2: array<int>)
      requires Valid() && blurRadius > 0 && pixels.Length == r2.Length == g2.Length == b2.Length
      requires {r2, g2, b2} !! {pixels, blurKernel} && r2 != g2 && r2 != b2 && g2 != b2
      modifies r2, g2, b2
      ensures PassedRows(r2[..], pixels[..], width, blurRadius, R, height)
      ensures PassedRows(g2[..], pixels[..], width, blurRadius, G, height)
      ensures PassedRows(b2[..], pixels[..], width, blurRadius, B, height)
    {
      var yi, y := 0, 0;
      ghost var p := pixels[..];
      while y < height
        invariant y <= height && yi == Cell(width, 0, y)
        invariant PassedRows(r2[..], p, width, blurRadius, R, y)
        invariant PassedRows(g2[..], p, width, blurRadius, G, y)
        invariant PassedRows(b2[..], p, width, blurRadius, B, y)
      {
        ghost var r0, g0, b0 := r2[..], g2[..], b2[..];
        BlurNextRow(yi, y, r2, g2, b2);
        OneMoreRow(r0, r2[..], p, width, blurRadius, R, y);
        OneMoreRow(g0, g2[..], p, width, blurRadius, G, y);
        OneMoreRow(b0, b2[..], p, width, blurRadius, B, y);
        RowInside(width, height, y);
        yi := yi + width;
        y := y + 1;
      }
    }

    /** The inner loop of the second pass, for row y = ym + blurRadius. */
    method SumColumn(x: nat, ym: int, ymi: int, r2: array<int>, g2: array<int>, b2: array<int>,
                     ghost y: nat, ghost red: seq<int>, ghost green: seq<int>, ghost blue: seq<int>)
      returns (ok: bool, cr: int, cg: int, cb: int, sum: int)
      requires Valid() && blurRadius > 0 && y < height && ym == y - blurRadius && ymi == Offset(ym, width)
      requires |red| == |green| == |blue| == height
      requires IsColumn(red, r2, width, x) && IsColumn(green, g2, width, x) && IsColumn(blue, b2, width, x)
      ensures var lo, hi := RowFrom(blurRadius, y), ColumnUpTo(blurRadius, y, height);
        if ok then
          && WindowBytes(red, green, blue, lo, hi)
          && Summed(red, green, blue, blurRadius, y, lo, hi, cr, cg, cb, sum)
        else lo < hi && !WindowBytes(red, green, blue, lo, hi)
    {
      hide Weight, WeightedSum, Wrap, Summed;
      cr, cg, cb, sum := 0, 0, 0, 0;
      var bk0: int, ri: int, read: int := 0, ym, x + ymi;
      if ym < 0 {
        bk0, ri, read := -ym, -ym, x;
      }
      var i := bk0;
      ghost var lo, q := RowFrom(blurRadius, y), RowFrom(blurRadius, y);
      ghost var hi := ColumnUpTo(blurRadius, y, height);
      EmptyWindow(red, green, blue, blurRadius, y, lo, lo);
      while i < blurKernelSize && ri < height
        invariant q == y - blurRadius + i && lo <= q <= height && read == Cell(width, x, q)
        invariant ri == if ym < 0 then q - ym else q
        invariant q <= hi || (q == lo && sum == cr == cg == cb == 0)
        invariant WindowBytes(red, green, blue, lo, q)
        invariant Summed(red, green, blue, blurRadius, y, lo, q, cr, cg, cb, sum)
      {
        var r, g, b := r2[read], g2[read], b2[read];
        assert r == red[q] && g == green[q] && b == blue[q];
        if !(IsByte(r) && IsByte(g) && IsByte(b)) {
          return false, cr, cg, cb, sum;
        }
        OneMoreCell(red, green, blue, blurRadius, y, lo, q, cr, cg, cb, sum);
        OneMoreBytes(red, green, blue, lo, q);
        CellBelow(width, x, q);
        cr, cg, cb, sum := Accumulate(i, r, g, b, cr, cg, cb, sum);
        q := q + 1;
        ri := ri + 1;
        read := read + width;
        i := i + 1;
      }
      if hi < q {
        EmptyWindow(red, green, blue, blurRadius, y, lo, hi);
      }
      ok := true;
    }

    /** One pixel of the column pass: it reads its window of bytes, and divides by its weight. */
    method ColumnAt(x: nat, ym: int, ymi: int, r2: array<int>, g2: array<int>, b2: array<int>, ghost y: nat)
      returns (end: Ended, pixel: int)
      requires Valid() && blurRadius > 0 && x < width && y < height && ym == y - blurRadius && ymi == Offset(ym, width)
      requires pixels.Length == r2.Length == g2.Length == b2.Length && (y == 0 || blurRadius < height)
      ensures end == DivideByZero ==> blurRadius >= height
      ensures end == IndexOutOfBounds ==> blurRadius < height && !(Bytes(r2[..]) && Bytes(g2[..]) && Bytes(b2[..]))
      ensures end == Done ==>
        && blurRadius < height
        && pixel == ColumnPixel(r2[..], g2[..], b2[..], width, height, blurRadius, x, y)
        && CellBytes(r2[..], g2[..], b2[..], Cell(width, x, y))
    {
      ghost var red, green := Column(r2[..], width, height, x), Column(g2[..], width, height, x);
      ghost var blue := Column(b2[..], width, height, x);
      ColumnIsColumn(r2, width, height, x);
      ColumnIsColumn(g2, width, height, x);
      ColumnIsColumn(b2, width, height, x);
      var ok, cr, cg, cb, sum := SumColumn(x, ym, ymi, r2, g2, b2, y, red, green, blue);
      pixel := 0;
      if !ok {
        end := IndexOutOfBounds;
      } else if sum == 0 {
        CentreWeighs(blurRadius, y, RowFrom(blurRadius, y), ColumnUpTo(blurRadius, y, height));
        end := DivideByZero;
      } else {
        end := Done;
        pixel := Pack(Divide(cr, sum), Divide(cg, sum), Divide(cb, sum));
      }
    }

    /** The column pass over one row. */
    method BlurColumnsRow(yi: nat, ym: int, ymi: int, r2: array<int>, g2: array<int>, b2: array<int>, ghost y: nat)
      returns (end: Ended)
      requires Valid() && blurRadius > 0 && y < height
      requires yi == Cell(width, 0, y) && ym == y - blurRadius && ymi == Offset(ym, width)
      requires pixels.Length == r2.Length == g2.Length == b2.Length && (width == 0 || y == 0 || blurRadius < height)
      requires {r2, g2, b2} !! {pixels}
      modifies pixels
      ensures end == DivideByZero ==> width > 0 && blurRadius >= height
      ensures end == IndexOutOfBounds ==> blurRadius < height && !(Bytes(r2[..]) && Bytes(g2[..]) && Bytes(b2[..]))
      ensures end == Done ==> width == 0 || blurRadius < height
      ensures end == Done ==>
        PassedTo(pixels[..], old(pixels[..]), r2[..], g2[..], b2[..], width, height, blurRadius, width, y)
    {
      hide ColumnPixel, PassedTo, Bytes, CellBytes;
      RowInside(width, height, y);
      ghost var r0, g0, b0 := r2[..], g2[..], b2[..];
      StartRow(pixels[..], r0, g0, b0, width, height, blurRadius, y);
      var x := 0;
      while x < width
        invariant x <= width && (x > 0 ==> blurRadius < height)
        invariant PassedTo(pixels[..], old(pixels[..]), r0, g0, b0, width, height, blurRadius, x, y)
      {
        var pixel;
        end, pixel := ColumnAt(x, ym, ymi, r2, g2, b2, y);
        if end != Done {
          return;
        }
        ghost var cells := pixels[..];
        OneMorePixel(cells, old(pixels[..]), r0, g0, b0, width, height, blurRadius, x, y, x + yi);
        pixels[x + yi] := pixel;
        assert pixels[..] == cells[x + yi := pixel];
        x := x + 1;
      }
      end := Done;
    }

    /** The column pass. */
    method BlurColumns(r2: array<int>, g2: array<int>, b2: array<int>) returns (end: Ended)
      requires Valid() && blurRadius > 0 && pixels.Length == r2.Length == g2.Length == b2.Length
      requires {r2, g2, b2} !! {pixels}
      modifies pixels
      ensures end == DivideByZero ==> width > 0 && 0 < height <= blurRadius
      ensures end == IndexOutOfBounds ==> blurRadius < height && !(Bytes(r2[..]) && Bytes(g2[..]) && Bytes(b2[..]))
      ensures end == Done ==>
        PassedColumns(pixels[..], r2[..], g2[..], b2[..], width, height, blurRadius, height)
    {
      hide ColumnPixel, PassedTo, Bytes;
      ghost var r0, g0, b0 := r2[..], g2[..], b2[..];
      var yi, ym: int := 0, -1 * blurRadius;
      var ymi: int := ym * width;
      var y := 0;
      while y < height
        invariant y <= height && yi == Cell(width, 0, y) && ym == y - blurRadius && ymi == Offset(ym, width)
        invariant y > 0 && width > 0 ==> blurRadius < height
        invariant PassedColumns(pixels[..], r0, g0, b0, width, height, blurRadius, y)
      {
        ghost var before := pixels[..];
        end := BlurColumnsRow(yi, ym, ymi, r2, g2, b2, y);
        if end != Done {
          return;
        }
        OneMoreRowOfColumns(pixels[..], before, r0, g0, b0, width, height, blurRadius, y);
        RowInside(width, height, y);
        NextOffset(ym, width);
        yi := yi + width;
        ymi := ymi + width;
        ym := ym + 1;
        y := y + 1;
      }
      end := Done;
    }

    /** blurRGB: the image is blurred in place, unless it is no higher than the radius or a sum overflows. */
    method BlurRGB(wanted: int) returns (end: Ended)
      requires Valid()
      modifies this, pixels
      ensures Valid() && width == old(width) && height == old(height) && pixels == old(pixels)
      ensures blurRadius == ClampedRadius(wanted)
      ensures end == DivideByZero <==> width > 0 && 0 < height <= blurRadius
      ensures end == IndexOutOfBounds
        <==> blurRadius < height && !RowPassBytes(old(pixels[..]), width, height, blurRadius)
      ensures end == Done ==> IsBlurred(pixels[..], old(pixels[..]), width, height, blurRadius)
    {
      var wh := pixels.Length;
      var r2 := new int[wh](_ => 0);
      var g2 := new int[wh](_ => 0);
      var b2 := new int[wh](_ => 0);
      BuildBlurKernel(wanted);
      ghost var p := pixels[..];
      BlurRows(r2, g2, b2);
      end := BlurColumns(r2, g2, b2);
      TwoPasses(pixels[..], r2[..], g2[..], b2[..], p, width, height, blurRadius);
    }
  }
}
