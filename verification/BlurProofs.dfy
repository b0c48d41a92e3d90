/**
 What the blur of core/methods/demo/PImage.java does to an image: for which radius and height it works, that it stays
 between the darkest and the brightest value, and when its windows are those of a whole kernel.
 */
module BlurProofs {
  import opened Blur
  import opened BlurKernel
  import opened Ints
  import opened Pixels

  // ----- The kernel weighs nothing outside of its window -----

  lemma {:induction false} ShorterWindow(line: seq<int>, radius: nat, c: int, lo: nat, hi: nat, end: nat)
    requires lo <= hi <= end <= |line| && c + radius <= hi
    ensures WeightedSum(line, radius, c, lo, hi) == WeightedSum(line, radius, c, lo, end)
    ensures Weights(radius, c, lo, hi) == Weights(radius, c, lo, end)
    decreases end
  {
    if hi < end {
      ShorterWindow(line, radius, c, lo, hi, end - 1);
    }
  }

  lemma {:induction false} LaterWindow(line: seq<int>, radius: nat, c: int, start: nat, lo: nat, hi: nat)
    requires start <= lo <= hi <= |line| && lo + radius <= c + 1
    ensures WeightedSum(line, radius, c, lo, hi) == WeightedSum(line, radius, c, start, hi)
    ensures Weights(radius, c, lo, hi) == Weights(radius, c, start, hi)
    decreases hi
  {
    if lo < hi {
      LaterWindow(line, radius, c, start, lo, hi - 1);
    } else if start < lo {
      LaterWindow(line, radius, c, start, lo - 1, hi - 1);
    }
  }

  /** The row pass weighs the whole row. */
  lemma RowWindowIsWhole(row: seq<int>, radius: nat, x: nat)
    requires radius > 0 && x < |row|
    ensures WeightedSum(row, radius, x, RowFrom(radius, x), RowUpTo(radius, x, |row|))
         == WeightedSum(row, radius, x, 0, |row|)
    ensures Weights(radius, x, RowFrom(radius, x), RowUpTo(radius, x, |row|)) == Weights(radius, x, 0, |row|)
  {
    var lo, hi := RowFrom(radius, x), RowUpTo(radius, x, |row|);
    if lo > 0 {
      LaterWindow(row, radius, x, 0, lo, hi);
    }
    if hi < |row| {
      ShorterWindow(row, radius, x, 0, hi, |row|);
    }
  }

  function CutSum(column: seq<int>, radius: nat, y: nat): int
    requires y < |column|
  {
    WeightedSum(column, radius, y, RowFrom(radius, y), ColumnUpTo(radius, y, |column|))
  }

  /** The column pass weighs the whole column, whatever is in it, exactly when the image is twice as high as the radius:
      otherwise rows further down are left out near the top. */
  lemma ColumnWindowIsWhole(height: nat, radius: nat)
    requires 0 < radius < height
    ensures (forall column: seq<int>, y: nat :: |column| == height && y < height ==>
              CutSum(column, radius, y) == WeightedSum(column, radius, y, 0, height))
      <==> 2 * radius <= height
  {
    if 2 * radius <= height {
      forall column: seq<int>, y: nat | |column| == height && y < height
        ensures CutSum(column, radius, y) == WeightedSum(column, radius, y, 0, height)
      {
        var lo, hi := RowFrom(radius, y), ColumnUpTo(radius, y, height);
        if lo > 0 {
          LaterWindow(column, radius, y, 0, lo, hi);
        }
        if hi < height {
          ShorterWindow(column, radius, y, 0, hi, height);
        }
      }
    } else {
      var column := seq(height - 1, _ => 0) + [1];
      var y := radius - 1;
      SumBetween(column, radius, y, 0, height - 1, 0, 0);
      assert WeightedSum(column, radius, y, 0, height) == Weight(radius, height - 1 - y) > 0;
      SumBetween(column, radius, y, RowFrom(radius, y), ColumnUpTo(radius, y, height), 0, 0);
      assert CutSum(column, radius, y) == 0;
    }
  }

  // ----- Which images can be blurred -----

  /** The value that a row window of bytes gets. */
  lemma RowValueIsMean(row: seq<int>, radius: nat, x: nat, low: int, high: int)
    requires 0 < radius <= MAX_RADIUS && x < |row| && 0 <= low <= high <= 255 && Between(row, 0, |row|, low, high)
    ensures WeightedSum(row, radius, x, 0, |row|) < INT_LIMIT <==> IsByte(RowValue(row, radius, x))
    ensures Weights(radius, x, 0, |row|) > 0
    ensures IsByte(RowValue(row, radius, x)) ==>
      low <= RowValue(row, radius, x) == WeightedSum(row, radius, x, 0, |row|) / Weights(radius, x, 0, |row|) <= high
  {
    RowWindowIsWhole(row, radius, x);
    ValueIsMean(row, radius, x, RowFrom(radius, x), RowUpTo(radius, x, |row|), low, high);
  }

  lemma RowHoldsBytes(pixels: seq<int>, width: nat, y: nat, channel: Channel)
    ensures Between(Row(pixels, width, y, channel), 0, width, 0, 255)
  {
  }

  /** What the row pass accumulates for a cell. */
  function RowSum(pixels: seq<int>, width: nat, radius: nat, channel: Channel, x: nat, y: nat): int {
    WeightedSum(Row(pixels, width, y, channel), radius, x, 0, width)
  }

  /** The row pass leaves bytes exactly when every weighted sum of a row is an int. */
  lemma RowPassFits(pixels: seq<int>, width: nat, height: nat, radius: nat)
    requires 0 < radius <= MAX_RADIUS
    ensures RowPassBytes(pixels, width, height, radius) <==>
      forall channel, x: nat, y: nat :: x < width && y < height ==>
        RowSum(pixels, width, radius, channel, x, y) < INT_LIMIT
  {
    forall channel, x: nat, y: nat | x < width && y < height
      ensures IsByte(RowPass(pixels, width, radius, channel, x, y))
         <==> RowSum(pixels, width, radius, channel, x, y) < INT_LIMIT
    {
      RowHoldsBytes(pixels, width, y, channel);
      RowValueIsMean(Row(pixels, width, y, channel), radius, x, 0, 255);
    }
    if RowPassBytes(pixels, width, height, radius) {
      forall channel, x: nat, y: nat | x < width && y < height
        ensures RowSum(pixels, width, radius, channel, x, y) < INT_LIMIT
      {
        assert IsByte(RowPass(pixels, width, radius, channel, x, y));
      }
    }
  }

  // ----- The blurred image -----

  ghost predicate ChannelBetween(pixels: seq<int>, channel: Channel, low: int, high: int) {
    forall i :: 0 <= i < |pixels| ==> low <= Part(channel, pixels[i]) <= high
  }

  lemma CellsInside(width: nat, height: nat, y: nat)
    requires y < height
    ensures forall x: nat :: x < width ==> Cell(width, x, y) < width * height
  {
    RowInside(width, height, y);
  }

  /** What the column pass accumulates for a cell. */
  function ColumnSum(pixels: seq<int>, width: nat, height: nat, radius: nat, channel: Channel, x: nat, y: nat): int
    requires radius > 0 && x < width && y < height
  {
    CutSum(PassedColumn(pixels, width, height, radius, channel, x), radius, y)
  }

  function ColumnWeights(height: nat, radius: nat, y: nat): nat
    requires y < height
  {
    Weights(radius, y, RowFrom(radius, y), ColumnUpTo(radius, y, height))
  }

  lemma PassedBetween(pixels: seq<int>, width: nat, height: nat, radius: nat, channel: Channel, x: nat,
                      low: int, high: int)
    requires 0 < radius <= MAX_RADIUS && x < width && |pixels| == width * height
    requires RowPassBytes(pixels, width, height, radius)
    requires 0 <= low <= high <= 255 && ChannelBetween(pixels, channel, low, high)
    ensures Between(PassedColumn(pixels, width, height, radius, channel, x), 0, height, low, high)
  {
    forall q: nat | q < height ensures low <= RowPass(pixels, width, radius, channel, x, q) <= high {
      CellsInside(width, height, q);
      assert IsByte(RowPass(pixels, width, radius, channel, x, q));
      RowValueIsMean(Row(pixels, width, q, channel), radius, x, low, high);
    }
  }

  /** Each channel of the blurred image stays between the least and the greatest value of that channel, and is the mean
      of its column after each cell of it has become the mean of its row, exactly when the column's sum is an int:
      otherwise it is negative. */
  lemma BlurredBetween(pixels: seq<int>, width: nat, height: nat, radius: nat, channel: Channel, x: nat, y: nat,
                       low: int, high: int)
    requires 0 < radius <= MAX_RADIUS && radius < height && x < width && y < height && |pixels| == width * height
    requires RowPassBytes(pixels, width, height, radius)
    requires 0 <= low <= high <= 255 && ChannelBetween(pixels, channel, low, high)
    ensures ColumnWeights(height, radius, y) > 0
    ensures var sum, value := ColumnSum(pixels, width, height, radius, channel, x, y),
                              Blurred(pixels, width, height, radius, channel, x, y);
      if sum < INT_LIMIT then low <= value == sum / ColumnWeights(height, radius, y) <= high else value < 0
  {
    PassedBetween(pixels, width, height, radius, channel, x, low, high);
    ValueIsMean(PassedColumn(pixels, width, height, radius, channel, x), radius, y,
                RowFrom(radius, y), ColumnUpTo(radius, y, height), low, high);
  }

  lemma BlurredIsByte(pixels: seq<int>, width: nat, height: nat, radius: nat, channel: Channel, x: nat, y: nat)
    requires 0 < radius <= MAX_RADIUS && radius < height && x < width && y < height && |pixels| == width * height
    requires RowPassBytes(pixels, width, height, radius)
    ensures IsByte(Blurred(pixels, width, height, radius, channel, x, y))
      <==> ColumnSum(pixels, width, height, radius, channel, x, y) < INT_LIMIT
  {
    hide Blurred, ColumnSum, ColumnWeights, RowPassBytes;
    BlurredBetween(pixels, width, height, radius, channel, x, y, 0, 255);
  }

  lemma PackKeepsBytes(r: int, g: int, b: int)
    ensures Red(Pack(r, g, b)) == r && Green(Pack(r, g, b)) == g && Blue(Pack(r, g, b)) == b
      <==> IsByte(r) && IsByte(g) && IsByte(b)
  {
    hide Pack;
    if IsByte(r) && IsByte(g) && IsByte(b) {
      PackKeeps(r, g, b);
    }
  }

  /** The three channels of the blurred pixel do not bleed into each other, exactly when their column sums are ints. */
  lemma BlurredChannels(pixels: seq<int>, width: nat, height: nat, radius: nat, x: nat, y: nat)
    requires 0 < radius <= MAX_RADIUS && radius < height && x < width && y < height && |pixels| == width * height
    requires RowPassBytes(pixels, width, height, radius)
    ensures (forall channel :: Part(channel, BlurredPixel(pixels, width, height, radius, x, y))
                            == Blurred(pixels, width, height, radius, channel, x, y))
      <==> forall channel :: ColumnSum(pixels, width, height, radius, channel, x, y) < INT_LIMIT
  {
    hide Blurred, ColumnSum, RowPassBytes, Pack, Red, Green, Blue;
    forall channel
      ensures IsByte(Blurred(pixels, width, height, radius, channel, x, y))
         <==> ColumnSum(pixels, width, height, radius, channel, x, y) < INT_LIMIT
    {
      BlurredIsByte(pixels, width, height, radius, channel, x, y);
    }
    var r, g, b := Blurred(pixels, width, height, radius, R, x, y), Blurred(pixels, width, height, radius, G, x, y),
                   Blurred(pixels, width, height, radius, B, x, y);
    PackKeepsBytes(r, g, b);
    var pixel := BlurredPixel(pixels, width, height, radius, x, y);
    assert pixel == Pack(r, g, b);
    assert Part(R, pixel) == Red(pixel) && Part(G, pixel) == Green(pixel) && Part(B, pixel) == Blue(pixel);
  }

  // ----- Which sizes can be blurred -----

  /** Six times the weight of a row around its cell x. */
  function RowWeight(width: nat, radius: nat, x: int): int { SixTimes(radius, width - x) - SixTimes(radius, -x) }

  /** No row sum overflows: that of a white row around its middle is the greatest. */
  predicate RowFits(width: nat, radius: nat) { 255 * RowWeight(width, radius, (width - 1) / 2) < 6 * INT_LIMIT }

  /** No column sum overflows: that of a white column around row `radius` is the greatest. */
  predicate ColumnFits(height: nat, radius: nat) { 255 * SixTimes(radius, height - radius) < 6 * INT_LIMIT }

  lemma SquareGrows(a: nat, b: nat)
    requires a <= b
    ensures a * a <= b * b
  {
  }

  lemma WeightFalls(radius: nat, d: int, e: int)
    requires 0 <= d <= e
    ensures Weight(radius, e) <= Weight(radius, d)
  {
    if e < radius {
      SquareGrows(radius - e, radius - d);
    }
  }

  lemma WeightIsEven(radius: nat, d: int)
    ensures Weight(radius, -d) == Weight(radius, d)
  {
  }

  lemma {:induction false} MiddleIsHeaviest(width: nat, radius: nat, x: int)
    requires radius > 0 && 0 <= x < width
    ensures RowWeight(width, radius, x) <= RowWeight(width, radius, (width - 1) / 2)
    decreases if x < (width - 1) / 2 then (width - 1) / 2 - x else x - (width - 1) / 2
  {
    hide SixTimes, Weight;
    if x < (width - 1) / 2 {
      MiddleIsHeaviest(width, radius, x + 1);
      SixTimesStep(radius, width - x - 1);
      SixTimesStep(radius, -x - 1);
      WeightIsEven(radius, x + 1);
      WeightFalls(radius, x + 1, width - x - 1);
    } else if x > (width - 1) / 2 {
      MiddleIsHeaviest(width, radius, x - 1);
      SixTimesStep(radius, width - x);
      SixTimesStep(radius, -x);
      WeightIsEven(radius, x);
      WeightFalls(radius, width - x, x);
    }
  }

  /** A row of bytes sums up to 255 times its weight at most, and a white one to that much. */
  lemma RowSums(row: seq<int>, radius: nat, x: nat)
    requires radius > 0 && x < |row| && Between(row, 0, |row|, 0, 255)
    ensures 6 * WeightedSum(row, radius, x, 0, |row|) <= 255 * RowWeight(|row|, radius, x)
    ensures Between(row, 0, |row|, 255, 255) ==>
      6 * WeightedSum(row, radius, x, 0, |row|) == 255 * RowWeight(|row|, radius, x)
  {
    WeightsClosed(radius, x, 0, |row|);
    SumBetween(row, radius, x, 0, |row|, 0, 255);
    if Between(row, 0, |row|, 255, 255) {
      SumBetween(row, radius, x, 0, |row|, 255, 255);
    }
  }

  lemma HeaviestColumn(height: nat, radius: nat, y: nat)
    requires 0 < radius < height && y < height
    ensures 6 * ColumnWeights(height, radius, y) <= SixTimes(radius, height - radius)
    ensures y == radius ==> 6 * ColumnWeights(height, radius, y) == SixTimes(radius, height - radius)
  {
    hide SixTimes;
    var lo, hi := RowFrom(radius, y), ColumnUpTo(radius, y, height);
    WeightsClosed(radius, y, lo, hi);
    SixTimesBetween(radius, lo - y);
    SixTimesGrows(radius, hi - y, height - radius);
    if y == radius {
      SixTimesEnds(radius, lo - y);
      SixTimesEnds(radius, hi - y);
      SixTimesEnds(radius, height - radius);
    }
  }

  /** A column of bytes sums up to 255 times its weight at most, and a white one to that much. */
  lemma ColumnSums(column: seq<int>, radius: nat, y: nat)
    requires 0 < radius < |column| && y < |column| && Between(column, 0, |column|, 0, 255)
    ensures 6 * CutSum(column, radius, y) <= 255 * SixTimes(radius, |column| - radius)
    ensures Between(column, 0, |column|, 255, 255) && y == radius ==>
      6 * CutSum(column, radius, y) == 255 * SixTimes(radius, |column| - radius)
  {
    hide SixTimes;
    var lo, hi := RowFrom(radius, y), ColumnUpTo(radius, y, |column|);
    HeaviestColumn(|column|, radius, y);
    SumBetween(column, radius, y, lo, hi, 0, 255);
    if Between(column, 0, |column|, 255, 255) {
      SumBetween(column, radius, y, lo, hi, 255, 255);
    }
  }

  lemma RowPassWorks(pixels: seq<int>, width: nat, height: nat, radius: nat)
    requires 0 < radius <= MAX_RADIUS && RowFits(width, radius)
    ensures RowPassBytes(pixels, width, height, radius)
  {
    hide RowWeight;
    forall channel, x: nat, y: nat | x < width && y < height
      ensures RowSum(pixels, width, radius, channel, x, y) < INT_LIMIT
    {
      RowHoldsBytes(pixels, width, y, channel);
      RowSums(Row(pixels, width, y, channel), radius, x);
      MiddleIsHeaviest(width, radius, x);
    }
    RowPassFits(pixels, width, height, radius);
  }

  ghost function White(n: nat): seq<int> { seq(n, _ => -1) }

  lemma WhiteRow(width: nat, height: nat, y: nat, channel: Channel)
    requires y < height
    ensures Between(Row(White(width * height), width, y, channel), 0, width, 255, 255)
  {
    CellsInside(width, height, y);
  }

  lemma WhiteOverflows(width: nat, height: nat, radius: nat)
    requires 0 < radius <= MAX_RADIUS && 0 < width && 0 < height && !RowFits(width, radius)
    ensures !RowPassBytes(White(width * height), width, height, radius)
  {
    hide RowWeight;
    var white, x := White(width * height), (width - 1) / 2;
    WhiteRow(width, height, 0, B);
    RowSums(Row(white, width, 0, B), radius, x);
    assert RowSum(white, width, radius, B, x, 0) >= INT_LIMIT;
    RowPassFits(white, width, height, radius);
  }

  /** The row pass leaves bytes, whatever the image, exactly when the row of this width fits. */
  lemma RowPassFitsAll(width: nat, height: nat, radius: nat)
    requires 0 < radius <= MAX_RADIUS && 0 < width && 0 < height
    ensures (forall pixels: seq<int> :: |pixels| == width * height ==> RowPassBytes(pixels, width, height, radius))
      <==> RowFits(width, radius)
  {
    hide RowPassBytes, RowFits;
    if RowFits(width, radius) {
      forall pixels: seq<int> | |pixels| == width * height ensures RowPassBytes(pixels, width, height, radius) {
        RowPassWorks(pixels, width, height, radius);
      }
    } else {
      WhiteOverflows(width, height, radius);
    }
  }

  /** Both passes leave bytes. */
  ghost predicate Blurs(pixels: seq<int>, width: nat, height: nat, radius: nat)
    requires 0 < radius < height
  {
    && RowPassBytes(pixels, width, height, radius)
    && forall channel, x: nat, y: nat :: x < width && y < height ==>
      IsByte(Blurred(pixels, width, height, radius, channel, x, y))
  }

  lemma SizeWorks(pixels: seq<int>, width: nat, height: nat, radius: nat)
    requires 0 < radius <= MAX_RADIUS && radius < height && |pixels| == width * height
    requires RowFits(width, radius) && ColumnFits(height, radius)
    ensures Blurs(pixels, width, height, radius)
  {
    hide RowPassBytes, RowFits, Blurred, SixTimes;
    RowPassWorks(pixels, width, height, radius);
    forall channel, x: nat, y: nat | x < width && y < height
      ensures IsByte(Blurred(pixels, width, height, radius, channel, x, y))
    {
      PassedBetween(pixels, width, height, radius, channel, x, 0, 255);
      ColumnSums(PassedColumn(pixels, width, height, radius, channel, x), radius, y);
      BlurredBetween(pixels, width, height, radius, channel, x, y, 0, 255);
    }
  }

  lemma WhiteColumnOverflows(width: nat, height: nat, radius: nat)
    requires 0 < radius <= MAX_RADIUS && radius < height && 0 < width
    requires RowFits(width, radius) && !ColumnFits(height, radius)
    ensures var white := White(width * height);
      && RowPassBytes(white, width, height, radius)
      && Blurred(white, width, height, radius, B, 0, radius) < 0
  {
    hide RowPassBytes, RowFits, Blurred, SixTimes;
    var white := White(width * height);
    RowPassWorks(white, width, height, radius);
    assert ChannelBetween(white, B, 255, 255);
    PassedBetween(white, width, height, radius, B, 0, 255, 255);
    ColumnSums(PassedColumn(white, width, height, radius, B, 0), radius, radius);
    BlurredBetween(white, width, height, radius, B, 0, radius, 255, 255);
  }

  /** Every image of this size is blurred without an overflow in either pass, exactly when its row and its column
      fit. */
  lemma SizeFits(width: nat, height: nat, radius: nat)
    requires 0 < radius <= MAX_RADIUS && radius < height && 0 < width
    ensures (forall pixels: seq<int> :: |pixels| == width * height ==> Blurs(pixels, width, height, radius))
      <==> RowFits(width, radius) && ColumnFits(height, radius)
  {
    hide RowPassBytes, RowFits, ColumnFits, Blurred;
    if !RowFits(width, radius) {
      WhiteOverflows(width, height, radius);
      assert !Blurs(White(width * height), width, height, radius);
    } else if !ColumnFits(height, radius) {
      WhiteColumnOverflows(width, height, radius);
      assert !Blurs(White(width * height), width, height, radius);
    } else {
      forall pixels: seq<int> | |pixels| == width * height ensures Blurs(pixels, width, height, radius) {
        SizeWorks(pixels, width, height, radius);
      }
    }
  }

  /** Up to a radius of 232 every size fits, and from 233 on none that holds a whole kernel. */
  lemma RadiusFitsAll(width: nat, height: nat, radius: nat)
    requires 0 < radius <= MAX_RADIUS && 0 < width
    ensures radius <= 232 ==> RowFits(width, radius) && ColumnFits(height, radius)
    ensures radius > 232 && 2 * radius - 1 <= width ==> !RowFits(width, radius)
    ensures radius > 232 && 2 * radius <= height ==> !ColumnFits(height, radius)
  {
    hide SixTimes;
    var middle := (width - 1) / 2;
    LargestRadius(radius);
    SixTimesBetween(radius, width - middle);
    SixTimesBetween(radius, -middle);
    SixTimesEnds(radius, width - middle);
    SixTimesEnds(radius, -middle);
    SixTimesBetween(radius, height - radius);
    SixTimesEnds(radius, height - radius);
  }

  /** A narrow image can pass the rows and still overflow in the columns: its pixels then bleed. */
  lemma NarrowBleeds()
    ensures RowFits(1, 248) && !ColumnFits(496, 248)
    ensures RowPassBytes(White(496), 1, 496, 248) && Blurred(White(496), 1, 496, 248, B, 0, 248) < 0
  {
    RadiusFitsAll(1, 496, 248);
    assert White(1 * 496) == White(496);
    WhiteColumnOverflows(1, 496, 248);
  }
}
