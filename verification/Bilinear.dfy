/**
 The 15-bit fixed-point filter of core/methods/demo/PImage.java: `filter_bilinear` mixes four packed texels channel by
 channel, within one int each.
 */
module Bilinear {
  import opened Arithmetic
  import opened Ints
  import opened Pixels

  /** 1 << PRECISIONB. */
  const ONE: int := 0x8000

  function Alpha(c: int): int { c / 256 / 256 / 256 % 256 }

  /** x >>> PRECISIONB. */
  function UnsignedShift(x: int): int { x % (2 * INT_LIMIT) / ONE }

  datatype Weights = Weights(ul: int, ll: int, ur: int, lr: int)

  predicate IsFraction(f: int) { 0 <= f < ONE }

  /** The weights of the four texels around a point: products of fractions, each cut to 15 bits. */
  function WeightsAt(fracU: int, fracV: int): Weights {
    var ifU, ifV := ONE - 1 - fracU, ONE - 1 - fracV;
    Weights(ifU * ifV / ONE, ifU * fracV / ONE, fracU * ifV / ONE, fracU * fracV / ONE)
  }

  /** The texels around a point: upper left, lower left, upper right, lower right. */
  datatype Texels = Texels(ul: int, ll: int, ur: int, lr: int) {
    function Reds(): Texels { Texels(Red(ul), Red(ll), Red(ur), Red(lr)) }
    function Greens(): Texels { Texels(Green(ul), Green(ll), Green(ur), Green(lr)) }
    function Blues(): Texels { Texels(Blue(ul), Blue(ll), Blue(ur), Blue(lr)) }
    function Alphas(): Texels { Texels(Alpha(ul), Alpha(ll), Alpha(ur), Alpha(lr)) }

    predicate Between(low: int, high: int) {
      low <= ul <= high && low <= ll <= high && low <= ur <= high && low <= lr <= high
    }
  }

  function Sum(w: Weights, t: Texels): int { w.ul * t.ul + w.ll * t.ll + w.ur * t.ur + w.lr * t.lr }

  /** The int that filter_bilinear returns for these texels, with its shifts and masks. */
  function Filtered(w: Weights, t: Texels): int {
    var r := Red(Wrap(Sum(w, t.Reds()) * 2)) * 0x10000;
    var g := Green(UnsignedShift(Wrap(Sum(w, Times256(t.Greens()))))) * 0x100;
    var b := UnsignedShift(Wrap(Sum(w, t.Blues())));
    var a := Wrap(Alpha(Wrap(Sum(w, t.Alphas()) * 0x200)) * 0x1000000);
    Or(Or(Or(a, r), g), b)
  }

  /** What becomes of one channel. */
  function Mixed(w: Weights, t: Texels): int { Sum(w, t) / ONE }

  // ----- The weights -----

  lemma Products(u: int, v: int)
    requires IsFraction(u) && IsFraction(v)
    ensures u * (ONE - 1 - v) + u * v == u * (ONE - 1) && 0 <= u * v
  {
  }

  lemma CutSum(a: int, b: int, c: int, d: int)
    requires a >= 0 && b >= 0 && c >= 0 && d >= 0 && a + b + c + d == (ONE - 1) * (ONE - 1)
    ensures ONE - 5 <= a / ONE + b / ONE + c / ONE + d / ONE <= ONE - 2
  {
  }

  lemma WeightsSum(fracU: int, fracV: int)
    requires IsFraction(fracU) && IsFraction(fracV)
    ensures AreWeights(WeightsAt(fracU, fracV))
  {
    var ifU, ifV := ONE - 1 - fracU, ONE - 1 - fracV;
    Products(ifU, fracV);
    Products(fracU, fracV);
    Products(ifU, ifV);
    Products(fracU, ifV);
    CutSum(ifU * ifV, ifU * fracV, fracU * ifV, fracU * fracV);
  }

  ghost predicate AreWeights(w: Weights) {
    w.ul >= 0 && w.ll >= 0 && w.ur >= 0 && w.lr >= 0 && ONE - 5 <= w.ul + w.ll + w.ur + w.lr <= ONE - 2
  }

  lemma Distribute(x: int, w: Weights)
    ensures x * (w.ul + w.ll + w.ur + w.lr) == x * w.ul + x * w.ll + x * w.ur + x * w.lr
  {
  }

  lemma WeighedBetween(w: Weights, t: Texels, low: int, high: int)
    requires AreWeights(w) && t.Between(low, high)
    ensures low * (w.ul + w.ll + w.ur + w.lr) <= Sum(w, t) <= high * (w.ul + w.ll + w.ur + w.lr)
  {
    ScaledBetween(w.ul, t.ul, low, high);
    ScaledBetween(w.ll, t.ll, low, high);
    ScaledBetween(w.ur, t.ur, low, high);
    ScaledBetween(w.lr, t.lr, low, high);
    Distribute(low, w);
    Distribute(high, w);
  }

  lemma Scaled(low: nat, high: nat, weight: int, sum: int)
    requires ONE - 5 <= weight <= ONE - 2 && low * weight <= sum <= high * weight
    ensures low * (ONE - 5) <= sum <= high * (ONE - 2)
  {
    ScaledBetween(low, weight, ONE - 5, ONE - 2);
    ScaledBetween(high, weight, ONE - 5, ONE - 2);
  }

  /** A channel lies between one less than its least texel and its greatest, and below the greatest unless that is
      zero. */
  lemma MixedBetween(w: Weights, t: Texels, low: int, high: int)
    requires AreWeights(w) && 0 <= low <= high <= 255 && t.Between(low, high)
    ensures low - 1 <= Mixed(w, t) <= high && 0 <= Mixed(w, t) && (high > 0 ==> Mixed(w, t) < high)
  {
    WeighedBetween(w, t, low, high);
    Scaled(low, high, w.ul + w.ll + w.ur + w.lr, Sum(w, t));
  }

  /** A uniform channel loses exactly one, unless it is zero: also when the image keeps its size. */
  lemma UniformDarkens(w: Weights, c: int)
    requires AreWeights(w) && IsByte(c)
    ensures Mixed(w, Texels(c, c, c, c)) == if c == 0 then 0 else c - 1
  {
    MixedBetween(w, Texels(c, c, c, c), c, c);
  }

  /** Exact bilinear interpolation, times (ONE - 1) squared. */
  function Interpolated(fracU: int, fracV: int, t: Texels): int {
    var ifU, ifV := ONE - 1 - fracU, ONE - 1 - fracV;
    ifU * ifV * t.ul + ifU * fracV * t.ll + fracU * ifV * t.ur + fracU * fracV * t.lr
  }

  lemma CutProduct(p: int, v: int)
    requires 0 <= p && IsByte(v)
    ensures 0 <= p * v - (p / ONE * v) * ONE <= 255 * (ONE - 1)
  {
    assert p == p / ONE * ONE + p % ONE;
    assert p * v == (p / ONE * v) * ONE + p % ONE * v;
    assert 0 <= p % ONE * v <= (ONE - 1) * 255;
  }

  lemma CutTerm(u: int, v: int, c: int, w: int)
    requires 0 <= u && 0 <= v && IsByte(c) && w == u * v / ONE
    ensures 0 <= u * v * c - w * c * ONE <= 255 * (ONE - 1)
  {
    CutProduct(u * v, c);
  }

  lemma SumCuts(fracU: int, fracV: int, t: Texels)
    requires IsFraction(fracU) && IsFraction(fracV) && t.Between(0, 255)
    ensures 0 <= Interpolated(fracU, fracV, t) - Sum(WeightsAt(fracU, fracV), t) * ONE <= 4 * 255 * (ONE - 1)
  {
    var ifU, ifV, w := ONE - 1 - fracU, ONE - 1 - fracV, WeightsAt(fracU, fracV);
    CutTerm(ifU, ifV, t.ul, w.ul);
    CutTerm(ifU, fracV, t.ll, w.ll);
    CutTerm(fracU, ifV, t.ur, w.ur);
    CutTerm(fracU, fracV, t.lr, w.lr);
  }

  /** The filter rounds down the exact interpolation, and is off by less than one and a 32nd. */
  lemma MixedInterpolates(fracU: int, fracV: int, t: Texels)
    requires IsFraction(fracU) && IsFraction(fracV) && t.Between(0, 255)
    ensures 0 <= Interpolated(fracU, fracV, t) - Mixed(WeightsAt(fracU, fracV), t) * ONE * ONE
      < ONE * ONE + ONE * ONE / 32
  {
    SumCuts(fracU, fracV, t);
    var sum := Sum(WeightsAt(fracU, fracV), t);
    assert sum == sum / ONE * ONE + sum % ONE;
  }

  // ----- The packed pixel -----

  lemma ShiftedRed(sum: int)
    requires 0 <= sum < 256 * ONE
    ensures Red(Wrap(sum * 2)) == sum / ONE
  {
  }

  lemma ShiftedGreen(sum: int)
    requires 0 <= sum < 256 * ONE
    ensures Green(UnsignedShift(sum * 0x100)) == sum / ONE
  {
  }

  lemma ShiftedBlue(sum: int)
    requires 0 <= sum < 256 * ONE
    ensures UnsignedShift(Wrap(sum)) == sum / ONE
  {
  }

  /** The sum is shifted into the top byte, where it makes the int negative. */
  lemma ShiftedAlpha(sum: int)
    requires 0 <= sum < 256 * ONE
    ensures Alpha(Wrap(sum * 0x200)) == sum / ONE
  {
    var x := sum * 0x200;
    assert x / 256 == sum * 2 && (x - 2 * INT_LIMIT) / 256 == sum * 2 - 0x1000000;
    assert sum * 2 / 256 / 256 == sum / ONE && (sum * 2 - 0x1000000) / 256 / 256 == sum / ONE - 256;
  }

  function Times256(t: Texels): Texels { Texels(t.ul * 0x100, t.ll * 0x100, t.ur * 0x100, t.lr * 0x100) }

  lemma SumScales(w: Weights, t: Texels)
    ensures Sum(w, Times256(t)) == Sum(w, t) * 0x100
  {
    assert w.ul * (t.ul * 0x100) == w.ul * t.ul * 0x100;
    assert w.ll * (t.ll * 0x100) == w.ll * t.ll * 0x100;
    assert w.ur * (t.ur * 0x100) == w.ur * t.ur * 0x100;
    assert w.lr * (t.lr * 0x100) == w.lr * t.lr * 0x100;
  }

  /** The sum of a channel fits into its place, and is cut to a byte. */
  lemma SumFits(w: Weights, t: Texels)
    requires AreWeights(w) && t.Between(0, 255)
    ensures 0 <= Sum(w, t) <= 255 * (ONE - 2) && IsByte(Mixed(w, t))
  {
    WeighedBetween(w, t, 0, 255);
    Scaled(0, 255, w.ul + w.ll + w.ur + w.lr, Sum(w, t));
  }

  /** The top byte of an int makes it negative from 0x80 on. */
  function Signed(byte: int): int { if byte < 0x80 then byte else byte - 0x100 }

  lemma TopByte(byte: int)
    requires IsByte(byte)
    ensures Wrap(byte * 0x1000000) == Signed(byte) * 0x1000000
    ensures Signed(byte) % 256 == byte
  {
  }

  /** The filter works on each of the four channels as on one by itself: nothing is lost to the width of an int, and
      nothing runs over from one channel into another. */
  lemma FilteredChannels(w: Weights, t: Texels)
    requires AreWeights(w)
    ensures Alpha(Filtered(w, t)) == Mixed(w, t.Alphas())
    ensures Red(Filtered(w, t)) == Mixed(w, t.Reds())
    ensures Green(Filtered(w, t)) == Mixed(w, t.Greens())
    ensures Blue(Filtered(w, t)) == Mixed(w, t.Blues())
  {
    var a, r, g, b := Sum(w, t.Alphas()), Sum(w, t.Reds()), Sum(w, t.Greens()), Sum(w, t.Blues());
    SumFits(w, t.Alphas());
    SumFits(w, t.Reds());
    SumFits(w, t.Greens());
    SumFits(w, t.Blues());
    SumScales(w, t.Greens());
    ShiftedAlpha(a);
    ShiftedRed(r);
    ShiftedGreen(g);
    ShiftedBlue(b);
    TopByte(a / ONE);
    OrDigits(Signed(a / ONE), r / ONE, g / ONE, b / ONE);
    assert Filtered(w, t) == Digits(Signed(a / ONE), r / ONE, g / ONE, b / ONE);
    DigitsRead(Signed(a / ONE), r / ONE, g / ONE, b / ONE);
  }
}
