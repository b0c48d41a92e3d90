/**
 The kernel of the blur in core/methods/demo/PImage.java: weights that fall off with the square of the distance,
 the weighted sums of a window of a line, and when these fit a Java int.
 */
module BlurKernel {
  import opened Arithmetic
  import opened Ints
  import opened Pixels

  const MAX_RADIUS: nat := 248

  /** Division of ints, which truncates. */
  function Divide(a: int, b: nat): int
    requires b > 0
  {
    if a >= 0 then a / b else -((-a) / b)
  }

  lemma QuotientBetween(a: int, b: nat, low: int, high: int)
    requires b > 0 && 0 <= low && low * b <= a <= high * b
    ensures 0 <= a && low <= Divide(a, b) <= high
  {
    var q := a / b;
    assert a == q * b + a % b;
    Cancel(low, q + 1, b);
    Cancel(q, high + 1, b);
  }

  lemma NegativeQuotient(a: int, b: nat)
    requires 0 < b && a + b <= 0
    ensures Divide(a, b) < 0
  {
    assert (-a) / b >= b / b;
  }

  // ----- Weights and weighted sums -----

  /** The weight of a cell at distance d from the centre. */
  function Weight(radius: nat, d: int): (w: nat)
    ensures w > 0 <==> 0 < radius + d && d < radius
  {
    if 0 <= d < radius then (radius - d) * (radius - d)
    else if d < 0 < radius + d then (radius + d) * (radius + d)
    else 0
  }

  /** The weights of the cells lo..hi of a line, around its cell c. */
  function Weights(radius: nat, c: int, lo: int, hi: int): nat
    decreases hi - lo
  {
    if hi <= lo then 0 else Weights(radius, c, lo, hi - 1) + Weight(radius, hi - 1 - c)
  }

  /** The weighted sum of the cells lo..hi of a line, around its cell c. */
  function WeightedSum(line: seq<int>, radius: nat, c: int, lo: int, hi: int): int
    requires 0 <= lo && hi <= |line|
    decreases hi - lo
  {
    if hi <= lo then 0 else WeightedSum(line, radius, c, lo, hi - 1) + Weight(radius, hi - 1 - c) * line[hi - 1]
  }

  ghost predicate Between(line: seq<int>, lo: int, hi: int, low: int, high: int)
    requires 0 <= lo && hi <= |line|
  {
    forall q :: lo <= q < hi ==> low <= line[q] <= high
  }

  lemma AddedBetween(low: int, high: int, before: nat, sum: int, w: nat, v: int)
    requires low * before <= sum <= high * before && low <= v <= high
    ensures low * (before + w) <= sum + w * v <= high * (before + w)
  {
    assert low * w <= w * v <= high * w;
  }

  /** A weighted sum lies between the least and the greatest value, times the sum of the weights. */
  lemma {:induction false} SumBetween(line: seq<int>, radius: nat, c: int, lo: int, hi: int, low: int, high: int)
    requires 0 <= lo && hi <= |line| && Between(line, lo, hi, low, high)
    ensures low * Weights(radius, c, lo, hi) <= WeightedSum(line, radius, c, lo, hi)
    ensures WeightedSum(line, radius, c, lo, hi) <= high * Weights(radius, c, lo, hi)
    decreases hi - lo
  {
    if lo < hi {
      SumBetween(line, radius, c, lo, hi - 1, low, high);
      AddedBetween(low, high, Weights(radius, c, lo, hi - 1), WeightedSum(line, radius, c, lo, hi - 1),
                   Weight(radius, hi - 1 - c), line[hi - 1]);
    }
  }

  /** A window with its centre in it has some weight. */
  lemma {:induction false} CentreWeighs(radius: nat, c: int, lo: int, hi: int)
    requires radius > 0
    ensures lo <= c < hi ==> Weights(radius, c, lo, hi) > 0
    decreases hi - lo
  {
    if lo < hi {
      CentreWeighs(radius, c, lo, hi - 1);
    }
  }

  // ----- How large the sum of the weights gets -----

  /** Six times the sum of the first m squares. */
  function Pyramid(m: int): int { m * (m + 1) * (2 * m + 1) }

  lemma PyramidStep(m: int)
    ensures Pyramid(m) == Pyramid(m - 1) + 6 * (m * m)
  {
  }

  /** Six times the weights up to distance d, in closed form. */
  function SixTimes(radius: int, d: int): int {
    if d <= -radius then 0
    else if d <= 0 then Pyramid(radius + d - 1)
    else if d <= radius then Pyramid(radius) + Pyramid(radius - 1) - Pyramid(radius - d)
    else Pyramid(radius) + Pyramid(radius - 1)
  }

  lemma SixTimesStep(radius: nat, d: int)
    requires radius > 0
    ensures SixTimes(radius, d + 1) == SixTimes(radius, d) + 6 * Weight(radius, d)
  {
    if d < 0 < radius + d {
      PyramidStep(radius + d);
    } else if 0 <= d < radius {
      PyramidStep(radius - d);
    }
    assert Pyramid(0) == 0 && Pyramid(-1) == 0;
  }

  lemma {:induction false} WeightsClosed(radius: nat, c: int, lo: int, hi: int)
    requires radius > 0 && lo <= hi
    ensures 6 * Weights(radius, c, lo, hi) == SixTimes(radius, hi - c) - SixTimes(radius, lo - c)
    decreases hi - lo
  {
    if lo < hi {
      WeightsClosed(radius, c, lo, hi - 1);
      SixTimesStep(radius, hi - 1 - c);
    }
  }

  lemma {:induction false} SixTimesGrows(radius: nat, d: int, e: int)
    requires radius > 0 && d <= e
    ensures SixTimes(radius, d) <= SixTimes(radius, e)
    decreases e - d
  {
    if d < e {
      SixTimesGrows(radius, d, e - 1);
      SixTimesStep(radius, e - 1);
    }
  }

  function Cube(x: int): int { x * x * x }

  /** The sum of all weights of a kernel, three times. */
  function ThreeTimesAll(radius: nat): nat
    ensures ThreeTimesAll(radius) == 2 * Cube(radius) + radius
  {
    assert Cube(radius) >= 0;
    2 * Cube(radius) + radius
  }

  lemma TwoPyramids(radius: nat)
    ensures Pyramid(radius) + Pyramid(radius - 1) == 2 * ThreeTimesAll(radius)
  {
    PyramidStep(radius);
    assert Pyramid(radius) == 2 * Cube(radius) + 3 * (radius * radius) + radius;
  }

  lemma SixTimesEnds(radius: nat, d: int)
    requires radius > 0
    ensures d + radius <= 1 ==> SixTimes(radius, d) == 0
    ensures d >= radius ==> SixTimes(radius, d) == 2 * ThreeTimesAll(radius)
  {
    TwoPyramids(radius);
    assert Pyramid(0) == 0;
  }

  lemma SixTimesBetween(radius: nat, d: int)
    requires radius > 0
    ensures 0 <= SixTimes(radius, d) <= 2 * ThreeTimesAll(radius)
  {
    if d + radius <= 1 {
      SixTimesEnds(radius, d);
    } else {
      SixTimesEnds(radius, 1 - radius);
      SixTimesGrows(radius, 1 - radius, d);
    }
    if radius <= d {
      SixTimesEnds(radius, d);
    } else {
      SixTimesEnds(radius, radius);
      SixTimesGrows(radius, d, radius);
    }
  }

  /** No window weighs more than a whole kernel, and one that holds a whole kernel weighs as much. */
  lemma WindowWeighs(radius: nat, c: int, lo: int, hi: int)
    requires radius > 0 && lo <= hi
    ensures 3 * Weights(radius, c, lo, hi) <= ThreeTimesAll(radius)
    ensures lo + radius <= c + 1 && c + radius <= hi ==> 3 * Weights(radius, c, lo, hi) == ThreeTimesAll(radius)
  {
    WeightsClosed(radius, c, lo, hi);
    SixTimesBetween(radius, lo - c);
    SixTimesBetween(radius, hi - c);
    SixTimesEnds(radius, lo - c);
    SixTimesEnds(radius, hi - c);
  }

  lemma CubeGrows(x: nat, y: nat)
    requires x <= y
    ensures Cube(x) <= Cube(y)
  {
    assert x * x <= y * y;
    assert x * x * x <= y * y * y;
  }

  /** The weighted sum of any window of bytes is an int, exactly when the radius is 232 at most. */
  predicate RadiusFits(radius: nat) { 255 * ThreeTimesAll(radius) < 3 * INT_LIMIT }

  lemma LargestRadius(radius: nat)
    ensures RadiusFits(radius) <==> radius <= 232
  {
    if radius <= 232 {
      CubeGrows(radius, 232);
    } else {
      CubeGrows(233, radius);
    }
  }

  /** Whatever the radius, a sum that is no int wraps to a large negative one. */
  lemma WindowBelow(radius: nat, c: int, lo: int, hi: int)
    requires 0 < radius <= MAX_RADIUS && lo <= hi
    ensures 255 * Weights(radius, c, lo, hi) + Weights(radius, c, lo, hi) < 2 * INT_LIMIT
    ensures Weights(radius, c, lo, hi) < INT_LIMIT
  {
    WindowWeighs(radius, c, lo, hi);
    CubeGrows(radius, MAX_RADIUS);
  }

  // ----- The value that the blur computes for a window -----

  /** The accumulated int, divided by the sum of the weights. */
  function Value(line: seq<int>, radius: nat, c: int, lo: int, hi: int): int
    requires 0 <= lo && hi <= |line| && Weights(radius, c, lo, hi) > 0
  {
    Divide(Wrap(WeightedSum(line, radius, c, lo, hi)), Weights(radius, c, lo, hi))
  }

  lemma Bounds(low: nat, high: nat, weights: nat)
    requires high <= 255
    ensures 0 <= low * weights && high * weights <= 255 * weights
  {
  }

  lemma MeanOfSum(sum: int, weights: nat, low: int, high: int)
    requires weights > 0 && 255 * weights + weights < 2 * INT_LIMIT
    requires 0 <= low <= high <= 255 && low * weights <= sum <= high * weights
    ensures if sum < INT_LIMIT then low <= Divide(Wrap(sum), weights) == sum / weights <= high
            else Divide(Wrap(sum), weights) < 0
  {
    Bounds(low, high, weights);
    if sum < INT_LIMIT {
      QuotientBetween(sum, weights, low, high);
    } else {
      NegativeQuotient(sum - 2 * INT_LIMIT, weights);
    }
  }

  /** Over bytes, the value is a byte exactly when the weighted sum is an int; then it is the weighted mean, rounded
      down, which lies between the least and the greatest byte of the window. */
  lemma ValueIsMean(line: seq<int>, radius: nat, c: int, lo: int, hi: int, low: int, high: int)
    requires 0 <= lo <= c < hi <= |line| && 0 < radius <= MAX_RADIUS
    requires 0 <= low <= high <= 255 && Between(line, lo, hi, low, high)
    ensures var sum, weights := WeightedSum(line, radius, c, lo, hi), Weights(radius, c, lo, hi);
            weights > 0 &&
            if sum < INT_LIMIT then low <= Value(line, radius, c, lo, hi) == sum / weights <= high
            else Value(line, radius, c, lo, hi) < 0
  {
    CentreWeighs(radius, c, lo, hi);
    SumBetween(line, radius, c, lo, hi, low, high);
    WindowBelow(radius, c, lo, hi);
    MeanOfSum(WeightedSum(line, radius, c, lo, hi), Weights(radius, c, lo, hi), low, high);
  }
}
