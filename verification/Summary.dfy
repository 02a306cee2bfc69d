/**
  Latency summaries of a benchmark: rounding, interpolated percentiles, and the one pass over
  the samples that feeds them. Numbers are exact reals.
 */
module Rounding {

  /** Nearest whole number, halves away from zero. */
  function Nearest(x: real): int {
    if x >= 0.0 then (x + 0.5).Floor else -((0.5 - x).Floor)
  }

  function Pow10(precision: nat): (r: real)
    ensures r >= 1.0
  {
    if precision == 0 then 1.0 else 10.0 * Pow10(precision - 1)
  }

  function RoundTo(x: real, scale: real): real
    requires scale > 0.0
  {
    (Nearest(x * scale) as real) / scale
  }

  function Round(x: real, precision: nat): real {
    RoundTo(x, Pow10(precision))
  }

  lemma NearestIsMonotone(x: real, y: real)
    requires x <= y
    ensures Nearest(x) <= Nearest(y)
  {
  }

  /** Nothing is closer, in either direction. */
  lemma NearestIsNear(x: real)
    ensures -0.5 <= Nearest(x) as real - x <= 0.5
  {
  }

  /** Whole numbers stay, halves go away from zero, and the sign does not matter. */
  lemma NearestOfHalves(n: int)
    requires n >= 0
    ensures Nearest(n as real) == n && Nearest(n as real + 0.5) == n + 1
    ensures Nearest(-(n as real)) == -n && Nearest(-(n as real) - 0.5) == -n - 1
  {
  }

  /** A rounded value has no more digits than asked for. */
  lemma RoundHasFewDigits(x: real) returns (hundredths: int, thousandths: int, tenThousandths: int)
    ensures Round(x, 2) == hundredths as real / 100.0
    ensures Round(x, 3) == thousandths as real / 1000.0
    ensures Round(x, 4) == tenThousandths as real / 10000.0
  {
    hide Nearest;
    assert Pow10(2) == 100.0 && Pow10(3) == 1000.0 && Pow10(4) == 10000.0;
    hundredths, thousandths, tenThousandths := Nearest(x * 100.0), Nearest(x * 1000.0), Nearest(x * 10000.0);
  }

  lemma ScaleByNonnegative(x: real, y: real)
    requires x >= 0.0 && y >= 0.0
    ensures x * y >= 0.0
  {
  }

  lemma MulOrder(x: real, y: real, k: real)
    requires k >= 0.0 && x <= y
    ensures x * k <= y * k
  {
    ScaleByNonnegative(y - x, k);
    assert (y - x) * k == y * k - x * k;
  }

  lemma DivOrder(x: real, y: real, k: real)
    requires k > 0.0 && x <= y
    ensures x / k <= y / k
  {
    assert (y - x) / k >= 0.0;
    assert (y - x) / k == y / k - x / k;
  }

  lemma RoundToIsMonotone(x: real, y: real, scale: real)
    requires x <= y && scale > 0.0
    ensures RoundTo(x, scale) <= RoundTo(y, scale)
  {
    hide Nearest;
    MulOrder(x, y, scale);
    NearestIsMonotone(x * scale, y * scale);
    var a, b := Nearest(x * scale), Nearest(y * scale);
    assert a as real <= b as real;
    DivOrder(a as real, b as real, scale);
  }

  /** Rounding never turns an order around. */
  lemma RoundIsMonotone(x: real, y: real, precision: nat)
    requires x <= y
    ensures Round(x, precision) <= Round(y, precision)
  {
    RoundToIsMonotone(x, y, Pow10(precision));
  }

  lemma Unscale(n: real, x: real, k: real)
    requires k > 0.0
    ensures (n - x * k) / k == n / k - x
  {
    assert x * k / k == x;
  }

  lemma RoundToIsNear(x: real, scale: real)
    requires scale > 0.0
    ensures -0.5 / scale <= RoundTo(x, scale) - x <= 0.5 / scale
  {
    hide Nearest;
    NearestIsNear(x * scale);
    var n := Nearest(x * scale) as real;
    DivOrder(-0.5, n - x * scale, scale);
    DivOrder(n - x * scale, 0.5, scale);
    Unscale(n, x, scale);
  }

  /** A rounded value is at most half a unit of the last place away. */
  lemma RoundIsNear(x: real, precision: nat)
    ensures -0.5 / Pow10(precision) <= Round(x, precision) - x <= 0.5 / Pow10(precision)
  {
    RoundToIsNear(x, Pow10(precision));
  }
}

module Percentiles {
  import opened Rounding

  ghost predicate Ascending(s: seq<real>) {
    forall i, j | 0 <= i <= j < |s| :: s[i] <= s[j]
  }

  function Floor(x: real): int { x.Floor }

  function Ceil(x: real): int { -((-x).Floor) }

  function Mix(a: real, b: real, frac: real): real {
    a * (1.0 - frac) + b * frac
  }

  /** The straight line between the neighbours of a fractional index. */
  function Interpolate(s: seq<real>, x: real): real
    requires 0.0 <= x <= (|s| - 1) as real
  {
    var lower, upper := Floor(x), Ceil(x);
    if lower == upper then s[lower]
    else
      Mix(s[lower], s[upper], x - lower as real)
  }

  function Index(n: nat, p: real): real {
    p * (n - 1) as real
  }

  function Percentile(s: seq<real>, p: real): real
    requires 0.0 <= p <= 1.0
  {
    if |s| == 0 then 0.0
    else
      IndexInRange(|s|, p);
      Round(Interpolate(s, Index(|s|, p)), 2)
  }

  lemma ShareIsBounded(p: real, last: real)
    requires 0.0 <= p <= 1.0 && 0.0 <= last
    ensures 0.0 <= p * last <= last
  {
    ScaleByNonnegative(p, last);
    ScaleByNonnegative(1.0 - p, last);
    assert (1.0 - p) * last == last - p * last;
  }

  lemma NeighboursInRange(n: nat, x: real)
    requires n > 0 && 0.0 <= x <= (n - 1) as real
    ensures 0 <= Floor(x) <= Ceil(x) < n
  {
  }

  /** Both neighbours of the index are positions of the list. */
  lemma IndexInRange(n: nat, p: real)
    requires n > 0 && 0.0 <= p <= 1.0
    ensures 0.0 <= Index(n, p) <= (n - 1) as real
    ensures 0 <= Floor(Index(n, p)) <= Ceil(Index(n, p)) < n
  {
    var last := (n - 1) as real;
    assert Index(n, p) == p * last;
    ShareIsBounded(p, last);
    hide Floor, Ceil, Index;
    NeighboursInRange(n, Index(n, p));
  }

  lemma IndexIsMonotone(n: nat, p: real, q: real)
    requires n > 0 && p <= q
    ensures Index(n, p) <= Index(n, q)
  {
    var last := (n - 1) as real;
    assert Index(n, p) == p * last && Index(n, q) == q * last;
    MulOrder(p, q, last);
  }

  /** The weighted mean of two neighbours, written from either end. */
  lemma MixFromBelow(a: real, b: real, frac: real)
    ensures Mix(a, b, frac) == a + (b - a) * frac
  {
  }

  lemma MixFromAbove(a: real, b: real, frac: real)
    ensures Mix(a, b, frac) == b - (b - a) * (1.0 - frac)
  {
  }

  lemma MixLiesBetween(a: real, b: real, frac: real)
    requires a <= b && 0.0 <= frac <= 1.0
    ensures a <= Mix(a, b, frac) <= b
  {
    MixFromBelow(a, b, frac);
    MixFromAbove(a, b, frac);
    hide Mix;
    ScaleByNonnegative(b - a, frac);
    ScaleByNonnegative(b - a, 1.0 - frac);
  }

  lemma MixDifference(a: real, b: real, f: real, g: real)
    ensures Mix(a, b, g) - Mix(a, b, f) == (b - a) * (g - f)
  {
  }

  lemma MixIsMonotone(a: real, b: real, f: real, g: real)
    requires a <= b && f <= g
    ensures Mix(a, b, f) <= Mix(a, b, g)
  {
    MixDifference(a, b, f, g);
    hide Mix;
    ScaleByNonnegative(b - a, g - f);
  }

  /** An interpolated value lies between the two order statistics around it. */
  lemma InterpolateLiesBetween(s: seq<real>, x: real)
    requires Ascending(s) && 0.0 <= x <= (|s| - 1) as real
    ensures s[Floor(x)] <= Interpolate(s, x) <= s[Ceil(x)]
  {
    hide Mix;
    var lower, upper := Floor(x), Ceil(x);
    if lower != upper {
      MixLiesBetween(s[lower], s[upper], x - lower as real);
    }
  }

  /** Between two neighbours the value moves in a straight line: at their middle it is their mean. */
  lemma InterpolateIsLinear(s: seq<real>, k: nat, f: real)
    requires k < |s| - 1 && 0.0 <= f < 1.0
    ensures Interpolate(s, k as real + f) == s[k] + f * (s[k + 1] - s[k])
  {
    var x := k as real + f;
    FloorOfSum(k, f);
    if f > 0.0 {
      CeilOfSum(k, f);
      MixFromBelow(s[k], s[k + 1], f);
    }
    hide Mix, Floor, Ceil;
  }

  lemma FloorOfSum(k: nat, f: real)
    requires 0.0 <= f < 1.0
    ensures Floor(k as real + f) == k
    ensures f == 0.0 ==> Ceil(k as real + f) == k
  {
  }

  lemma CeilOfSum(k: nat, f: real)
    requires 0.0 < f < 1.0
    ensures Ceil(k as real + f) == k + 1
  {
  }

  /** The percentile p of n values is at position p * (n - 1). */
  lemma PercentileInFull(s: seq<real>, p: real, k: nat, f: real)
    requires 0.0 <= p <= 1.0 && k < |s| && 0.0 <= f < 1.0 && (|s| - 1) as real * p == k as real + f
    ensures f == 0.0 ==> Percentile(s, p) == Round(s[k], 2)
    ensures f > 0.0 ==> k + 1 < |s| && Percentile(s, p) == Round(s[k] + f * (s[k + 1] - s[k]), 2)
  {
    hide Round, Mix;
    var last := (|s| - 1) as real;
    assert Index(|s|, p) == p * last == k as real + f;
    ShareIsBounded(p, last);
    if f > 0.0 {
      InterpolateIsLinear(s, k, f);
    } else {
      FloorOfSum(k, f);
    }
  }

  /** A larger index never gives a smaller value. */
  lemma InterpolateIsMonotone(s: seq<real>, x: real, y: real)
    requires Ascending(s) && 0.0 <= x <= y <= (|s| - 1) as real
    ensures Interpolate(s, x) <= Interpolate(s, y)
  {
    hide Mix;
    InterpolateLiesBetween(s, x);
    InterpolateLiesBetween(s, y);
    if Ceil(x) > Floor(y) && x != y {
      var lower, upper := Floor(x), Ceil(x);
      assert lower == Floor(y) && upper == lower + 1;
      if Ceil(y) == upper {
        MixIsMonotone(s[lower], s[upper], x - lower as real, y - lower as real);
      }
    }
  }

  lemma RoundedInOrder(s: seq<real>, x: real, y: real)
    requires Ascending(s) && 0.0 <= x <= y <= (|s| - 1) as real
    ensures Round(s[0], 2) <= Round(Interpolate(s, x), 2) <= Round(Interpolate(s, y), 2) <= Round(s[|s| - 1], 2)
  {
    InterpolateLiesBetween(s, x);
    InterpolateLiesBetween(s, y);
    InterpolateIsMonotone(s, x, y);
    hide Round, Interpolate;
    RoundIsMonotone(s[0], Interpolate(s, x), 2);
    RoundIsMonotone(Interpolate(s, x), Interpolate(s, y), 2);
    RoundIsMonotone(Interpolate(s, y), s[|s| - 1], 2);
  }

  /** Main result: percentiles of a sorted list grow with p and stay between its ends. */
  lemma PercentilesAreOrdered(s: seq<real>, p: real, q: real)
    requires Ascending(s) && |s| > 0 && 0.0 <= p <= q <= 1.0
    ensures Round(s[0], 2) <= Percentile(s, p) <= Percentile(s, q) <= Round(s[|s| - 1], 2)
  {
    hide Round, Interpolate, Index, Ascending;
    IndexInRange(|s|, p);
    IndexInRange(|s|, q);
    IndexIsMonotone(|s|, p, q);
    RoundedInOrder(s, Index(|s|, p), Index(|s|, q));
  }
}
