/** Summary statistics of a list of real samples, as Python's `sum`, `min`,
    `max` and `statistics.mean`, `statistics.stdev` and `statistics.median`
    compute them, on exact reals instead of floats.

    There is no square root on Dafny's reals, so the standard deviation is
    carried as its square (the sample variance), and a comparison of the
    coefficient of variation `stdev / mean` with a threshold is stated on
    squares; `CvExceedsIsRatio` shows the two formulations agree. */
module SampleStats {

  function Sum(s: seq<real>): real {
    if |s| == 0 then 0.0 else s[0] + Sum(s[1..])
  }

  lemma {:induction false} SumConcat(a: seq<real>, b: seq<real>)
    ensures Sum(a + b) == Sum(a) + Sum(b)
  {
    if |a| == 0 {
      assert a + b == b;
    } else {
      assert (a + b)[1..] == a[1..] + b;
      SumConcat(a[1..], b);
    }
  }

  /** Every sample lies in [lo, hi], so the sum lies in [lo * n, hi * n]. */
  lemma {:induction false} SumBounds(s: seq<real>, lo: real, hi: real)
    requires forall i :: 0 <= i < |s| ==> lo <= s[i] <= hi
    ensures lo * (|s| as real) <= Sum(s) <= hi * (|s| as real)
  {
    if |s| > 0 {
      SumBounds(s[1..], lo, hi);
    }
  }

  function Mean(s: seq<real>): real
    requires |s| > 0
  {
    Sum(s) / (|s| as real)
  }

  /** The sum of squared deviations of the samples from `m`. */
  function SquaredDeviations(s: seq<real>, m: real): (r: real)
    ensures r >= 0.0
  {
    if |s| == 0 then 0.0
    else
      SquareNonNegative(s[0] - m);
      (s[0] - m) * (s[0] - m) + SquaredDeviations(s[1..], m)
  }

  lemma SquareNonNegative(x: real)
    ensures x * x >= 0.0
  {
    if x < 0.0 {
      assert x * x == (-x) * (-x);
    }
  }

  /** `statistics.variance`: the squared deviations over n - 1; the square
      of `statistics.stdev`. */
  function SampleVariance(s: seq<real>): (v: real)
    requires |s| >= 2
    ensures v >= 0.0
  {
    SquaredDeviations(s, Mean(s)) / ((|s| - 1) as real)
  }

  function Minimum(s: seq<real>): (m: real)
    requires |s| > 0
    ensures m in s
    ensures forall i :: 0 <= i < |s| ==> m <= s[i]
  {
    if |s| == 1 then s[0]
    else
      var rest := Minimum(s[1..]);
      if s[0] <= rest then s[0] else rest
  }

  function Maximum(s: seq<real>): (m: real)
    requires |s| > 0
    ensures m in s
    ensures forall i :: 0 <= i < |s| ==> s[i] <= m
  {
    if |s| == 1 then s[0]
    else
      var rest := Maximum(s[1..]);
      if s[0] >= rest then s[0] else rest
  }

  lemma MulPositive(x: real, y: real)
    requires x > 0.0 && y > 0.0
    ensures x * y > 0.0
  {
  }

  lemma MulNonNegative(x: real, y: real)
    requires x >= 0.0 && y >= 0.0
    ensures x * y >= 0.0
  {
  }

  lemma QuotientNonNegative(a: real, d: real)
    requires a >= 0.0 && d > 0.0
    ensures a / d >= 0.0
  {
  }

  lemma QuotientBounds(a: real, n: real, lo: real, hi: real)
    requires n > 0.0 && lo * n <= a <= hi * n
    ensures lo <= a / n <= hi
  {
  }

  lemma ExactQuotient(a: real, d: real, q: real)
    requires d > 0.0
    requires q * d == a
    ensures a / d == q
  {
  }

  lemma ProductOfQuotients(a: real, d: real, b: real, e: real)
    requires d > 0.0 && e > 0.0
    ensures (a / d) * (b / e) == (a * b) / (d * e)
  {
    MulPositive(d, e);
    ExactQuotient(a * b, d * e, (a / d) * (b / e));
  }

  lemma DivideTwice(a: real, d: real, e: real)
    requires d > 0.0 && e > 0.0
    ensures (a / d) / e == a / (d * e)
  {
    MulPositive(d, e);
    ExactQuotient(a, d * e, (a / d) / e);
  }

  /** Samples bounded by [lo, hi] have their mean in [lo, hi]. */
  lemma MeanBounds(s: seq<real>, lo: real, hi: real)
    requires |s| > 0
    requires forall i :: 0 <= i < |s| ==> lo <= s[i] <= hi
    ensures lo <= Mean(s) <= hi
  {
    SumBounds(s, lo, hi);
    QuotientBounds(Sum(s), |s| as real, lo, hi);
  }

  /** The mean of a non-empty list lies between its minimum and maximum. */
  lemma MeanBetweenExtremes(s: seq<real>)
    requires |s| > 0
    ensures Minimum(s) <= Mean(s) <= Maximum(s)
  {
    MeanBounds(s, Minimum(s), Maximum(s));
  }

  lemma {:induction false} ConstantSum(s: seq<real>, c: real)
    requires forall i :: 0 <= i < |s| ==> s[i] == c
    ensures Sum(s) == c * (|s| as real)
    ensures SquaredDeviations(s, c) == 0.0
  {
    if |s| > 0 {
      ConstantSum(s[1..], c);
    }
  }

  /** A list of identical samples has mean equal to the sample and sample
      variance 0. */
  lemma ConstantSamples(s: seq<real>, c: real)
    requires |s| > 0
    requires forall i :: 0 <= i < |s| ==> s[i] == c
    ensures Mean(s) == c
    ensures |s| >= 2 ==> SampleVariance(s) == 0.0
  {
    ConstantSum(s, c);
  }

  predicate Sorted(s: seq<real>) {
    forall i, j :: 0 <= i < j < |s| ==> s[i] <= s[j]
  }

  function Insert(x: real, s: seq<real>): (r: seq<real>)
    ensures multiset(r) == multiset(s) + multiset{x}
  {
    if |s| == 0 then [x]
    else if x <= s[0] then [x] + s
    else
      assert s == [s[0]] + s[1..];
      [s[0]] + Insert(x, s[1..])
  }

  lemma {:induction false} InsertKeepsSorted(x: real, s: seq<real>)
    requires Sorted(s)
    ensures Sorted(Insert(x, s))
  {
    if |s| > 0 && x > s[0] {
      InsertKeepsSorted(x, s[1..]);
      InsertAbove(x, s[1..], s[0]);
      assert Insert(x, s) == [s[0]] + Insert(x, s[1..]);
    }
  }

  /** A lower bound of `x` and of every element of `s` bounds the result
      of inserting. */
  lemma {:induction false} InsertAbove(x: real, s: seq<real>, lo: real)
    requires lo <= x && forall i :: 0 <= i < |s| ==> lo <= s[i]
    ensures forall k :: 0 <= k < |Insert(x, s)| ==> lo <= Insert(x, s)[k]
  {
    if |s| > 0 && x > s[0] {
      InsertAbove(x, s[1..], lo);
      assert Insert(x, s) == [s[0]] + Insert(x, s[1..]);
    }
  }

  /** The ascending order `sorted(...)` produces: a sorted permutation. */
  function Sort(s: seq<real>): (r: seq<real>)
    ensures multiset(r) == multiset(s)
    ensures Sorted(r)
  {
    if |s| == 0 then []
    else
      assert s == [s[0]] + s[1..];
      var rest := Sort(s[1..]);
      InsertKeepsSorted(s[0], rest);
      Insert(s[0], rest)
  }

  /** `statistics.median`: the middle of the sorted samples, or the average
      of the two middle ones for an even count. */
  function Median(s: seq<real>): real
    requires |s| > 0
  {
    var t := Sort(s);
    assert |t| == |multiset(t)| == |multiset(s)| == |s|;
    var n := |t|;
    if n % 2 == 1 then t[n / 2] else (t[n / 2 - 1] + t[n / 2]) / 2.0
  }

  lemma SortedElementBetweenExtremes(s: seq<real>, k: int)
    requires 0 <= k < |Sort(s)|
    ensures |s| > 0 && Minimum(s) <= Sort(s)[k] <= Maximum(s)
  {
    var t := Sort(s);
    assert t[k] in multiset(t);
    assert t[k] in multiset(s);
    var j :| 0 <= j < |s| && s[j] == t[k];
  }

  /** The median of a non-empty list lies between its minimum and maximum. */
  lemma MedianBetweenExtremes(s: seq<real>)
    requires |s| > 0
    ensures Minimum(s) <= Median(s) <= Maximum(s)
  {
    var t := Sort(s);
    assert |t| == |multiset(t)| == |s|;
    var n := |t|;
    SortedElementBetweenExtremes(s, n / 2);
    if n % 2 == 0 {
      SortedElementBetweenExtremes(s, n / 2 - 1);
    }
  }

  /** `cv > t`, where cv is `stdev / mean` when mean > 0 and 0 otherwise and
      `stdev` is the non-negative square root of `variance`; stated on
      squares so that no square root is needed. */
  predicate CvExceeds(mean: real, variance: real, t: real) {
    if mean > 0.0 then t < 0.0 || variance > t * t * (mean * mean) else 0.0 > t
  }

  /** The square of the coefficient of variation (0 when mean <= 0). */
  function CvSquared(mean: real, variance: real): real {
    if mean > 0.0 then variance / mean / mean else 0.0
  }

  lemma SquaresOrdered(a: real, b: real)
    requires a >= 0.0 && b >= 0.0
    ensures a > b <==> a * a > b * b
  {
    assert a * a - b * b == (a - b) * (a + b);
    if a > b {
      MulPositive(a - b, a + b);
    } else {
      MulNonNegative(b - a, a + b);
    }
  }

  /** The square-free test `CvExceeds` is exactly `stdev / mean > t` (or
      `0 > t` when mean <= 0) for the true standard deviation. */
  lemma CvExceedsIsRatio(mean: real, variance: real, stdev: real, t: real)
    requires stdev >= 0.0 && stdev * stdev == variance
    ensures CvExceeds(mean, variance, t) <==> (if mean > 0.0 then stdev / mean else 0.0) > t
  {
    if mean > 0.0 {
      var cv := stdev / mean;
      assert cv * mean == stdev;
      assert cv > t <==> stdev > t * mean by {
        if cv > t { assert cv * mean > t * mean; }
        else { assert cv * mean <= t * mean; }
      }
      if t >= 0.0 {
        assert t * mean >= 0.0;
        SquaresOrdered(stdev, t * mean);
        assert (t * mean) * (t * mean) == t * t * (mean * mean);
      } else {
        assert t * mean < 0.0;
      }
    }
  }

  /** `CvSquared` is the square of the coefficient of variation. */
  lemma CvSquaredIsSquare(mean: real, variance: real, stdev: real)
    requires stdev >= 0.0 && stdev * stdev == variance
    ensures var cv := if mean > 0.0 then stdev / mean else 0.0;
            CvSquared(mean, variance) == cv * cv
  {
    if mean > 0.0 {
      ProductOfQuotients(stdev, mean, stdev, mean);
      DivideTwice(variance, mean, mean);
    }
  }
}
