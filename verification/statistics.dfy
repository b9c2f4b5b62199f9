// Descriptive statistics over the reals.
module Statistics {
  import opened Reals

  // ---- Interpolated percentiles of a sorted sequence ----

  // The point a fraction f of the way from x to y.
  function Blend(x: real, y: real, f: real): real {
    x + f * (y - x)
  }

  // The value at a fractional position.
  function AtRank(s: seq<real>, rank: real): real
    requires s != [] && rank >= 0.0
  {
    var lower := rank.Floor;
    if lower + 1 >= |s| then s[|s| - 1]
    else Blend(s[lower], s[lower + 1], rank - lower as real)
  }

  function Rank(n: nat, p: real): real
    requires n > 0
  {
    (p / 100.0) * (n - 1) as real
  }

  lemma RankNonNegative(n: nat, p: real)
    requires n > 0 && p >= 0.0
    ensures Rank(n, p) >= 0.0
  {}

  // A negative p would index out of range; callers pass constants.
  function Percentile(s: seq<real>, p: real): real
    requires p >= 0.0
  {
    if s == [] then 0.0
    else if |s| == 1 then s[0]
    else RankNonNegative(|s|, p); AtRank(s, Rank(|s|, p))
  }

  lemma PercentileIsAtRank(s: seq<real>, p: real)
    requires s != [] && p >= 0.0
    ensures Rank(|s|, p) >= 0.0 && Percentile(s, p) == AtRank(s, Rank(|s|, p))
  {
    RankNonNegative(|s|, p);
  }

  // ---- What a percentile is ----

  // The p-th of 100 parts of the way through n values lies between the k-th and the next.
  predicate InSegment(n: nat, p: real, k: nat) {
    100.0 * k as real <= p * (n - 1) as real < 100.0 * (k + 1) as real
  }

  // v divides the step from s[k] to s[k + 1] as p divides its segment.
  predicate Divides(v: real, s: seq<real>, p: real, k: nat)
    requires k + 1 < |s|
  {
    var rest := p * (|s| - 1) as real - 100.0 * k as real;
    100.0 * v == (100.0 - rest) * s[k] + rest * s[k + 1]
  }

  // The linearly interpolated percentile of a non-empty sorted sequence.
  ghost predicate IsPercentile(v: real, s: seq<real>, p: real)
    requires s != []
  {
    && (p >= 100.0 || |s| == 1 ==> v == s[|s| - 1])
    && (p < 100.0 ==> forall k: nat :: k + 1 < |s| && InSegment(|s|, p, k) ==> Divides(v, s, p, k))
  }

  lemma BlendDivides(x: real, y: real, f: real, rest: real)
    requires rest == 100.0 * f
    ensures 100.0 * Blend(x, y, f) == (100.0 - rest) * x + rest * y
  {}

  lemma RankTimes(n: nat, p: real)
    requires n > 0
    ensures 100.0 * Rank(n, p) == p * (n - 1) as real
  {}

  lemma FloorIs(x: real, k: int)
    requires k as real <= x < (k + 1) as real
    ensures x.Floor == k
  {}

  // Between two neighbours a percentile is their linear interpolation.
  lemma Interpolates(s: seq<real>, p: real, k: nat)
    requires 0.0 <= p && k + 1 < |s| && InSegment(|s|, p, k)
    ensures Divides(Percentile(s, p), s, p, k)
  {
    var rank := Rank(|s|, p);
    PercentileIsAtRank(s, p);
    RankTimes(|s|, p);
    FloorIs(rank, k);
    BlendDivides(s[k], s[k + 1], rank - k as real, p * (|s| - 1) as real - 100.0 * k as real);
  }

  lemma FromHundredOn(s: seq<real>, p: real)
    requires s != [] && p >= 100.0
    ensures Percentile(s, p) == s[|s| - 1]
  {
    PercentileIsAtRank(s, p);
    RankMonotone(|s|, 100.0, p);
    assert Rank(|s|, 100.0) == (|s| - 1) as real;
  }

  // Every p below 100 lies in a segment.
  lemma SegmentOf(n: nat, p: real) returns (k: nat)
    requires n >= 2 && 0.0 <= p < 100.0
    ensures k + 1 < n && InSegment(n, p, k)
  {
    var rank := Rank(n, p);
    RankTimes(n, p);
    RankNonNegative(n, p);
    assert Rank(n, 100.0) == (n - 1) as real;
    ProductPositive(100.0 - p, (n - 1) as real);
    k := rank.Floor;
  }

  lemma ProductPositive(x: real, y: real)
    requires x > 0.0 && y > 0.0
    ensures x * y > 0.0
  {}

  // The percentile is the linear interpolation, and nothing else is.
  lemma PercentileExactly(v: real, s: seq<real>, p: real)
    requires s != [] && p >= 0.0
    ensures v == Percentile(s, p) <==> IsPercentile(v, s, p)
  {
    PercentileMeans(s, p);
    if IsPercentile(v, s, p) && |s| >= 2 && p < 100.0 {
      var k := SegmentOf(|s|, p);
      assert Divides(v, s, p, k) && Divides(Percentile(s, p), s, p, k);
    }
  }

  lemma PercentileMeans(s: seq<real>, p: real)
    requires s != [] && p >= 0.0
    ensures IsPercentile(Percentile(s, p), s, p)
  {
    if p >= 100.0 {
      FromHundredOn(s, p);
    } else {
      forall k: nat | k + 1 < |s| && InSegment(|s|, p, k)
        ensures Divides(Percentile(s, p), s, p, k)
      {
        Interpolates(s, p, k);
      }
    }
  }

  lemma Between(a: real, b: real, f: real)
    requires a <= b && 0.0 <= f <= 1.0
    ensures a <= Blend(a, b, f) <= b
  {
    ProductNonNegative(f, b - a);
    ProductNonNegative(1.0 - f, b - a);
    assert (1.0 - f) * (b - a) == (b - a) - f * (b - a);
  }

  lemma ProductNonNegative(x: real, y: real)
    requires x >= 0.0 && y >= 0.0
    ensures x * y >= 0.0
  {}

  lemma PositiveFactors(a: real, b: real, p: real)
    requires a > 0.0 && b > 0.0 && p == a * b
    ensures p > 0.0
  {}

  lemma AtRankBounds(s: seq<real>, rank: real)
    requires s != [] && IsSorted(s) && rank >= 0.0
    ensures rank.Floor < |s| ==> s[rank.Floor] <= AtRank(s, rank)
    ensures rank.Floor + 1 < |s| ==> AtRank(s, rank) <= s[rank.Floor + 1]
    ensures s[0] <= AtRank(s, rank) <= s[|s| - 1]
  {
    var lower := rank.Floor;
    if lower + 1 < |s| {
      Between(s[lower], s[lower + 1], rank - lower as real);
      assert s[0] <= s[lower] && s[lower + 1] <= s[|s| - 1] by {
        assert lower == 0 || s[0] <= s[lower];
        assert lower + 1 == |s| - 1 || s[lower + 1] <= s[|s| - 1];
      }
    }
  }

  lemma AtRankMonotone(s: seq<real>, a: real, b: real)
    requires s != [] && IsSorted(s) && 0.0 <= a <= b
    ensures AtRank(s, a) <= AtRank(s, b)
  {
    AtRankBounds(s, a);
    AtRankBounds(s, b);
    var i, j := a.Floor, b.Floor;
    if i == j && i + 1 < |s| {
      SameSegment(s[i], s[i + 1], a - i as real, b - i as real);
    }
  }

  lemma SameSegment(x: real, y: real, f: real, g: real)
    requires x <= y && f <= g
    ensures Blend(x, y, f) <= Blend(x, y, g)
  {
    ProductNonNegative(g - f, y - x);
    assert (g - f) * (y - x) == g * (y - x) - f * (y - x);
  }

  lemma RankMonotone(n: nat, p: real, q: real)
    requires n > 0 && p <= q
    ensures Rank(n, p) <= Rank(n, q)
  {
    ProductNonNegative(q / 100.0 - p / 100.0, (n - 1) as real);
    assert (q / 100.0 - p / 100.0) * (n - 1) as real == Rank(n, q) - Rank(n, p);
  }

  // A higher percentile is never smaller, also across segments.
  lemma PercentileMonotone(s: seq<real>, p: real, q: real)
    requires IsSorted(s) && 0.0 <= p <= q
    ensures Percentile(s, p) <= Percentile(s, q)
  {
    if s != [] {
      PercentileIsAtRank(s, p);
      PercentileIsAtRank(s, q);
      RankMonotone(|s|, p, q);
      AtRankMonotone(s, Rank(|s|, p), Rank(|s|, q));
    }
  }

  lemma PercentileInRange(s: seq<real>, p: real)
    requires IsSorted(s) && s != [] && p >= 0.0
    ensures s[0] <= Percentile(s, p) <= s[|s| - 1]
  {
    PercentileIsAtRank(s, p);
    AtRankBounds(s, Rank(|s|, p));
  }

  // The middle element, or the mean of the two middle ones.
  function MiddleMedian(s: seq<real>): real
    requires s != []
  {
    var n := |s|;
    if n % 2 == 0 then (s[n / 2 - 1] + s[n / 2]) / 2.0 else s[n / 2]
  }

  // Both ways of computing a median agree.
  lemma MedianIsPercentile50(s: seq<real>)
    requires s != []
    ensures MiddleMedian(s) == Percentile(s, 50.0)
  {
    var n := |s|;
    PercentileIsAtRank(s, 50.0);
    var rank := Rank(n, 50.0);
    assert rank == (n - 1) as real / 2.0;
    if n % 2 == 0 {
      assert rank.Floor == n / 2 - 1;
      assert rank - rank.Floor as real == 0.5;
    } else {
      assert rank.Floor == n / 2 && rank - rank.Floor as real == 0.0;
      if n > 1 {
        ZeroOffset(s[n / 2], s[n / 2 + 1], rank - rank.Floor as real);
      }
    }
  }

  lemma ZeroOffset(x: real, y: real, f: real)
    requires f == 0.0
    ensures Blend(x, y, f) == x
  {}

  lemma AtRankScaled(s: seq<real>, rank: real, c: real)
    requires s != [] && rank >= 0.0
    ensures AtRank(Scaled(s, c), rank) == c * AtRank(s, rank)
  {
    var lower := rank.Floor;
    if lower + 1 < |s| {
      ScaleSegment(s[lower], s[lower + 1], rank - lower as real, c);
    }
  }

  lemma ScaleSegment(x: real, y: real, f: real, c: real)
    ensures Blend(c * x, c * y, f) == c * Blend(x, y, f)
  {}

  lemma PercentileScaled(s: seq<real>, p: real, c: real)
    requires p >= 0.0
    ensures Percentile(Scaled(s, c), p) == c * Percentile(s, p)
  {
    if s != [] {
      PercentileIsAtRank(s, p);
      PercentileIsAtRank(Scaled(s, c), p);
      AtRankScaled(s, Rank(|s|, p), c);
    }
  }

  // ---- The summary of a sample ----

  datatype Summary = Summary(
    count: nat, min: real, max: real, mean: real, median: real, stdDev: real, variance: real,
    p50: real, p90: real, p95: real, p99: real, coeffVar: real)

  method AddUp(values: seq<real>) returns (sum: real)
    ensures sum == Sum(values)
  {
    sum := 0.0;
    for i := 0 to |values|
      invariant sum == Sum(values[..i])
    {
      SumSnoc(values[..i], values[i]);
      assert values[..i + 1] == values[..i] + [values[i]];
      sum := sum + values[i];
    }
    assert values[..|values|] == values;
  }

  method AddUpSquares(values: seq<real>, mean: real) returns (sum: real)
    ensures sum == SquaredDeviations(values, mean) && sum >= 0.0
  {
    sum := 0.0;
    for i := 0 to |values|
      invariant sum == SquaredDeviations(values[..i], mean)
    {
      SquaredSnoc(values[..i], values[i], mean);
      assert values[..i + 1] == values[..i] + [values[i]];
      var diff := values[i] - mean;
      sum := sum + diff * diff;
    }
    assert values[..|values|] == values;
    SquaredDeviationsNonNegative(values, mean);
  }

  // Variance over the whole population.
  function PopulationVariance(values: seq<real>): (v: real)
    requires values != []
    ensures v >= 0.0
  {
    SquaredDeviationsNonNegative(values, Mean(values));
    SquaredDeviations(values, Mean(values)) / |values| as real
  }

  lemma PercentilesOrdered(s: seq<real>)
    requires IsSorted(s) && s != []
    ensures s[0] <= Percentile(s, 50.0) <= Percentile(s, 90.0)
    ensures Percentile(s, 90.0) <= Percentile(s, 95.0) <= Percentile(s, 99.0) <= s[|s| - 1]
  {
    PercentileInRange(s, 50.0);
    PercentileMonotone(s, 50.0, 90.0);
    PercentileMonotone(s, 90.0, 95.0);
    PercentileMonotone(s, 95.0, 99.0);
    PercentileInRange(s, 99.0);
  }

  lemma QuotientTimes(x: real, y: real)
    requires y != 0.0
    ensures (x / y) * y == x
  {}

  // The percentiles of a report.
  ghost predicate RanksSample(s: Summary, values: seq<real>)
    requires values != []
  {
    && IsPercentile(s.p50, Sort(values), 50.0) && IsPercentile(s.p90, Sort(values), 90.0)
    && IsPercentile(s.p95, Sort(values), 95.0) && IsPercentile(s.p99, Sort(values), 99.0)
  }

  // The order statistics of a report.
  ghost predicate OrdersSample(s: Summary, values: seq<real>) {
    && s.min <= s.p50 <= s.p90 <= s.p95 <= s.p99 <= s.max && s.median == s.p50
    && s.min in values && s.max in values && (forall i :: 0 <= i < |values| ==> s.min <= values[i] <= s.max)
  }

  // The moments of a report.
  ghost predicate MeasuresSample(s: Summary, values: seq<real>) {
    && s.count == |values| && values != []
    && s.mean == Mean(values) && s.variance == PopulationVariance(values)
    && IsRootOf(s.stdDev, s.variance)
    && IsCoefficient(s.coeffVar, s.stdDev, s.mean)
  }

  // The coefficient of variation, in percent of the mean.
  predicate IsCoefficient(c: real, stdDev: real, mean: real) {
    if mean == 0.0 then c == 0.0 else c * mean == stdDev * 100.0
  }

  // sqrt stands for math.Sqrt.
  method CalculateStatistics(values: seq<real>, sqrt: real -> real) returns (s: Summary)
    requires IsSqrt(sqrt)
    ensures values == [] ==> s == Summary(0, 0.0, 0.0, 0.0, 0.0, 0.0, 0.0, 0.0, 0.0, 0.0, 0.0, 0.0)
    ensures values != [] ==> RanksSample(s, values) && OrdersSample(s, values) && MeasuresSample(s, values)
  {
    if |values| == 0 {
      return Summary(0, 0.0, 0.0, 0.0, 0.0, 0.0, 0.0, 0.0, 0.0, 0.0, 0.0, 0.0);
    }
    var sorted := Sort(values);
    SortSorts(values);
    var mean, variance := MeanAndVariance(values);
    var stdDev := sqrt(variance);
    assert IsRootOf(stdDev, variance);
    var coeffVar := Coefficient(stdDev, mean);
    var median := Percentile(sorted, 50.0);
    s := Summary(|values|, sorted[0], sorted[|sorted| - 1], mean, median, stdDev, variance,
                 median, Percentile(sorted, 90.0), Percentile(sorted, 95.0), Percentile(sorted, 99.0), coeffVar);
    PercentileMeans(sorted, 50.0);
    PercentileMeans(sorted, 90.0);
    PercentileMeans(sorted, 95.0);
    PercentileMeans(sorted, 99.0);
    PercentilesOrdered(sorted);
    ExtremesOfSorted(values, sorted);
  }

  // The two accumulation loops.
  method MeanAndVariance(values: seq<real>) returns (mean: real, variance: real)
    requires values != []
    ensures mean == Mean(values) && variance == PopulationVariance(values) && variance >= 0.0
  {
    var sum := AddUp(values);
    mean := sum / |values| as real;
    var sumSquares := AddUpSquares(values, mean);
    variance := sumSquares / |values| as real;
  }

  method Coefficient(stdDev: real, mean: real) returns (c: real)
    ensures IsCoefficient(c, stdDev, mean)
  {
    c := 0.0;
    if mean != 0.0 {
      QuotientTimes(stdDev, mean);
      c := (stdDev / mean) * 100.0;
    }
  }

  lemma ExtremesOfSorted(values: seq<real>, sorted: seq<real>)
    requires IsSorted(sorted) && multiset(sorted) == multiset(values) && sorted != []
    ensures sorted[0] in values && sorted[|sorted| - 1] in values
    ensures forall i :: 0 <= i < |values| ==> sorted[0] <= values[i] <= sorted[|sorted| - 1]
  {
    assert sorted[0] in multiset(values) && sorted[|sorted| - 1] in multiset(values);
    forall i | 0 <= i < |values|
      ensures sorted[0] <= values[i] <= sorted[|sorted| - 1]
    {
      assert values[i] in multiset(sorted);
    }
  }
}
