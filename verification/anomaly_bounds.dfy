// How many runs the z-score and quartile methods can flag.
module AnomalyBounds {
  import opened Reals
  import opened Statistics
  import opened Anomalies
  import opened Wrappers

  // ---- Counting ----

  function CountIf<T>(xs: seq<T>, p: T -> bool): nat {
    if xs == [] then 0 else CountIf(xs[..|xs| - 1], p) + if p(xs[|xs| - 1]) then 1 else 0
  }

  function Found(): Option<Anomaly> -> bool {
    (v: Option<Anomaly>) => v.Some?
  }

  // The rows a method flags.
  function Flagged(found: seq<Option<Anomaly>>): nat {
    CountIf(found, Found())
  }

  lemma CountSnoc<T>(xs: seq<T>, x: T, p: T -> bool)
    ensures CountIf(xs + [x], p) == CountIf(xs, p) + if p(x) then 1 else 0
  {
    assert (xs + [x])[..|xs|] == xs;
  }

  lemma {:induction false} CountSame<T, U>(xs: seq<T>, p: T -> bool, ys: seq<U>, q: U -> bool)
    requires |xs| == |ys| && forall i :: 0 <= i < |xs| ==> p(xs[i]) == q(ys[i])
    ensures CountIf(xs, p) == CountIf(ys, q)
  {
    if xs != [] {
      CountSame(xs[..|xs| - 1], p, ys[..|ys| - 1], q);
    }
  }

  lemma {:induction false} CountWithout<T>(xs: seq<T>, i: nat, p: T -> bool)
    requires i < |xs|
    ensures CountIf(xs, p) == CountIf(Without(xs, i), p) + if p(xs[i]) then 1 else 0
  {
    var n := |xs| - 1;
    if i == n {
      assert Without(xs, i) == xs[..n];
    } else {
      CountWithout(xs[..n], i, p);
      assert Without(xs, i) == Without(xs[..n], i) + [xs[n]];
      CountSnoc(Without(xs[..n], i), xs[n], p);
    }
  }

  lemma {:induction false} CountPermuted<T>(xs: seq<T>, ys: seq<T>, p: T -> bool)
    requires multiset(xs) == multiset(ys)
    ensures CountIf(xs, p) == CountIf(ys, p)
  {
    SameLength(xs, ys);
    if xs != [] {
      var i := Locate(xs, ys);
      CountPermuted(xs[..|xs| - 1], Without(ys, i), p);
      CountWithout(ys, i, p);
    }
  }

  lemma {:induction false} CountNone<T>(xs: seq<T>, p: T -> bool)
    requires forall i :: 0 <= i < |xs| ==> !p(xs[i])
    ensures CountIf(xs, p) == 0
  {
    if xs != [] {
      CountNone(xs[..|xs| - 1], p);
    }
  }

  lemma {:induction false} CountAtMost<T>(xs: seq<T>, p: T -> bool)
    ensures CountIf(xs, p) <= |xs|
    ensures CountIf(xs, p) == |xs| ==> forall i :: 0 <= i < |xs| ==> p(xs[i])
  {
    if xs != [] {
      var n := |xs| - 1;
      CountAtMost(xs[..n], p);
      assert forall i :: 0 <= i < n ==> xs[i] == xs[..n][i];
    }
  }

  // Only elements before position k can count.
  lemma {:induction false} CountPrefix<T>(xs: seq<T>, p: T -> bool, k: nat)
    requires k <= |xs| && forall i :: k <= i < |xs| ==> !p(xs[i])
    ensures CountIf(xs, p) <= k
  {
    if k == |xs| {
      CountAtMost(xs, p);
    } else {
      CountPrefix(xs[..|xs| - 1], p, k);
    }
  }

  // Only elements from position k on can count.
  lemma {:induction false} CountSuffix<T>(xs: seq<T>, p: T -> bool, k: nat)
    requires k <= |xs| && forall i :: 0 <= i < k ==> !p(xs[i])
    ensures CountIf(xs, p) <= |xs| - k
  {
    if k == |xs| {
      CountNone(xs, p);
    } else {
      CountSuffix(xs[..|xs| - 1], p, k);
    }
  }

  // A pass reports at most what its method flags.
  lemma {:induction false} ReportedAtMostFlagged(st: PassState, ids: seq<string>, metric: Metric,
                                                 found: seq<Option<Anomaly>>, n: nat)
    requires |found| == |ids| && n <= |ids|
    ensures |st.anomalies| <= |PassTo(st, ids, metric, found, n).anomalies| <= |st.anomalies| + Flagged(found[..n])
  {
    if n > 0 {
      ReportedAtMostFlagged(st, ids, metric, found, n - 1);
      assert found[..n] == found[..n - 1] + [found[n - 1]];
      CountSnoc(found[..n - 1], found[n - 1], Found());
    }
  }

  // ---- The one-sided bound of Cantelli ----

  // If any of n values is counted, the number k of those that are satisfies
  // k (1 + t^2) < n.
  predicate Bounded(k: nat, n: nat, t: real) {
    k > 0 ==> k as real * (1.0 + t * t) < n as real
  }

  // n values whose mean squared distance is s^2.
  predicate HasSpread(squares: real, n: real, s: real) {
    squares == n * (s * s)
  }

  // Distances from m, on the side given by the sign.
  function Distance(m: real, sign: real): real -> real {
    x => sign * (x - m)
  }

  function Exceeds(t: real, s: real): real -> bool {
    d => d > t * s
  }

  function Shift(t: real, s: real): real -> real {
    d => (t * d + s) * (t * d + s)
  }

  // The total distance of n values from m.
  function Gap(sign: real, sum: real, n: real, m: real): real {
    sign * (sum - n * m)
  }

  lemma {:induction false} DistancesSum(xs: seq<real>, m: real, sign: real)
    ensures Sum(Map(xs, Distance(m, sign))) == Gap(sign, Sum(xs), |xs| as real, m)
  {
    if xs != [] {
      var n := |xs| - 1;
      var front, x := xs[..n], xs[n];
      DistancesSum(front, m, sign);
      assert xs == front + [x];
      var f := Distance(m, sign);
      MapSnoc(front, x, f);
      SumSnoc(Map(front, f), f(x));
      SumSnoc(front, x);
      OneMoreDistance(Sum(Map(front, f)), sign, Sum(front), n as real, m, x, f(x));
    }
  }

  lemma OneMoreDistance(total: real, sign: real, sum: real, n: real, m: real, x: real, d: real)
    requires total == Gap(sign, sum, n, m) && d == sign * (x - m)
    ensures total + d == Gap(sign, sum + x, n + 1.0, m)
  {
    Distribute(sign, sum - n * m, x - m);
  }

  lemma GapAtMean(sign: real, sum: real, n: real, m: real)
    requires n != 0.0 && m == sum / n
    ensures Gap(sign, sum, n, m) == 0.0
  {
    QuotientTimes(sum, n);
  }

  lemma DistancesCancel(xs: seq<real>, sign: real)
    ensures Sum(Map(xs, Distance(Mean(xs), sign))) == 0.0
  {
    if xs != [] {
      DistancesSum(xs, Mean(xs), sign);
      GapAtMean(sign, Sum(xs), |xs| as real, Mean(xs));
    }
  }

  lemma DistancesSquared(xs: seq<real>, m: real, sign: real)
    requires sign * sign == 1.0
    ensures SquaredDeviations(Map(xs, Distance(m, sign)), 0.0) == SquaredDeviations(xs, m)
  {
    var l, r := Map(Map(xs, Distance(m, sign)), Squared(0.0)), Map(xs, Squared(m));
    forall i | 0 <= i < |xs|
      ensures l[i] == r[i]
    {
      var d := sign * (xs[i] - m);
      SignedSquare(sign, xs[i] - m, d);
    }
    assert l == r;
  }

  lemma SignedSquare(sign: real, x: real, d: real)
    requires sign * sign == 1.0 && d == sign * x
    ensures (d - 0.0) * (d - 0.0) == x * x
  {
    assert d * d == (sign * sign) * (x * x);
  }

  function Expanded(squares: real, sum: real, n: real, t: real, s: real): real {
    (t * t) * squares + (2.0 * t * s) * sum + n * (s * s)
  }

  // The sum of (t d + s)^2.
  lemma {:induction false} ShiftedSum(ds: seq<real>, t: real, s: real)
    ensures Sum(Map(ds, Shift(t, s))) == Expanded(SquaredDeviations(ds, 0.0), Sum(ds), |ds| as real, t, s)
  {
    if ds != [] {
      var n := |ds| - 1;
      var front, d := ds[..n], ds[n];
      ShiftedSum(front, t, s);
      assert ds == front + [d];
      MapSnoc(front, d, Shift(t, s));
      SumSnoc(Map(front, Shift(t, s)), Shift(t, s)(d));
      SquaredSnoc(front, d, 0.0);
      SumSnoc(front, d);
      OneMoreShift(Sum(Map(front, Shift(t, s))), SquaredDeviations(front, 0.0), Sum(front), n as real, t, s, d,
                   Sum(Map(ds, Shift(t, s))), SquaredDeviations(ds, 0.0), Sum(ds), |ds| as real);
    }
  }

  lemma OneMoreShift(total: real, squares: real, sum: real, n: real, t: real, s: real, d: real,
                     total': real, squares': real, sum': real, n': real)
    requires total == Expanded(squares, sum, n, t, s)
    requires total' == total + Shift(t, s)(d) && squares' == squares + (d - 0.0) * (d - 0.0)
    requires sum' == sum + d && n' == n + 1.0
    ensures total' == Expanded(squares', sum', n', t, s)
  {
    assert (t * d + s) * (t * d + s) == (t * t) * (d * d) + (2.0 * t * s) * d + s * s;
    Distribute(t * t, squares, d * d);
    Distribute(2.0 * t * s, sum, d);
  }

  // A value past t s contributes at least (s (1 + t^2))^2.
  lemma FarTerm(t: real, s: real, d: real, b: real)
    requires t >= 0.0 && s > 0.0 && d > t * s && b == s * (1.0 + t * t)
    ensures (t * d + s) * (t * d + s) >= b * b
    ensures t > 0.0 ==> (t * d + s) * (t * d + s) > b * b
  {
    var x := t * d + s;
    ProductNonNegative(t, d - t * s);
    assert t * (d - t * s) == x - b;
    SquareNonNegative(t);
    PositiveFactors(s, 1.0 + t * t, b);
    if t > 0.0 {
      PositiveFactors(t, d - t * s, x - b);
    }
    SquareGrows(b, x);
  }

  lemma SquareGrows(b: real, x: real)
    requires 0.0 < b <= x
    ensures b * b <= x * x && (b < x ==> b * b < x * x)
  {
    ProductNonNegative(x - b, x + b);
    assert x * x - b * b == (x - b) * (x + b);
    if b < x {
      PositiveFactors(x - b, x + b, x * x - b * b);
    }
  }

  // total is at least k times b, strictly more if it matters.
  predicate Covers(total: real, k: real, b: real, strict: bool) {
    total >= k * b && (strict && k > 0.0 ==> total > k * b)
  }

  lemma CoversMore(total: real, k: real, b: real, strict: bool, x: real)
    requires Covers(total, k, b, strict) && k >= 0.0 && x >= b && (strict ==> x > b)
    ensures Covers(total + x, k + 1.0, b, strict)
  {
    assert (k + 1.0) * b == k * b + b;
  }

  lemma CoversStill(total: real, k: real, b: real, strict: bool, x: real)
    requires Covers(total, k, b, strict) && x >= 0.0
    ensures Covers(total + x, k, b, strict)
  {}

  // The least contribution of a value past t s.
  function FarSquare(t: real, s: real): real {
    (s * (1.0 + t * t)) * (s * (1.0 + t * t))
  }

  lemma {:induction false} FarTerms(ds: seq<real>, t: real, s: real)
    requires t >= 0.0 && s > 0.0
    ensures Covers(Sum(Map(ds, Shift(t, s))), CountIf(ds, Exceeds(t, s)) as real, FarSquare(t, s), t > 0.0)
  {
    if ds == [] {
      assert Map(ds, Shift(t, s)) == [];
    } else {
      var n := |ds| - 1;
      var front, d := ds[..n], ds[n];
      FarTerms(front, t, s);
      assert ds == front + [d];
      MapSnoc(front, d, Shift(t, s));
      SumSnoc(Map(front, Shift(t, s)), Shift(t, s)(d));
      FarShift(t, s, d);
      NextTerm(Sum(Map(front, Shift(t, s))), CountIf(front, Exceeds(t, s)), FarSquare(t, s), t > 0.0,
               Shift(t, s)(d), Exceeds(t, s)(d));
    }
  }

  lemma FarShift(t: real, s: real, d: real)
    requires t >= 0.0 && s > 0.0
    ensures Shift(t, s)(d) >= 0.0
    ensures Exceeds(t, s)(d) ==> Shift(t, s)(d) >= FarSquare(t, s)
    ensures Exceeds(t, s)(d) && t > 0.0 ==> Shift(t, s)(d) > FarSquare(t, s)
  {
    SquareNonNegative(t * d + s);
    if d > t * s {
      FarTerm(t, s, d, s * (1.0 + t * t));
    }
  }

  lemma NextTerm(total: real, k: nat, far: real, strict: bool, x: real, isFar: bool)
    requires Covers(total, k as real, far, strict) && x >= 0.0
    requires isFar ==> x >= far && (strict ==> x > far)
    ensures Covers(total + x, (k + if isFar then 1 else 0) as real, far, strict)
  {
    if isFar {
      CoversMore(total, k as real, far, strict, x);
    } else {
      CoversStill(total, k as real, far, strict, x);
    }
  }

  lemma Cancel(k: real, n: real, p: real, u: real, total: real, far: real)
    requires p > 0.0 && total == n * p && far == p * u && total > k * far
    ensures k * u < n
  {
    assert k * far == (k * u) * p;
    ScaleOrder(p, k * u, n);
  }

  lemma TotalShift(squares: real, n: real, t: real, s: real, p: real)
    requires squares == n * (s * s) && p == (s * s) * (1.0 + t * t)
    ensures Expanded(squares, 0.0, n, t, s) == n * p
  {
    assert (t * t) * squares == n * ((s * s) * (t * t));
    Distribute(n, s * s, (s * s) * (t * t));
  }

  lemma FarIsMultiple(t: real, s: real, p: real)
    requires p == (s * s) * (1.0 + t * t)
    ensures FarSquare(t, s) == p * (1.0 + t * t)
  {}

  lemma VarianceIsMean(xs: seq<real>, s: real)
    requires xs != [] && IsRootOf(s, PopulationVariance(xs))
    ensures HasSpread(SquaredDeviations(xs, Mean(xs)), |xs| as real, s)
  {
    QuotientTimes(SquaredDeviations(xs, Mean(xs)), |xs| as real);
  }

  lemma {:induction false} SumPositive(ds: seq<real>)
    requires ds != [] && forall i :: 0 <= i < |ds| ==> ds[i] > 0.0
    ensures Sum(ds) > 0.0
  {
    if |ds| > 1 {
      SumPositive(ds[..|ds| - 1]);
    }
  }

  // The values more than t standard deviations on one side of the mean are few.
  lemma Cantelli(xs: seq<real>, sign: real, s: real, t: real)
    requires xs != [] && s > 0.0 && IsRootOf(s, PopulationVariance(xs)) && sign * sign == 1.0 && t >= 0.0
    ensures Bounded(CountIf(Map(xs, Distance(Mean(xs), sign)), Exceeds(t, s)), |xs|, t)
  {
    DistancesCancel(xs, sign);
    DistancesSquared(xs, Mean(xs), sign);
    VarianceIsMean(xs, s);
    FarDistances(Map(xs, Distance(Mean(xs), sign)), s, t);
  }

  lemma FarDistances(ds: seq<real>, s: real, t: real)
    requires ds != [] && s > 0.0 && t >= 0.0
    requires Sum(ds) == 0.0 && HasSpread(SquaredDeviations(ds, 0.0), |ds| as real, s)
    ensures Bounded(CountIf(ds, Exceeds(t, s)), |ds|, t)
  {
    var k := CountIf(ds, Exceeds(t, s));
    if t == 0.0 {
      AllAbove(ds, t, s);
      BoundedAtZero(k, |ds|, t);
    } else if k > 0 {
      ShiftedSum(ds, t, s);
      FarTerms(ds, t, s);
      Conclude(Sum(Map(ds, Shift(t, s))), SquaredDeviations(ds, 0.0), k, |ds|, t, s);
    }
  }

  lemma BoundedAtZero(k: nat, n: nat, t: real)
    requires t == 0.0 && k < n
    ensures Bounded(k, n, t)
  {}

  lemma AllAbove(ds: seq<real>, t: real, s: real)
    requires ds != [] && Sum(ds) == 0.0 && t == 0.0
    ensures CountIf(ds, Exceeds(t, s)) < |ds|
  {
    CountAtMost(ds, Exceeds(t, s));
    if CountIf(ds, Exceeds(t, s)) == |ds| {
      SumPositive(ds);
    }
  }

  lemma Conclude(total: real, squares: real, k: nat, n: nat, t: real, s: real)
    requires s > 0.0 && t > 0.0 && k > 0 && HasSpread(squares, n as real, s)
    requires total == Expanded(squares, 0.0, n as real, t, s) && Covers(total, k as real, FarSquare(t, s), true)
    ensures Bounded(k, n, t)
  {
    var p := (s * s) * (1.0 + t * t);
    SquareNonNegative(t);
    PositiveFactors(s, s, s * s);
    PositiveFactors(s * s, 1.0 + t * t, p);
    TotalShift(squares, n as real, t, s, p);
    FarIsMultiple(t, s, p);
    Cancel(k as real, n as real, p, 1.0 + t * t, total, FarSquare(t, s));
  }

  // ---- The z-score pass ----

  lemma QuotientAbove(x: real, s: real, t: real, q: real)
    requires s > 0.0 && q == x / s
    ensures q > t <==> x > t * s
    ensures q < -t <==> -x > t * s
  {
    assert x == q * s;
    ScaleOrder(s, t, q);
    ScaleOrder(s, q, -t);
  }

  // The bad side of the mean.
  function Side(higher: bool): (sign: real)
    ensures sign * sign == 1.0
  {
    if higher then -1.0 else 1.0
  }

  predicate IsCritical(verdict: Option<Anomaly>) {
    verdict.Some? && verdict.value.severity == Critical
  }

  // The z-score method flags what lies more than t standard deviations on the bad
  // side of the mean, and calls it critical beyond 1.5 t.
  lemma FlaggedIsFar(id: string, v: real, metric: Metric, stats: MetricStatistics, t: real, higher: bool)
    requires stats.stdDev > 0.0
    ensures var d := Distance(stats.mean, Side(higher))(v);
            && (ZVerdict(id, v, metric, stats, t, higher).Some? <==> Exceeds(t, stats.stdDev)(d))
            && (IsCritical(ZVerdict(id, v, metric, stats, t, higher)) <==>
                  Exceeds(t, stats.stdDev)(d) && Exceeds(t * 1.5, stats.stdDev)(d))
  {
    QuotientAbove(v - stats.mean, stats.stdDev, t, (v - stats.mean) / stats.stdDev);
    QuotientAbove(v - stats.mean, stats.stdDev, t * 1.5, (v - stats.mean) / stats.stdDev);
  }

  lemma FlaggedAreFar(ids: seq<string>, values: seq<real>, metric: Metric, stats: MetricStatistics, t: real, higher: bool)
    requires |ids| == |values| && stats.stdDev > 0.0
    ensures Flagged(ZFound(ids, values, metric, stats, t, higher))
         == CountIf(Map(values, Distance(stats.mean, Side(higher))), Exceeds(t, stats.stdDev))
  {
    var found := ZFound(ids, values, metric, stats, t, higher);
    var far := Exceeds(t, stats.stdDev);
    var ds := Map(values, Distance(stats.mean, Side(higher)));
    forall i | 0 <= i < |found|
      ensures Found()(found[i]) == far(ds[i])
    {
      FlaggedIsFar(ids[i], values[i], metric, stats, t, higher);
    }
    CountSame(found, Found(), ds, far);
  }

  // The bound for the rows the z-score method flags.
  lemma ZFlagsBounded(ids: seq<string>, values: seq<real>, metric: Metric, multiplier: real, sqrt: real -> real,
                      t: real, higher: bool)
    requires |ids| == |values| && IsSqrt(sqrt) && t >= 0.0
    ensures Bounded(Flagged(ZFound(ids, values, metric, StatsOf(values, multiplier, sqrt), t, higher)), |values|, t)
  {
    var stats := StatsOf(values, multiplier, sqrt);
    if values == [] {
      CountNone(ZFound(ids, values, metric, stats, t, higher), Found());
    } else {
      StatsMoments(values, multiplier, sqrt);
      ZFlagsOf(ids, values, metric, stats, t, higher);
    }
  }

  lemma StatsMoments(values: seq<real>, multiplier: real, sqrt: real -> real)
    requires values != [] && IsSqrt(sqrt)
    ensures StatsOf(values, multiplier, sqrt).mean == Mean(values)
    ensures IsRootOf(StatsOf(values, multiplier, sqrt).stdDev, PopulationVariance(values))
  {}

  lemma NoSpreadNoFlags(ids: seq<string>, values: seq<real>, metric: Metric, stats: MetricStatistics, t: real,
                        higher: bool)
    requires |ids| == |values| && stats.stdDev == 0.0
    ensures Flagged(ZFound(ids, values, metric, stats, t, higher)) == 0
  {
    CountNone(ZFound(ids, values, metric, stats, t, higher), Found());
  }

  lemma FewerStillBounded(k: nat, flagged: nat, n: nat, t: real)
    requires k <= flagged && Bounded(flagged, n, t)
    ensures Bounded(k, n, t)
  {
    if k > 0 {
      SquareNonNegative(t);
      ScaleOrder(1.0 + t * t, k as real, flagged as real);
    }
  }

  lemma ZFlagsOf(ids: seq<string>, values: seq<real>, metric: Metric, stats: MetricStatistics, t: real, higher: bool)
    requires |ids| == |values| && values != [] && t >= 0.0
    requires stats.mean == Mean(values) && IsRootOf(stats.stdDev, PopulationVariance(values))
    ensures Bounded(Flagged(ZFound(ids, values, metric, stats, t, higher)), |values|, t)
  {
    var flagged := Flagged(ZFound(ids, values, metric, stats, t, higher));
    if stats.stdDev == 0.0 {
      NoSpreadNoFlags(ids, values, metric, stats, t, higher);
    } else {
      FlaggedAreFar(ids, values, metric, stats, t, higher);
      var s, m := stats.stdDev, stats.mean;
      Cantelli(values, Side(higher), s, t);
      FewerStillBounded(flagged, CountIf(Map(values, Distance(m, Side(higher))), Exceeds(t, s)), |values|, t);
    }
  }

  predicate AddsBounded(st: PassState, next: PassState, n: nat, t: real) {
    exists k: nat :: |next.anomalies| == |st.anomalies| + k && Bounded(k, n, t)
  }

  // If a z-score pass reports k > 0 of n values, then k (1 + threshold^2) < n.
  lemma ZPassBounded(st: PassState, ids: seq<string>, values: seq<real>, metric: Metric, multiplier: real,
                     sqrt: real -> real, t: real, higher: bool)
    requires |ids| == |values| && IsSqrt(sqrt) && t >= 0.0
    ensures var found := ZFound(ids, values, metric, StatsOf(values, multiplier, sqrt), t, higher);
            AddsBounded(st, Pass(st, ids, metric, found), |values|, t)
  {
    var stats := StatsOf(values, multiplier, sqrt);
    ZFlagsBounded(ids, values, metric, multiplier, sqrt, t, higher);
    PassBounded(st, ids, metric, ZFound(ids, values, metric, stats, t, higher), t);
  }

  lemma PassBounded(st: PassState, ids: seq<string>, metric: Metric, found: seq<Option<Anomaly>>, t: real)
    requires |found| == |ids| && Bounded(Flagged(found), |ids|, t)
    ensures AddsBounded(st, Pass(st, ids, metric, found), |ids|, t)
  {
    ReportedAtMostFlagged(st, ids, metric, found, |ids|);
    assert found[..|ids|] == found;
    FewerStillBounded(|Pass(st, ids, metric, found).anomalies| - |st.anomalies|, Flagged(found), |ids|, t);
  }

  // With the default threshold ten runs are too few for any z-score anomaly.
  lemma DefaultNeedsElevenRuns(ids: seq<string>, values: seq<real>, metric: Metric, cfg: Config, sqrt: real -> real,
                               higher: bool)
    requires |ids| == |values| && IsSqrt(sqrt) && NewDetector(cfg).zThreshold == 3.0 && |values| <= 10
    ensures var c := NewDetector(cfg);
            forall v :: v in ZFound(ids, values, metric, StatsOf(values, c.iqrMultiplier, sqrt), c.zThreshold, higher) ==> v.None?
  {
    var c := NewDetector(cfg);
    var found := ZFound(ids, values, metric, StatsOf(values, c.iqrMultiplier, sqrt), c.zThreshold, higher);
    ZFlagsBounded(ids, values, metric, c.iqrMultiplier, sqrt, c.zThreshold, higher);
    NoneFound(found);
  }

  lemma {:induction false} NoneFound(found: seq<Option<Anomaly>>)
    requires Flagged(found) == 0
    ensures forall v :: v in found ==> v.None?
  {
    if found != [] {
      NoneFound(found[..|found| - 1]);
      assert found == found[..|found| - 1] + [found[|found| - 1]];
    }
  }

  lemma {:induction false} SumOfEqual(xs: seq<real>, x: real)
    requires forall i :: 0 <= i < |xs| ==> xs[i] == x
    ensures Sum(xs) == |xs| as real * x
  {
    if xs != [] {
      SumOfEqual(xs[..|xs| - 1], x);
    }
  }

  const TEN_ZEROS: seq<real> := seq(10, _ => 0.0)

  lemma ElevenMoments()
    ensures Mean(TEN_ZEROS + [11.0]) == 1.0 && PopulationVariance(TEN_ZEROS + [11.0]) == 10.0
  {
    SumOfEqual(TEN_ZEROS, 0.0);
    SumSnoc(TEN_ZEROS, 11.0);
    SquaredSnoc(TEN_ZEROS, 11.0, 1.0);
    SumOfEqual(Map(TEN_ZEROS, Squared(1.0)), 1.0);
  }

  // The bound is sharp: with the default threshold a pass over eleven runs can report.
  lemma ElevenRunsCanFire(ids: seq<string>, metric: Metric, multiplier: real, sqrt: real -> real)
    requires IsSqrt(sqrt) && |ids| == 11
    ensures var values := TEN_ZEROS + [11.0];
            Pass(START, ids, metric, ZFound(ids, values, metric, StatsOf(values, multiplier, sqrt), 3.0, false)).anomalies != []
  {
    var values := TEN_ZEROS + [11.0];
    var stats := StatsOf(values, multiplier, sqrt);
    ElevenMoments();
    StatsMoments(values, multiplier, sqrt);
    OutlierAtTen(ids[10], metric, stats);
    var found := ZFound(ids, values, metric, stats, 3.0, false);
    assert found[10] == ZVerdict(ids[10], 11.0, metric, stats, 3.0, false);
    FoundIsReported(ids, metric, found, 11, 10);
  }

  lemma {:induction false} FoundIsReported(ids: seq<string>, metric: Metric, found: seq<Option<Anomaly>>, n: nat, i: nat)
    requires |found| == |ids| && n <= |ids|
    ensures PassTo(START, ids, metric, found, n).anomalies == [] ==> PassTo(START, ids, metric, found, n).seen == {}
    ensures i < n && found[i].Some? ==> PassTo(START, ids, metric, found, n).anomalies != []
  {
    if n > 0 {
      FoundIsReported(ids, metric, found, n - 1, i);
    }
  }

  lemma OutlierAtTen(id: string, metric: Metric, stats: MetricStatistics)
    requires stats.mean == 1.0 && IsRootOf(stats.stdDev, 10.0)
    ensures ZVerdict(id, 11.0, metric, stats, 3.0, false).Some?
  {
    var s := stats.stdDev;
    RootBelow(s);
    QuotientAbove(10.0, s, 3.0, 10.0 / s);
  }

  lemma RootBelow(s: real)
    requires IsRootOf(s, 10.0)
    ensures 0.0 < s && 3.0 * s < 10.0
  {
    var limit := 10.0 / 3.0;
    if s >= limit {
      SquareGrows(limit, s);
    }
  }

  // ---- The quartile pass ----

  function BelowValue(b: real): real -> bool {
    x => x < b
  }

  function AboveValue(b: real): real -> bool {
    x => x > b
  }

  // A quarter of the gaps between n sorted values, rounded up.
  function Quarter(n: nat): nat
    requires n > 0
  {
    (n - 1 + 3) / 4
  }

  lemma FloorOfQuarter(n: nat)
    requires n > 0
    ensures Rank(n, 25.0).Floor == (n - 1) / 4 && Rank(n, 75.0).Floor == 3 * (n - 1) / 4
    ensures Rank(n, 25.0) == Rank(n, 25.0).Floor as real <==> (n - 1) % 4 == 0
  {
    assert Rank(n, 25.0) == (n - 1) as real / 4.0;
    assert Rank(n, 75.0) == (3 * (n - 1)) as real / 4.0;
    FloorOfFourth(n - 1, Rank(n, 25.0));
    FloorOfFourth(3 * (n - 1), Rank(n, 75.0));
  }

  lemma FloorOfFourth(k: nat, r: real)
    requires r == k as real / 4.0
    ensures r.Floor == k / 4 && (r == r.Floor as real <==> k % 4 == 0)
  {
    assert k == 4 * (k / 4) + k % 4;
  }

  // From position Quarter(n) on no sorted value is below the first quartile.
  lemma NotBelowQ1(s: seq<real>, i: nat)
    requires IsSorted(s) && s != [] && Quarter(|s|) <= i < |s|
    ensures Percentile(s, 25.0) <= s[i]
  {
    var n := |s|;
    var rank := Rank(n, 25.0);
    PercentileIsAtRank(s, 25.0);
    AtRankBounds(s, rank);
    FloorOfQuarter(n);
    if (n - 1) % 4 == 0 && rank.Floor + 1 < n {
      ZeroOffset(s[rank.Floor], s[rank.Floor + 1], rank - rank.Floor as real);
    }
    assert s[Quarter(n)] <= s[i];
  }

  // Up to position 3 (n - 1) / 4 no sorted value is above the third quartile.
  lemma NotAboveQ3(s: seq<real>, i: nat)
    requires IsSorted(s) && s != [] && i <= 3 * (|s| - 1) / 4
    ensures i < |s| && s[i] <= Percentile(s, 75.0)
  {
    PercentileIsAtRank(s, 75.0);
    AtRankBounds(s, Rank(|s|, 75.0));
    FloorOfQuarter(|s|);
    assert s[i] <= s[3 * (|s| - 1) / 4];
  }

  ghost predicate IqrStatsOf(stats: MetricStatistics, s: seq<real>, multiplier: real) {
    && s != []
    && stats == WithFences(stats.mean, MiddleMedian(s), stats.stdDev, stats.min, stats.max,
                           Percentile(s, 25.0), Percentile(s, 75.0), multiplier)
  }

  lemma ReachNonNegative(multiplier: real, iqr: real)
    requires iqr >= 0.0 && multiplier >= 0.0
    ensures Reach(multiplier, iqr) >= 0.0
  {
    ProductNonNegative(multiplier, iqr);
  }

  lemma FencesOutside(stats: MetricStatistics, s: seq<real>, multiplier: real)
    requires IsSorted(s) && IqrStatsOf(stats, s, multiplier) && multiplier >= 0.0
    ensures stats.q1 == Percentile(s, 25.0) && stats.q3 == Percentile(s, 75.0)
    ensures stats.lowerFence <= stats.q1 <= stats.median <= stats.q3 <= stats.upperFence
  {
    var q1, q3 := Percentile(s, 25.0), Percentile(s, 75.0);
    PercentileMonotone(s, 25.0, 50.0);
    PercentileMonotone(s, 50.0, 75.0);
    MedianIsPercentile50(s);
    ReachNonNegative(multiplier, q3 - q1);
  }

  lemma StatsAreIqrStats(values: seq<real>, multiplier: real, sqrt: real -> real)
    requires values != []
    ensures IqrStatsOf(StatsOf(values, multiplier, sqrt), Sort(values), multiplier)
  {}

  lemma ReachOrder(m: real, k: real, iqr: real)
    requires iqr >= 0.0 && m <= k
    ensures Reach(m, iqr) <= Reach(k, iqr)
  {
    ProductNonNegative(k - m, iqr);
  }

  // Critical means beyond three interquartile ranges, if the fences are nearer than
  // that; if they are not, every value they flag is critical.
  lemma FencesJudge(id: string, v: real, metric: Metric, values: seq<real>, multiplier: real, sqrt: real -> real)
    requires values != []
    ensures var stats := StatsOf(values, multiplier, sqrt);
            var verdict := IqrVerdict(id, v, metric, stats);
            && (multiplier <= 3.0 ==>
                  (IsCritical(verdict) <==> v < stats.q1 - 3.0 * stats.iqr || v > stats.q3 + 3.0 * stats.iqr))
            && (multiplier >= 3.0 ==> (IsCritical(verdict) <==> verdict.Some?))
  {
    var s := Sort(values);
    SortSorts(values);
    PercentileMonotone(s, 25.0, 75.0);
    FencesCompare(id, v, metric, StatsOf(values, multiplier, sqrt), multiplier);
  }

  lemma FencesCompare(id: string, v: real, metric: Metric, stats: MetricStatistics, multiplier: real)
    requires stats.iqr >= 0.0
    requires stats.lowerFence == stats.q1 - Reach(multiplier, stats.iqr)
    requires stats.upperFence == stats.q3 + Reach(multiplier, stats.iqr)
    ensures var verdict := IqrVerdict(id, v, metric, stats);
            && (multiplier <= 3.0 ==>
                  (IsCritical(verdict) <==> v < stats.q1 - 3.0 * stats.iqr || v > stats.q3 + 3.0 * stats.iqr))
            && (multiplier >= 3.0 ==> (IsCritical(verdict) <==> verdict.Some?))
  {
    if multiplier <= 3.0 {
      ReachOrder(multiplier, 3.0, stats.iqr);
    }
    if multiplier >= 3.0 {
      ReachOrder(3.0, multiplier, stats.iqr);
    }
  }

  lemma FewOutside(values: seq<real>, s: seq<real>, stats: MetricStatistics, multiplier: real)
    requires values != [] && s == Sort(values) && IqrStatsOf(stats, s, multiplier) && multiplier >= 0.0
    ensures CountIf(values, BelowValue(stats.lowerFence)) <= Quarter(|values|)
    ensures CountIf(values, AboveValue(stats.upperFence)) <= Quarter(|values|)
  {
    var n := |values|;
    SortSorts(values);
    FencesOutside(stats, s, multiplier);
    CountPermuted(values, s, BelowValue(stats.lowerFence));
    CountPermuted(values, s, AboveValue(stats.upperFence));
    forall i | Quarter(n) <= i < n
      ensures !BelowValue(stats.lowerFence)(s[i])
    {
      NotBelowQ1(s, i);
    }
    CountPrefix(s, BelowValue(stats.lowerFence), Quarter(n));
    var k := 3 * (n - 1) / 4 + 1;
    forall i | 0 <= i < k
      ensures !AboveValue(stats.upperFence)(s[i])
    {
      NotAboveQ3(s, i);
    }
    CountSuffix(s, AboveValue(stats.upperFence), k);
  }

  lemma {:induction false} OutsideSplits(ids: seq<string>, values: seq<real>, metric: Metric, stats: MetricStatistics,
                                         found: seq<Option<Anomaly>>)
    requires |ids| == |values| == |found|
    requires forall i :: 0 <= i < |ids| ==> found[i] == IqrVerdict(ids[i], values[i], metric, stats)
    ensures Flagged(found)
         <= CountIf(values, BelowValue(stats.lowerFence)) + CountIf(values, AboveValue(stats.upperFence))
  {
    if ids != [] {
      var n := |ids| - 1;
      OutsideSplits(ids[..n], values[..n], metric, stats, found[..n]);
    }
  }

  // Of n values the quartile method flags at most a quarter of the gaps, rounded
  // up, on either side, and never a value equal to the median.
  lemma IqrPassBounded(ids: seq<string>, values: seq<real>, metric: Metric, multiplier: real, sqrt: real -> real)
    requires |ids| == |values| && values != [] && multiplier >= 0.0
    ensures var stats := StatsOf(values, multiplier, sqrt);
            && CountIf(values, BelowValue(stats.lowerFence)) <= Quarter(|values|)
            && CountIf(values, AboveValue(stats.upperFence)) <= Quarter(|values|)
            && Flagged(IqrFound(ids, values, metric, stats)) <= 2 * Quarter(|values|)
            && forall id :: IqrVerdict(id, stats.median, metric, stats).None?
  {
    var stats := StatsOf(values, multiplier, sqrt);
    StatsAreIqrStats(values, multiplier, sqrt);
    IqrFlagsOf(ids, values, metric, stats, multiplier);
  }

  lemma MedianNotFlagged(metric: Metric, stats: MetricStatistics)
    requires stats.lowerFence <= stats.median <= stats.upperFence
    ensures forall id :: IqrVerdict(id, stats.median, metric, stats).None?
  {}

  lemma IqrFlagsOf(ids: seq<string>, values: seq<real>, metric: Metric, stats: MetricStatistics, multiplier: real)
    requires |ids| == |values| && values != [] && multiplier >= 0.0 && IqrStatsOf(stats, Sort(values), multiplier)
    ensures CountIf(values, BelowValue(stats.lowerFence)) <= Quarter(|values|)
    ensures CountIf(values, AboveValue(stats.upperFence)) <= Quarter(|values|)
    ensures Flagged(IqrFound(ids, values, metric, stats)) <= 2 * Quarter(|values|)
    ensures forall id :: IqrVerdict(id, stats.median, metric, stats).None?
  {
    FewOutside(values, Sort(values), stats, multiplier);
    OutsideSplits(ids, values, metric, stats, IqrFound(ids, values, metric, stats));
    assert stats.lowerFence <= stats.median <= stats.upperFence by {
      SortSorts(values);
      FencesOutside(stats, Sort(values), multiplier);
    }
    MedianNotFlagged(metric, stats);
  }
}
