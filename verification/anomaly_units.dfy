// The detector does not depend on the units of a metric.
module AnomalyUnits {
  import opened Reals
  import opened Statistics
  import opened Anomalies
  import opened AnomalyBookkeeping
  import opened Wrappers

  function Scale(c: real, x: real): real {
    c * x
  }

  // One positive factor per metric.
  datatype Units = Units(ops: real, avg: real, p99: real) {
    predicate Positive() { ops > 0.0 && avg > 0.0 && p99 > 0.0 }
    function Of(metric: Metric): real {
      match metric
      case Throughput => ops
      case AvgLatency => avg
      case P99Latency => p99
    }
  }

  function ConvertedRun(run: BenchmarkRun, u: Units): BenchmarkRun {
    match run.summary
    case None => run
    case Some(s) => run.(summary := Some(Sample(Scale(u.ops, s.ops), Scale(u.avg, s.avgLatency), Scale(u.p99, s.p99Latency))))
  }

  function Converted(runs: seq<BenchmarkRun>, u: Units): seq<BenchmarkRun> {
    seq(|runs|, i requires 0 <= i < |runs| => ConvertedRun(runs[i], u))
  }

  function Rescaled(a: Anomaly, c: real): Anomaly {
    a.(value := Scale(c, a.value), expected := Scale(c, a.expected))
  }

  function InUnits(u: Units): Anomaly -> Anomaly {
    (a: Anomaly) => Rescaled(a, u.Of(a.metric))
  }

  // ---- Quotients and sums ----

  lemma OverScaled(x: real, y: real, x': real, y': real, c: real)
    requires c > 0.0 && x' == Scale(c, x) && y' == Scale(c, y)
    ensures Over(x', y') == Over(x, y)
  {
    SameSign(x, x', c);
    SameSign(y, y', c);
    if y != 0.0 {
      SameRatio(x, y, x', y', c);
    }
  }

  lemma SameSign(x: real, x': real, c: real)
    requires c > 0.0 && x' == Scale(c, x)
    ensures (x' > 0.0 <==> x > 0.0) && (x' < 0.0 <==> x < 0.0) && (x' == 0.0 <==> x == 0.0)
  {}

  // The order of two values does not depend on the unit.
  lemma SameOrder(x: real, y: real, x': real, y': real, c: real)
    requires c > 0.0 && x' == Scale(c, x) && y' == Scale(c, y)
    ensures x' < y' <==> x < y
  {
    ScaleOrder(c, x, y);
  }

  lemma SameRatio(x: real, y: real, x': real, y': real, c: real)
    requires y != 0.0 && y' != 0.0 && x' == Scale(c, x) && y' == Scale(c, y)
    ensures x' / y' == x / y
  {
    var q := x / y;
    assert x == q * y;
    assert x' == q * y';
  }

  lemma MeanScaled(values: seq<real>, c: real)
    ensures Mean(Scaled(values, c)) == Scale(c, Mean(values))
  {
    SumScaled(values, c);
    if values != [] {
      DividedScaled(c, Sum(values), |values| as real);
    }
  }

  lemma SquaresScale(values: seq<real>, c: real)
    ensures SquaredDeviations(Scaled(values, c), Mean(Scaled(values, c)))
         == Scale(c * c, SquaredDeviations(values, Mean(values)))
  {
    MeanScaled(values, c);
    SquaredScaled(values, Mean(values), c, Mean(Scaled(values, c)));
  }

  lemma VarianceScaled(values: seq<real>, c: real)
    requires values != []
    ensures PopulationVariance(Scaled(values, c)) == Scale(c * c, PopulationVariance(values))
  {
    SquaresScale(values, c);
    DividedScaled(c * c, SquaredDeviations(values, Mean(values)), |values| as real);
  }

  lemma MedianScaled(s: seq<real>, c: real)
    requires s != []
    ensures MiddleMedian(Scaled(s, c)) == Scale(c, MiddleMedian(s))
  {
    var n := |s|;
    if n % 2 == 0 {
      Distribute(c, s[n / 2 - 1], s[n / 2]);
      DividedScaled(c, s[n / 2 - 1] + s[n / 2], 2.0);
    }
  }

  // ---- The statistics of a scaled metric ----

  function ScaledStats(s: MetricStatistics, c: real): MetricStatistics {
    MetricStatistics(Scale(c, s.mean), Scale(c, s.median), Scale(c, s.stdDev), Scale(c, s.min), Scale(c, s.max),
                     Scale(c, s.q1), Scale(c, s.q3), Scale(c, s.iqr), Scale(c, s.lowerFence), Scale(c, s.upperFence))
  }

  lemma FencesScaled(mean: real, median: real, stdDev: real, min: real, max: real, q1: real, q3: real,
                     multiplier: real, c: real)
    ensures WithFences(Scale(c, mean), Scale(c, median), Scale(c, stdDev), Scale(c, min), Scale(c, max),
                       Scale(c, q1), Scale(c, q3), multiplier)
         == ScaledStats(WithFences(mean, median, stdDev, min, max, q1, q3, multiplier), c)
  {
    Distribute(c, q3, -q1);
    var iqr, iqr' := q3 - q1, Scale(c, q3) - Scale(c, q1);
    assert iqr' == Scale(c, iqr);
    Fence(q1, multiplier, iqr, iqr', c);
    Fence(q3, multiplier, iqr, iqr', c);
  }

  lemma Fence(q: real, m: real, iqr: real, scaledIqr: real, c: real)
    requires scaledIqr == Scale(c, iqr)
    ensures Scale(c, q) - m * scaledIqr == Scale(c, q - m * iqr)
    ensures Scale(c, q) + m * scaledIqr == Scale(c, q + m * iqr)
  {
    assert m * scaledIqr == c * (m * iqr);
    Distribute(c, q, m * iqr);
    Distribute(c, q, -(m * iqr));
  }

  lemma RootScales(sqrt: real -> real, v: real, v': real, c: real)
    requires c > 0.0 && IsSqrt(sqrt) && v >= 0.0 && v' == Scale(c * c, v)
    ensures sqrt(v') == Scale(c, sqrt(v))
  {
    RootScaled(sqrt, v, c);
  }

  lemma DeviationScales(values: seq<real>, sqrt: real -> real, c: real)
    requires c > 0.0 && IsSqrt(sqrt) && values != []
    ensures sqrt(PopulationVariance(Scaled(values, c))) == Scale(c, sqrt(PopulationVariance(values)))
  {
    VarianceScaled(values, c);
    RootScales(sqrt, PopulationVariance(values), PopulationVariance(Scaled(values, c)), c);
  }

  lemma PercentileScales(s: seq<real>, p: real, c: real)
    requires p >= 0.0
    ensures Percentile(Scaled(s, c), p) == Scale(c, Percentile(s, p))
  {
    PercentileScaled(s, p, c);
  }

  lemma ElementScales(s: seq<real>, i: nat, c: real)
    requires i < |s|
    ensures Scaled(s, c)[i] == Scale(c, s[i])
  {}

  lemma OrderStatisticsScaled(s: seq<real>, s': seq<real>, c: real)
    requires s != [] && s' == Scaled(s, c)
    ensures s'[0] == Scale(c, s[0]) && s'[|s'| - 1] == Scale(c, s[|s| - 1])
    ensures MiddleMedian(s') == Scale(c, MiddleMedian(s))
    ensures Percentile(s', 25.0) == Scale(c, Percentile(s, 25.0))
    ensures Percentile(s', 75.0) == Scale(c, Percentile(s, 75.0))
  {
    ElementScales(s, 0, c);
    ElementScales(s, |s| - 1, c);
    MedianScaled(s, c);
    PercentileScales(s, 25.0, c);
    PercentileScales(s, 75.0, c);
  }

  lemma StatsScaled(values: seq<real>, multiplier: real, sqrt: real -> real, c: real)
    requires c > 0.0 && IsSqrt(sqrt)
    ensures StatsOf(Scaled(values, c), multiplier, sqrt) == ScaledStats(StatsOf(values, multiplier, sqrt), c)
  {
    if values != [] {
      var s := Sort(values);
      SortScaled(values, c);
      OrderStatisticsScaled(s, Sort(Scaled(values, c)), c);
      MeanScaled(values, c);
      DeviationScales(values, sqrt, c);
      FencesScaled(Mean(values), MiddleMedian(s), sqrt(PopulationVariance(values)), s[0], s[|s| - 1],
                   Percentile(s, 25.0), Percentile(s, 75.0), multiplier, c);
    }
  }

  // ---- The verdicts on a scaled value ----

  function RescaledVerdict(v: Option<Anomaly>, c: real): Option<Anomaly> {
    if v.None? then None else Some(Rescaled(v.value, c))
  }

  lemma DeviationScaled(x: real, y: real, x': real, y': real, c: real)
    requires c > 0.0 && x' == Scale(c, x) && y' == Scale(c, y)
    ensures Over(x' - y', y') == Over(x - y, y)
  {
    Distribute(c, x, -y);
    OverScaled(x - y, y, x' - y', y', c);
  }

  // s and s' describe one metric in two units.
  predicate InUnit(s: MetricStatistics, s': MetricStatistics, c: real) {
    s' == ScaledStats(s, c)
  }

  lemma ZScaled(id: string, v: real, v': real, metric: Metric, s: MetricStatistics, s': MetricStatistics, t: real,
                higher: bool, c: real)
    requires c > 0.0 && v' == Scale(c, v) && InUnit(s, s', c)
    ensures ZVerdict(id, v', metric, s', t, higher) == RescaledVerdict(ZVerdict(id, v, metric, s, t, higher), c)
  {
    SameSign(s.stdDev, s'.stdDev, c);
    DeviationScaled(v, s.mean, v', s'.mean, c);
    Distribute(c, v, -s.mean);
    OverScaled(v - s.mean, s.stdDev, v' - s'.mean, s'.stdDev, c);
  }

  lemma IqrScaled(id: string, v: real, v': real, metric: Metric, s: MetricStatistics, s': MetricStatistics, c: real)
    requires c > 0.0 && v' == Scale(c, v) && InUnit(s, s', c)
    ensures IqrVerdict(id, v', metric, s') == RescaledVerdict(IqrVerdict(id, v, metric, s), c)
  {
    SameOrder(v, s.lowerFence, v', s'.lowerFence, c);
    SameOrder(s.upperFence, v, s'.upperFence, v', c);
    Fence(s.q1, 3.0, s.iqr, s'.iqr, c);
    Fence(s.q3, 3.0, s.iqr, s'.iqr, c);
    SameOrder(v, s.q1 - 3.0 * s.iqr, v', s'.q1 - 3.0 * s'.iqr, c);
    SameOrder(s.q3 + 3.0 * s.iqr, v, s'.q3 + 3.0 * s'.iqr, v', c);
    DeviationScaled(v, s.mean, v', s'.mean, c);
  }

  lemma {:induction false} SumOverScaled(values: seq<real>, lo: nat, hi: nat, c: real)
    requires lo <= hi <= |values|
    ensures SumOver(Scaled(values, c), lo, hi) == Scale(c, SumOver(values, lo, hi))
  {
    if lo < hi {
      SumOverScaled(values, lo, hi - 1, c);
      ElementScales(values, hi - 1, c);
      Distribute(c, SumOver(values, lo, hi - 1), values[hi - 1]);
    }
  }

  lemma WindowScaled(values: seq<real>, i: nat, window: nat, c: real)
    requires 1 <= window <= i <= |values|
    ensures MovingMean(Scaled(values, c), i, window) == Scale(c, MovingMean(values, i, window))
  {
    SumOverScaled(values, i - window, i, c);
    DividedScaled(c, SumOver(values, i - window, i), window as real);
  }

  lemma DividedScaled(c: real, x: real, n: real)
    requires n != 0.0
    ensures Scale(c, x) / n == Scale(c, x / n)
  {}

  lemma MaScaled(id: string, values: seq<real>, values': seq<real>, i: nat, metric: Metric, window: nat, t: real,
                 higher: bool, c: real)
    requires i < |values| && window >= 1 && c > 0.0 && values' == Scaled(values, c)
    ensures MaVerdict(id, values', i, metric, window, t, higher)
         == RescaledVerdict(MaVerdict(id, values, i, metric, window, t, higher), c)
  {
    if i >= window {
      WindowScaled(values, i, window, c);
      DeviationScaled(values[i], MovingMean(values, i, window), values'[i], MovingMean(values', i, window), c);
    }
  }

  // ---- Passes ----

  function RescaledAll(found: seq<Option<Anomaly>>, c: real): (r: seq<Option<Anomaly>>)
    ensures |r| == |found|
  {
    seq(|found|, i requires 0 <= i < |found| => RescaledVerdict(found[i], c))
  }

  lemma ZFoundScaled(ids: seq<string>, values: seq<real>, values': seq<real>, metric: Metric, s: MetricStatistics,
                     s': MetricStatistics, t: real, higher: bool, c: real)
    requires |ids| == |values| && c > 0.0 && values' == Scaled(values, c) && InUnit(s, s', c)
    ensures ZFound(ids, values', metric, s', t, higher) == RescaledAll(ZFound(ids, values, metric, s, t, higher), c)
  {
    forall i | 0 <= i < |ids|
      ensures ZVerdict(ids[i], values'[i], metric, s', t, higher)
           == RescaledVerdict(ZVerdict(ids[i], values[i], metric, s, t, higher), c)
    {
      ZScaled(ids[i], values[i], values'[i], metric, s, s', t, higher, c);
    }
  }

  lemma IqrFoundScaled(ids: seq<string>, values: seq<real>, values': seq<real>, metric: Metric, s: MetricStatistics,
                       s': MetricStatistics, c: real)
    requires |ids| == |values| && c > 0.0 && values' == Scaled(values, c) && InUnit(s, s', c)
    ensures IqrFound(ids, values', metric, s') == RescaledAll(IqrFound(ids, values, metric, s), c)
  {
    forall i | 0 <= i < |ids|
      ensures IqrVerdict(ids[i], values'[i], metric, s') == RescaledVerdict(IqrVerdict(ids[i], values[i], metric, s), c)
    {
      IqrScaled(ids[i], values[i], values'[i], metric, s, s', c);
    }
  }

  lemma MaFoundScaled(ids: seq<string>, values: seq<real>, values': seq<real>, metric: Metric, window: nat, t: real,
                      higher: bool, c: real)
    requires |ids| == |values| && window >= 1 && c > 0.0 && values' == Scaled(values, c)
    ensures MaFound(ids, values', metric, window, t, higher)
         == RescaledAll(MaFound(ids, values, metric, window, t, higher), c)
  {
    forall i | 0 <= i < |ids|
      ensures MaVerdict(ids[i], values', i, metric, window, t, higher)
           == RescaledVerdict(MaVerdict(ids[i], values, i, metric, window, t, higher), c)
    {
      MaScaled(ids[i], values, values', i, metric, window, t, higher, c);
    }
  }

  function StateInUnits(st: PassState, u: Units): PassState {
    st.(anomalies := Map(st.anomalies, InUnits(u)))
  }

  predicate About(found: seq<Option<Anomaly>>, metric: Metric) {
    forall i :: 0 <= i < |found| && found[i].Some? ==> found[i].value.metric == metric
  }

  lemma {:induction false} PassInUnits(st: PassState, ids: seq<string>, metric: Metric, found: seq<Option<Anomaly>>,
                                       u: Units, n: nat)
    requires |found| == |ids| && About(found, metric) && n <= |ids|
    ensures PassTo(StateInUnits(st, u), ids, metric, RescaledAll(found, u.Of(metric)), n)
         == StateInUnits(PassTo(st, ids, metric, found, n), u)
  {
    if n > 0 {
      PassInUnits(st, ids, metric, found, u, n - 1);
      ReportInUnits(PassTo(st, ids, metric, found, n - 1), Key(ids[n - 1], metric), metric, found[n - 1], u);
    }
  }

  lemma ReportInUnits(st: PassState, key: string, metric: Metric, verdict: Option<Anomaly>, u: Units)
    requires verdict.Some? ==> verdict.value.metric == metric
    ensures Report(StateInUnits(st, u), key, RescaledVerdict(verdict, u.Of(metric)))
         == StateInUnits(Report(st, key, verdict), u)
  {
    if verdict.Some? {
      MapSnoc(st.anomalies, verdict.value, InUnits(u));
    }
  }

  // ---- The whole run ----

  predicate ColumnsInUnits(c: Columns, c': Columns, u: Units) {
    && c.Even() && c'.ids == c.ids && c'.ops == Scaled(c.ops, u.ops)
    && c'.avg == Scaled(c.avg, u.avg) && c'.p99 == Scaled(c.p99, u.p99)
  }

  lemma ColumnSnoc(xs: seq<real>, xs': seq<real>, x: real, x': real, k: real)
    requires xs' == Scaled(xs, k) && x' == Scale(k, x)
    ensures xs' + [x'] == Scaled(xs + [x], k)
  {
    MapSnoc(xs, x, Times(k));
    ElementScales(xs + [x], |xs|, k);
  }

  lemma RowConverted(c: Columns, c': Columns, id: string, s: Sample, s': Sample, u: Units)
    requires ColumnsInUnits(c, c', u) && s'.ops == Scale(u.ops, s.ops)
    requires s'.avgLatency == Scale(u.avg, s.avgLatency) && s'.p99Latency == Scale(u.p99, s.p99Latency)
    ensures ColumnsInUnits(WithRow(c, id, s), WithRow(c', id, s'), u)
  {
    ColumnSnoc(c.ops, c'.ops, s.ops, s'.ops, u.ops);
    ColumnSnoc(c.avg, c'.avg, s.avgLatency, s'.avgLatency, u.avg);
    ColumnSnoc(c.p99, c'.p99, s.p99Latency, s'.p99Latency, u.p99);
  }

  lemma {:induction false} ColumnsConverted(runs: seq<BenchmarkRun>, u: Units)
    ensures ColumnsInUnits(ColumnsOf(runs), ColumnsOf(Converted(runs, u)), u)
  {
    if runs != [] {
      var n := |runs| - 1;
      ColumnsConverted(runs[..n], u);
      assert Converted(runs, u)[..n] == Converted(runs[..n], u);
      if runs[n].summary.Some? {
        var run' := ConvertedRun(runs[n], u);
        RowConverted(ColumnsOf(runs[..n]), ColumnsOf(Converted(runs[..n], u)), runs[n].id,
                     runs[n].summary.value, run'.summary.value, u);
      }
    }
  }

  function FindingsInUnits(f: Findings, u: Units): Findings {
    Findings(RescaledAll(f.ops, u.ops), RescaledAll(f.avg, u.avg), RescaledAll(f.p99, u.p99))
  }

  predicate DescriptionInUnits(d: Description, d': Description, u: Units) {
    InUnit(d.ops, d'.ops, u.ops) && InUnit(d.avg, d'.avg, u.avg) && InUnit(d.p99, d'.p99, u.p99)
  }

  lemma DescribedInUnits(c: Columns, c': Columns, cfg: Config, sqrt: real -> real, u: Units)
    requires ColumnsInUnits(c, c', u) && u.Positive() && IsSqrt(sqrt)
    ensures DescriptionInUnits(Describe(c, cfg, sqrt), Describe(c', cfg, sqrt), u)
  {
    StatsScaled(c.ops, cfg.iqrMultiplier, sqrt, u.ops);
    StatsScaled(c.avg, cfg.iqrMultiplier, sqrt, u.avg);
    StatsScaled(c.p99, cfg.iqrMultiplier, sqrt, u.p99);
  }

  lemma ZInUnits(c: Columns, c': Columns, d: Description, d': Description, t: real, u: Units)
    requires ColumnsInUnits(c, c', u) && DescriptionInUnits(d, d', u) && u.Positive()
    ensures c'.Even() && ZFindings(c', d', t) == FindingsInUnits(ZFindings(c, d, t), u)
  {
    ZFoundScaled(c.ids, c.ops, c'.ops, Throughput, d.ops, d'.ops, t, true, u.ops);
    ZFoundScaled(c.ids, c.avg, c'.avg, AvgLatency, d.avg, d'.avg, t, false, u.avg);
    ZFoundScaled(c.ids, c.p99, c'.p99, P99Latency, d.p99, d'.p99, t, false, u.p99);
  }

  lemma IqrInUnits(c: Columns, c': Columns, d: Description, d': Description, u: Units)
    requires ColumnsInUnits(c, c', u) && DescriptionInUnits(d, d', u) && u.Positive()
    ensures c'.Even() && IqrFindings(c', d') == FindingsInUnits(IqrFindings(c, d), u)
  {
    IqrFoundScaled(c.ids, c.ops, c'.ops, Throughput, d.ops, d'.ops, u.ops);
    IqrFoundScaled(c.ids, c.avg, c'.avg, AvgLatency, d.avg, d'.avg, u.avg);
    IqrFoundScaled(c.ids, c.p99, c'.p99, P99Latency, d.p99, d'.p99, u.p99);
  }

  lemma MaInUnits(c: Columns, c': Columns, cfg: Config, u: Units)
    requires ColumnsInUnits(c, c', u) && u.Positive() && cfg.window >= 1
    ensures c'.Even() && MaFindings(c', cfg) == FindingsInUnits(MaFindings(c, cfg), u)
  {
    MaFoundScaled(c.ids, c.ops, c'.ops, Throughput, cfg.window, cfg.deviation, true, u.ops);
    MaFoundScaled(c.ids, c.avg, c'.avg, AvgLatency, cfg.window, cfg.deviation, false, u.avg);
    MaFoundScaled(c.ids, c.p99, c'.p99, P99Latency, cfg.window, cfg.deviation, false, u.p99);
  }

  lemma SweepInUnits(st: PassState, ids: seq<string>, f: Findings, u: Units)
    requires f.Sized(|ids|) && AllLabelled(ids, f)
    ensures Sweep(StateInUnits(st, u), ids, FindingsInUnits(f, u)) == StateInUnits(Sweep(st, ids, f), u)
  {
    assert Labelled(ids, Throughput, f.Of(Throughput)) && Labelled(ids, AvgLatency, f.Of(AvgLatency));
    assert Labelled(ids, P99Latency, f.Of(P99Latency));
    var st1 := Pass(st, ids, Throughput, f.ops);
    PassInUnits(st, ids, Throughput, f.ops, u, |ids|);
    PassInUnits(st1, ids, AvgLatency, f.avg, u, |ids|);
    PassInUnits(Pass(st1, ids, AvgLatency, f.avg), ids, P99Latency, f.p99, u, |ids|);
  }

  lemma PassesInUnits(c: Columns, c': Columns, d: Description, d': Description, runs: nat, cfg: Config, u: Units)
    requires ColumnsInUnits(c, c', u) && DescriptionInUnits(d, d', u) && u.Positive() && cfg.window >= 1
    ensures c'.Even() && AfterPasses(START, c', d', runs, cfg) == StateInUnits(AfterPasses(START, c, d, runs, cfg), u)
  {
    ZInUnits(c, c', d, d', cfg.zThreshold, u);
    IqrInUnits(c, c', d, d', u);
    MaInUnits(c, c', cfg, u);
    ZFindingsLabelled(c, d, cfg.zThreshold);
    IqrFindingsLabelled(c, d);
    MaFindingsLabelled(c, cfg);
    SweepsInUnits(c.ids, ZFindings(c, d, cfg.zThreshold), IqrFindings(c, d), MaFindings(c, cfg), u);
  }

  // Whatever units the metrics are in, the same runs are reported for the same
  // metrics by the same methods with the same severities and deviations, in the
  // same order; only the values themselves are converted.
  lemma UnitIndependence(runs: seq<BenchmarkRun>, cfg: Config, sqrt: real -> real, u: Units)
    requires u.Positive() && IsSqrt(sqrt) && cfg.window >= 1
    ensures Detected(Converted(runs, u), cfg, sqrt) == StateInUnits(Detected(runs, cfg, sqrt), u)
  {
    if |runs| < cfg.minPoints {
      assert StateInUnits(START, u) == START;
    } else {
      var c, c' := ColumnsOf(runs), ColumnsOf(Converted(runs, u));
      ColumnsConverted(runs, u);
      DescribedInUnits(c, c', cfg, sqrt, u);
      PassesInUnits(c, c', Describe(c, cfg, sqrt), Describe(c', cfg, sqrt), |runs|, cfg, u);
    }
  }

  lemma SweepsInUnits(ids: seq<string>, z: Findings, q: Findings, m: Findings, u: Units)
    requires z.Sized(|ids|) && q.Sized(|ids|) && m.Sized(|ids|)
    requires AllLabelled(ids, z) && AllLabelled(ids, q) && AllLabelled(ids, m)
    ensures StateInUnits(START, u) == START
    ensures var st, st' := Sweep(Sweep(START, ids, z), ids, q),
                           Sweep(Sweep(START, ids, FindingsInUnits(z, u)), ids, FindingsInUnits(q, u));
            && st' == StateInUnits(st, u)
            && Sweep(st', ids, FindingsInUnits(m, u)) == StateInUnits(Sweep(st, ids, m), u)
  {
    assert StateInUnits(START, u) == START;
    SweepInUnits(START, ids, z, u);
    var st1 := Sweep(START, ids, z);
    SweepInUnits(st1, ids, q, u);
    SweepInUnits(Sweep(st1, ids, q), ids, m, u);
  }
}
