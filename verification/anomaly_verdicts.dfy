// What the detector's verdicts and reports say, in terms of the runs alone.
module AnomalyVerdicts {
  import opened Reals
  import opened Statistics
  import opened Anomalies
  import AnomalyBounds
  import AnomalyBookkeeping
  import opened Wrappers

  // ---- The configuration ----

  // Without settings the detector has its defaults, and it keeps every setting that is
  // not zero.
  lemma Defaults(c: Config)
    ensures NewDetector(Config(0.0, 0.0, 0, 0.0, 0)) == Config(3.0, 1.5, 5, 20.0, 3)
    ensures c.zThreshold != 0.0 && c.iqrMultiplier != 0.0 && c.window != 0 && c.deviation != 0.0 && c.minPoints != 0 ==>
              NewDetector(c) == c
  {}

  // ---- The statistics of one metric ----

  ghost predicate Extreme(min: real, max: real, values: seq<real>) {
    && min in values && max in values
    && forall i :: 0 <= i < |values| ==> min <= values[i] <= max
  }

  // Half of the values are on either side, and in the middle of an even number is the
  // mean of two.
  predicate IsMedian(m: real, s: seq<real>)
    requires s != []
  {
    var n := |s|;
    if n % 2 == 1 then m == s[(n - 1) / 2] else 2.0 * m == s[n / 2 - 1] + s[n / 2]
  }

  ghost predicate MeasuresMetric(st: MetricStatistics, values: seq<real>) {
    && st.mean * |values| as real == Sum(values)
    && st.stdDev >= 0.0 && st.stdDev * st.stdDev * |values| as real == SquaredDeviations(values, st.mean)
  }

  ghost predicate OrdersMetric(st: MetricStatistics, values: seq<real>)
    requires values != []
  {
    && Extreme(st.min, st.max, values)
    && IsMedian(st.median, Sort(values))
    && IsPercentile(st.q1, Sort(values), 25.0) && IsPercentile(st.q3, Sort(values), 75.0)
  }

  predicate HasFences(st: MetricStatistics, multiplier: real) {
    && st.iqr == st.q3 - st.q1
    && st.lowerFence == st.q1 - multiplier * st.iqr && st.upperFence == st.q3 + multiplier * st.iqr
  }

  lemma StatsDescribe(values: seq<real>, multiplier: real, sqrt: real -> real)
    requires values != [] && IsSqrt(sqrt)
    ensures MeasuresMetric(StatsOf(values, multiplier, sqrt), values)
    ensures OrdersMetric(StatsOf(values, multiplier, sqrt), values)
    ensures HasFences(StatsOf(values, multiplier, sqrt), multiplier)
  {
    AnomalyBounds.StatsMoments(values, multiplier, sqrt);
    StatsMeasure(StatsOf(values, multiplier, sqrt), values);
    StatsOrder(values, multiplier, sqrt);
    StatsFences(values, multiplier, sqrt);
  }

  lemma StatsMeasure(st: MetricStatistics, values: seq<real>)
    requires values != [] && st.mean == Mean(values) && IsRootOf(st.stdDev, PopulationVariance(values))
    ensures MeasuresMetric(st, values)
  {
    QuotientTimes(Sum(values), |values| as real);
    QuotientTimes(SquaredDeviations(values, Mean(values)), |values| as real);
  }

  lemma StatsOrder(values: seq<real>, multiplier: real, sqrt: real -> real)
    requires values != []
    ensures OrdersMetric(StatsOf(values, multiplier, sqrt), values)
  {
    var st, s := StatsOf(values, multiplier, sqrt), Sort(values);
    SortSorts(values);
    ExtremesOfSorted(values, s);
    MedianIs(s);
    PercentileMeans(s, 25.0);
    PercentileMeans(s, 75.0);
    PositionsOf(values, multiplier, sqrt);
  }

  lemma PositionsOf(values: seq<real>, multiplier: real, sqrt: real -> real)
    requires values != []
    ensures var st, s := StatsOf(values, multiplier, sqrt), Sort(values);
            && st.min == s[0] && st.max == s[|s| - 1] && st.median == MiddleMedian(s)
            && st.q1 == Percentile(s, 25.0) && st.q3 == Percentile(s, 75.0)
  {}

  lemma MedianIs(s: seq<real>)
    requires s != []
    ensures IsMedian(MiddleMedian(s), s)
  {}

  lemma StatsFences(values: seq<real>, multiplier: real, sqrt: real -> real)
    requires values != []
    ensures HasFences(StatsOf(values, multiplier, sqrt), multiplier)
  {
    var st := StatsOf(values, multiplier, sqrt);
    AnomalyBounds.StatsAreIqrStats(values, multiplier, sqrt);
    FencesAre(st, st.mean, st.median, st.stdDev, st.min, st.max, st.q1, st.q3, multiplier);
  }

  lemma FencesAre(st: MetricStatistics, mean: real, median: real, stdDev: real, min: real, max: real, q1: real,
                  q3: real, multiplier: real)
    requires st == WithFences(mean, median, stdDev, min, max, q1, q3, multiplier)
    ensures HasFences(st, multiplier)
  {
    ReachIs(multiplier, q3 - q1);
  }

  lemma ReachIs(multiplier: real, iqr: real)
    ensures Reach(multiplier, iqr) == multiplier * iqr
  {}

  // ---- The verdicts ----

  // 100 (v - m) / m as float64 computes it.
  predicate IsDeviation(q: Quotient, v: real, m: real) {
    if m != 0.0 then q.Finite? && q.v * m == 100.0 * (v - m)
    else if v > 0.0 then q == PosInf
    else if v < 0.0 then q == NegInf
    else q == NaN
  }

  predicate Says(a: Anomaly, id: string, metric: Metric, v: real, expected: real, mean: real, how: Method) {
    && a.runId == id && a.metric == metric && a.value == v && a.expected == expected && a.how == how
    && IsDeviation(a.deviation, v, mean)
  }

  lemma DeviationIs(v: real, m: real)
    ensures IsDeviation(Percent(Over(v - m, m)), v, m)
  {
    if m != 0.0 {
      QuotientTimes(v - m, m);
      TimesHundred((v - m) / m, m, v - m);
    }
  }

  lemma TimesHundred(q: real, m: real, d: real)
    requires q * m == d
    ensures (q * 100.0) * m == 100.0 * d
  {}

  // The z-score method: more than t standard deviations on the bad side of the mean.
  lemma ZScoreMeans(id: string, v: real, metric: Metric, st: MetricStatistics, t: real, higher: bool)
    requires st.stdDev >= 0.0
    ensures var verdict := ZVerdict(id, v, metric, st, t, higher);
            var distance := if higher then st.mean - v else v - st.mean;
            && (verdict.Some? <==> st.stdDev > 0.0 && distance > t * st.stdDev)
            && (verdict.Some? ==> Says(verdict.value, id, metric, v, st.mean, st.mean, ZScore))
            && (verdict.Some? ==> (verdict.value.severity == Critical <==> distance > (t * 1.5) * st.stdDev))
  {
    DeviationIs(v, st.mean);
    if st.stdDev > 0.0 {
      AnomalyBounds.FlaggedIsFar(id, v, metric, st, t, higher);
      assert AnomalyBounds.Distance(st.mean, AnomalyBounds.Side(higher))(v)
          == if higher then st.mean - v else v - st.mean;
    }
  }

  // The quartile method: beyond either fence.
  lemma QuartilesMean(id: string, v: real, metric: Metric, st: MetricStatistics)
    ensures var verdict := IqrVerdict(id, v, metric, st);
            && (verdict.Some? <==> v < st.lowerFence || v > st.upperFence)
            && (verdict.Some? ==> Says(verdict.value, id, metric, v, st.median, st.mean, Iqr))
            && (verdict.Some? ==> (verdict.value.severity == Critical
                                   <==> v < st.q1 - 3.0 * st.iqr || v > st.q3 + 3.0 * st.iqr))
  {
    DeviationIs(v, st.mean);
  }

  // ---- The moving average ----

  lemma {:induction false} SumOverIs(values: seq<real>, lo: nat, hi: nat)
    requires lo <= hi <= |values|
    ensures SumOver(values, lo, hi) == Sum(values[lo..hi])
    decreases hi
  {
    if lo == hi {
      assert values[lo..hi] == [];
    } else {
      SumOverIs(values, lo, hi - 1);
      assert values[lo..hi] == values[lo..hi - 1] + [values[hi - 1]];
      SumSnoc(values[lo..hi - 1], values[hi - 1]);
    }
  }

  // d lies beyond r on the bad side, where a negative m turns both.
  predicate Past(d: real, r: real, m: real, higher: bool) {
    if m > 0.0 then (if higher then d < -r else d > r) else (if higher then d > -r else d < r)
  }

  // v lies more than t percent of m on the bad side of m, counted by the sign of m.
  // An infinite deviation from 0 is beyond every threshold.
  predicate Beyond(v: real, m: real, t: real, higher: bool) {
    if m != 0.0 then Past(100.0 * (v - m), t * m, m, higher)
    else if higher then v < 0.0 else v > 0.0
  }

  lemma JudgeMeans(q: Quotient, v: real, m: real, t: real, critical: real, higher: bool)
    requires IsDeviation(q, v, m)
    ensures Judge(q, t, critical, higher).Some? <==> Beyond(v, m, t, higher)
    ensures Judge(q, t, critical, higher) == Some(Critical) <==> Beyond(v, m, t, higher) && Beyond(v, m, critical, higher)
  {
    if m != 0.0 {
      BeyondBy(q.v, v, m, t, higher);
      BeyondBy(q.v, v, m, critical, higher);
    }
  }

  lemma BeyondBy(q: real, v: real, m: real, t: real, higher: bool)
    requires m != 0.0 && q * m == 100.0 * (v - m)
    ensures Beyond(v, m, t, higher) <==> if higher then q < -t else q > t
  {
    PastBy(q, t, m, 100.0 * (v - m), t * m, -t, higher);
  }

  lemma PastBy(q: real, t: real, m: real, d: real, r: real, low: real, higher: bool)
    requires m != 0.0 && q * m == d && t * m == r && low == -t
    ensures Past(d, r, m, higher) <==> if higher then q < low else q > t
  {
    Opposite(low, t, m);
    if m > 0.0 {
      TimesPositive(q, low, m);
      TimesPositive(t, q, m);
    } else {
      TimesNegative(q, low, m);
      TimesNegative(t, q, m);
    }
  }

  lemma TimesNegative(x: real, y: real, m: real)
    requires m < 0.0
    ensures x < y <==> x * m > y * m
  {
    var size := -m;
    TimesPositive(x, y, size);
    Opposite(size, m, x);
    Opposite(size, m, y);
  }

  lemma Opposite(x: real, y: real, m: real)
    requires x == -y
    ensures m * x == -(m * y) && x * m == -(y * m)
  {
    Distribute(m, x, y);
    assert x + y == 0.0;
  }

  lemma TimesPositive(x: real, y: real, m: real)
    requires m > 0.0
    ensures x < y <==> x * m < y * m
  {
    ScaleOrder(m, x, y);
  }

  // The moving-average method: against the mean of the window values before row i.
  lemma MovingAverageMeans(id: string, values: seq<real>, i: nat, metric: Metric, window: nat, t: real, higher: bool)
    requires 1 <= window <= i < |values|
    ensures var m := Sum(values[i - window..i]) / window as real;
            var verdict := MaVerdict(id, values, i, metric, window, t, higher);
            && (verdict.Some? <==> Beyond(values[i], m, t, higher))
            && (verdict.Some? ==> Says(verdict.value, id, metric, values[i], m, m, MovingAverage))
            && (verdict.Some? ==> (verdict.value.severity == Critical <==> Beyond(values[i], m, 2.0 * t, higher)))
  {
    SumOverIs(values, i - window, i);
    var m := Sum(values[i - window..i]) / window as real;
    var q := Percent(Over(values[i] - m, m));
    DeviationIs(values[i], m);
    JudgeMeans(q, values[i], m, t, t * 2.0, higher);
  }

  // Without a whole window of rows before it a row gets no such verdict.
  lemma WindowFull(id: string, values: seq<real>, i: nat, metric: Metric, window: nat, t: real, higher: bool)
    requires i < |values| && window >= 1 && MaVerdict(id, values, i, metric, window, t, higher).Some?
    ensures i >= window
  {}

  // ---- What stands behind a reported anomaly ----

  // The reading of a run that a metric is about.
  function Reading(s: Sample, metric: Metric): real {
    match metric
    case Throughput => s.ops
    case AvgLatency => s.avgLatency
    case P99Latency => s.p99Latency
  }

  function Column(c: Columns, metric: Metric): seq<real> {
    match metric
    case Throughput => c.ops
    case AvgLatency => c.avg
    case P99Latency => c.p99
  }

  // For throughput the bad side is below, for latencies above.
  predicate HigherIsBetter(metric: Metric) {
    metric.Throughput?
  }

  predicate ByDistance(a: Anomaly, st: MetricStatistics, t: real) {
    var distance := if HigherIsBetter(a.metric) then st.mean - a.value else a.value - st.mean;
    && st.stdDev > 0.0 && distance > t * st.stdDev && a.expected == st.mean
    && (a.severity == Critical <==> distance > (t * 1.5) * st.stdDev)
  }

  predicate ByFences(a: Anomaly, st: MetricStatistics) {
    && (a.value < st.lowerFence || a.value > st.upperFence) && a.expected == st.median
    && (a.severity == Critical <==> a.value < st.q1 - 3.0 * st.iqr || a.value > st.q3 + 3.0 * st.iqr)
  }

  predicate ByAverage(a: Anomaly, before: seq<real>, t: real)
    requires before != []
  {
    && a.expected == Sum(before) / |before| as real
    && Beyond(a.value, a.expected, t, HigherIsBetter(a.metric))
    && (a.severity == Critical <==> Beyond(a.value, a.expected, 2.0 * t, HigherIsBetter(a.metric)))
  }

  // The values of one metric and row i of them justify the anomaly.
  ghost predicate Justifies(values: seq<real>, st: MetricStatistics, i: nat, cfg: Config, a: Anomaly) {
    && i < |values| && a.value == values[i]
    && match a.how
       case ZScore => ByDistance(a, st, cfg.zThreshold) && IsDeviation(a.deviation, a.value, st.mean)
       case Iqr => ByFences(a, st) && IsDeviation(a.deviation, a.value, st.mean)
       case MovingAverage =>
         && 1 <= cfg.window <= i && ByAverage(a, values[i - cfg.window..i], cfg.deviation)
         && IsDeviation(a.deviation, a.value, a.expected)
  }

  lemma {:induction false} PassReports(st: PassState, ids: seq<string>, metric: Metric, found: seq<Option<Anomaly>>,
                                       n: nat, a: Anomaly) returns (i: nat)
    requires |found| == |ids| && n <= |ids| && a in PassTo(st, ids, metric, found, n).anomalies && a !in st.anomalies
    ensures i < n && found[i] == Some(a)
  {
    if a in PassTo(st, ids, metric, found, n - 1).anomalies {
      i := PassReports(st, ids, metric, found, n - 1, a);
    } else {
      i := n - 1;
    }
  }

  lemma SweepReports(st: PassState, ids: seq<string>, f: Findings, a: Anomaly) returns (metric: Metric, i: nat)
    requires f.Sized(|ids|) && a in Sweep(st, ids, f).anomalies && a !in st.anomalies
    ensures i < |ids| && f.Of(metric)[i] == Some(a)
  {
    var st1 := Pass(st, ids, Throughput, f.ops);
    var st2 := Pass(st1, ids, AvgLatency, f.avg);
    if a in st1.anomalies {
      metric := Throughput;
      i := PassReports(st, ids, metric, f.ops, |ids|, a);
    } else if a in st2.anomalies {
      metric := AvgLatency;
      i := PassReports(st1, ids, metric, f.avg, |ids|, a);
    } else {
      metric := P99Latency;
      i := PassReports(st2, ids, metric, f.p99, |ids|, a);
    }
  }

  function StatsFor(d: Description, metric: Metric): MetricStatistics {
    match metric
    case Throughput => d.ops
    case AvgLatency => d.avg
    case P99Latency => d.p99
  }

  lemma ColumnSize(c: Columns, metric: Metric)
    requires c.Even()
    ensures |Column(c, metric)| == |c.ids|
  {}

  // What one sweep found is about row i, and justified by it.
  ghost predicate Grounded(c: Columns, d: Description, cfg: Config, a: Anomaly, i: nat) {
    && i < |c.ids| && a.runId == c.ids[i]
    && Justifies(Column(c, a.metric), StatsFor(d, a.metric), i, cfg, a)
  }

  lemma ZFindingGrounded(c: Columns, d: Description, cfg: Config, metric: Metric, i: nat, a: Anomaly)
    requires c.Even() && i < |c.ids| && ZFindings(c, d, cfg.zThreshold).Of(metric)[i] == Some(a)
    requires StatsFor(d, metric).stdDev >= 0.0
    ensures Grounded(c, d, cfg, a, i)
  {
    var values, st := Column(c, metric), StatsFor(d, metric);
    ColumnSize(c, metric);
    assert Some(a) == ZVerdict(c.ids[i], values[i], metric, st, cfg.zThreshold, HigherIsBetter(metric));
    ZScoreMeans(c.ids[i], values[i], metric, st, cfg.zThreshold, HigherIsBetter(metric));
  }

  lemma IqrFindingGrounded(c: Columns, d: Description, cfg: Config, metric: Metric, i: nat, a: Anomaly)
    requires c.Even() && i < |c.ids| && IqrFindings(c, d).Of(metric)[i] == Some(a)
    ensures Grounded(c, d, cfg, a, i)
  {
    var values, st := Column(c, metric), StatsFor(d, metric);
    ColumnSize(c, metric);
    assert Some(a) == IqrVerdict(c.ids[i], values[i], metric, st);
    QuartilesMean(c.ids[i], values[i], metric, st);
  }

  lemma AverageJustifies(id: string, values: seq<real>, st: MetricStatistics, i: nat, metric: Metric, cfg: Config,
                         a: Anomaly)
    requires i < |values| && cfg.window >= 1
    requires MaVerdict(id, values, i, metric, cfg.window, cfg.deviation, HigherIsBetter(metric)) == Some(a)
    ensures a.runId == id && a.metric == metric && Justifies(values, st, i, cfg, a)
  {
    WindowFull(id, values, i, metric, cfg.window, cfg.deviation, HigherIsBetter(metric));
    MovingAverageMeans(id, values, i, metric, cfg.window, cfg.deviation, HigherIsBetter(metric));
  }

  lemma MaFindingGrounded(c: Columns, d: Description, cfg: Config, metric: Metric, i: nat, a: Anomaly)
    requires c.Even() && cfg.window >= 1 && i < |c.ids| && MaFindings(c, cfg).Of(metric)[i] == Some(a)
    ensures Grounded(c, d, cfg, a, i)
  {
    ColumnSize(c, metric);
    AverageJustifies(c.ids[i], Column(c, metric), StatsFor(d, metric), i, metric, cfg, a);
  }

  lemma PassesGrounded(c: Columns, d: Description, runs: nat, cfg: Config, a: Anomaly) returns (i: nat)
    requires c.Even() && cfg.window >= 1 && forall metric: Metric :: StatsFor(d, metric).stdDev >= 0.0
    requires a in AfterPasses(START, c, d, runs, cfg).anomalies
    ensures Grounded(c, d, cfg, a, i)
  {
    var z, q := ZFindings(c, d, cfg.zThreshold), IqrFindings(c, d);
    var st1 := Sweep(START, c.ids, z);
    var st2 := Sweep(st1, c.ids, q);
    var metric;
    if a in st1.anomalies {
      metric, i := SweepReports(START, c.ids, z, a);
      ZFindingGrounded(c, d, cfg, metric, i, a);
    } else if a in st2.anomalies {
      metric, i := SweepReports(st1, c.ids, q, a);
      IqrFindingGrounded(c, d, cfg, metric, i, a);
    } else {
      metric, i := SweepReports(st2, c.ids, MaFindings(c, cfg), a);
      MaFindingGrounded(c, d, cfg, metric, i, a);
    }
  }

  lemma {:induction false} RowIsRun(runs: seq<BenchmarkRun>, i: nat) returns (k: nat)
    requires i < |ColumnsOf(runs).ids|
    ensures k < |runs| && runs[k].summary.Some? && runs[k].id == ColumnsOf(runs).ids[i]
    ensures forall metric: Metric ::
              |Column(ColumnsOf(runs), metric)| == |ColumnsOf(runs).ids|
              && Column(ColumnsOf(runs), metric)[i] == Reading(runs[k].summary.value, metric)
  {
    var n := |runs| - 1;
    var before := ColumnsOf(runs[..n]);
    if i < |before.ids| {
      k := RowIsRun(runs[..n], i);
      forall metric: Metric
        ensures |Column(before, metric)| == |before.ids|
        ensures Column(ColumnsOf(runs), metric)[..|before.ids|] == Column(before, metric)
      {
        ColumnSize(before, metric);
      }
    } else {
      k := n;
      forall metric: Metric {
        ColumnSize(before, metric);
      }
    }
  }

  lemma StatsForColumn(c: Columns, cfg: Config, sqrt: real -> real, metric: Metric)
    requires IsSqrt(sqrt)
    ensures StatsFor(Describe(c, cfg, sqrt), metric) == StatsOf(Column(c, metric), cfg.iqrMultiplier, sqrt)
    ensures StatsFor(Describe(c, cfg, sqrt), metric).stdDev >= 0.0
  {
    if Column(c, metric) != [] {
      AnomalyBounds.StatsMoments(Column(c, metric), cfg.iqrMultiplier, sqrt);
    }
  }

  ghost predicate Describes(st: MetricStatistics, values: seq<real>, multiplier: real) {
    values != [] && MeasuresMetric(st, values) && OrdersMetric(st, values) && HasFences(st, multiplier)
  }

  // Every reported anomaly is about a run k of the batch and its reading, in row i of
  // the runs with a summary, and the readings of that metric justify it.
  lemma EveryAnomalyJustified(runs: seq<BenchmarkRun>, cfg: Config, sqrt: real -> real, a: Anomaly)
    returns (k: nat, i: nat, st: MetricStatistics)
    requires cfg.window >= 1 && IsSqrt(sqrt) && a in Detected(runs, cfg, sqrt).anomalies
    ensures |runs| >= cfg.minPoints && k < |runs|
    ensures runs[k].summary.Some? && runs[k].id == a.runId && Reading(runs[k].summary.value, a.metric) == a.value
    ensures Describes(st, Column(ColumnsOf(runs), a.metric), cfg.iqrMultiplier)
    ensures Justifies(Column(ColumnsOf(runs), a.metric), st, i, cfg, a)
  {
    var c := ColumnsOf(runs);
    var d := Describe(c, cfg, sqrt);
    forall metric: Metric
      ensures StatsFor(d, metric).stdDev >= 0.0
    {
      StatsForColumn(c, cfg, sqrt, metric);
    }
    i := PassesGrounded(c, d, |runs|, cfg, a);
    k := RowIsRun(runs, i);
    st := StatsFor(d, a.metric);
    StatsForColumn(c, cfg, sqrt, a.metric);
    StatsDescribe(Column(c, a.metric), cfg.iqrMultiplier, sqrt);
  }

  // What justifies an anomaly makes its method flag the row.
  lemma JustifiedIsFlagged(id: string, values: seq<real>, st: MetricStatistics, i: nat, metric: Metric, cfg: Config,
                           a: Anomaly)
    requires cfg.window >= 1 && st.stdDev >= 0.0 && a.metric == metric && Justifies(values, st, i, cfg, a)
    ensures AnomalyBookkeeping.RowVerdict(id, values, i, metric, st, cfg, HigherIsBetter(metric)).Some?
  {
    var higher := HigherIsBetter(metric);
    match a.how
    case ZScore => ZScoreMeans(id, values[i], metric, st, cfg.zThreshold, higher);
    case Iqr => QuartilesMean(id, values[i], metric, st);
    case MovingAverage => MovingAverageMeans(id, values, i, metric, cfg.window, cfg.deviation, higher);
  }

  lemma ReferenceAt(c: Columns, d: Description, cfg: Config, metric: Metric, i: nat)
    requires c.Even() && cfg.window >= 1 && i < |c.ids|
    ensures |Column(c, metric)| == |AnomalyBookkeeping.Reference(c, d, cfg).Of(metric)| == |c.ids|
    ensures AnomalyBookkeeping.Reference(c, d, cfg).Of(metric)[i]
         == AnomalyBookkeeping.RowVerdict(c.ids[i], Column(c, metric), i, metric, StatsFor(d, metric), cfg,
                                          HigherIsBetter(metric))
  {}

  // Conversely, with distinct run IDs: a row that its readings justify an anomaly
  // for is reported, once, under its run and metric.
  lemma JustifiedIsReported(runs: seq<BenchmarkRun>, cfg: Config, sqrt: real -> real, a: Anomaly, i: nat)
    requires cfg.window >= 1 && IsSqrt(sqrt) && |runs| >= cfg.minPoints
    requires AnomalyBookkeeping.DistinctIds(ColumnsOf(runs).ids) && i < |ColumnsOf(runs).ids|
    requires var values := Column(ColumnsOf(runs), a.metric);
             Justifies(values, StatsOf(values, cfg.iqrMultiplier, sqrt), i, cfg, a)
    ensures exists b :: b in Detected(runs, cfg, sqrt).anomalies
                     && b.runId == ColumnsOf(runs).ids[i] && b.metric == a.metric
  {
    var c := ColumnsOf(runs);
    var d := Describe(c, cfg, sqrt);
    StatsForColumn(c, cfg, sqrt, a.metric);
    JustifiedIsFlagged(c.ids[i], Column(c, a.metric), StatsFor(d, a.metric), i, a.metric, cfg, a);
    ReferenceAt(c, d, cfg, a.metric, i);
    AnomalyBookkeeping.FirstMethodWins(runs, cfg, sqrt);
    VerdictIsReported(Detected(runs, cfg, sqrt), c.ids, a.metric, AnomalyBookkeeping.Reference(c, d, cfg), i);
  }

  lemma VerdictIsReported(st: PassState, ids: seq<string>, metric: Metric, f: Findings, i: nat)
    requires AnomalyBookkeeping.HoldsAll(st, ids, f) && i < |ids| == |f.Of(metric)| && f.Of(metric)[i].Some?
    ensures exists b :: b in st.anomalies && b.runId == ids[i] && b.metric == metric
  {
    assert AnomalyBookkeeping.Holds(st, ids, metric, f.Of(metric));
    var b := f.Of(metric)[i].value;
    assert Some(b) in f.Of(metric);
    assert b in st.anomalies;
  }

  // Slower throughput, higher latency.
  predicate OnBadSide(a: Anomaly) {
    if a.metric.Throughput? then a.value < a.expected else a.value > a.expected
  }

  // What the z-score and moving-average methods report is worse than expected.
  lemma OnlyWorseIsReported(runs: seq<BenchmarkRun>, cfg: Config, sqrt: real -> real, a: Anomaly)
    requires cfg.window >= 1 && IsSqrt(sqrt) && a in Detected(runs, cfg, sqrt).anomalies
    requires cfg.zThreshold >= 0.0 && cfg.deviation >= 0.0
    ensures a.how.ZScore? || (a.how.MovingAverage? && a.expected > 0.0) ==> OnBadSide(a)
  {
    var k, i, st := EveryAnomalyJustified(runs, cfg, sqrt, a);
    JustifiedIsWorse(Column(ColumnsOf(runs), a.metric), st, i, cfg, a);
  }

  lemma JustifiedIsWorse(values: seq<real>, st: MetricStatistics, i: nat, cfg: Config, a: Anomaly)
    requires Justifies(values, st, i, cfg, a) && cfg.zThreshold >= 0.0 && cfg.deviation >= 0.0
    ensures a.how.ZScore? || (a.how.MovingAverage? && a.expected > 0.0) ==> OnBadSide(a)
  {
    if a.how.ZScore? {
      DistanceIsWorse(a, st, cfg.zThreshold);
    } else if a.how.MovingAverage? && a.expected > 0.0 {
      AverageIsWorse(a, values[i - cfg.window..i], cfg.deviation);
    }
  }

  lemma DistanceIsWorse(a: Anomaly, st: MetricStatistics, t: real)
    requires ByDistance(a, st, t) && t >= 0.0
    ensures OnBadSide(a)
  {
    ProductNonNegative(t, st.stdDev);
  }

  lemma AverageIsWorse(a: Anomaly, before: seq<real>, t: real)
    requires before != [] && ByAverage(a, before, t) && t >= 0.0 && a.expected > 0.0
    ensures OnBadSide(a)
  {
    ProductNonNegative(t, a.expected);
  }
}
