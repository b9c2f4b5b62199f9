// The three-pass anomaly detector of internal/analysis/anomaly.go.
module Anomalies {
  import opened Reals
  import opened Statistics
  import opened Wrappers

  // ---- Division as float64 does it, signed zeros aside ----

  datatype Quotient = Finite(v: real) | PosInf | NegInf | NaN

  function Over(x: real, y: real): Quotient {
    if y != 0.0 then Finite(x / y)
    else if x > 0.0 then PosInf
    else if x < 0.0 then NegInf
    else NaN
  }

  function Percent(q: Quotient): Quotient {
    if q.Finite? then Finite(q.v * 100.0) else q
  }

  predicate Below(q: Quotient, t: real) {
    q.NegInf? || (q.Finite? && q.v < t)
  }

  predicate Above(q: Quotient, t: real) {
    q.PosInf? || (q.Finite? && q.v > t)
  }

  // ---- Configuration and records ----

  datatype Config = Config(zThreshold: real, iqrMultiplier: real, window: int, deviation: real, minPoints: int)

  // Zero fields take their defaults.
  function NewDetector(c: Config): Config {
    Config(
      if c.zThreshold == 0.0 then 3.0 else c.zThreshold,
      if c.iqrMultiplier == 0.0 then 1.5 else c.iqrMultiplier,
      if c.window == 0 then 5 else c.window,
      if c.deviation == 0.0 then 20.0 else c.deviation,
      if c.minPoints == 0 then 3 else c.minPoints)
  }

  datatype Metric = Throughput | AvgLatency | P99Latency

  function NameOf(metric: Metric): string {
    match metric
    case Throughput => "throughput"
    case AvgLatency => "avg_latency"
    case P99Latency => "p99_latency"
  }

  datatype Severity = Warning | Critical
  datatype Method = ZScore | Iqr | MovingAverage

  // The score and the description text are not modelled.
  datatype Anomaly = Anomaly(
    runId: string, metric: Metric, value: real, expected: real, deviation: Quotient,
    how: Method, severity: Severity)

  datatype MetricStatistics = MetricStatistics(
    mean: real, median: real, stdDev: real, min: real, max: real,
    q1: real, q3: real, iqr: real, lowerFence: real, upperFence: real)

  datatype Sample = Sample(ops: real, avgLatency: real, p99Latency: real)
  datatype BenchmarkRun = BenchmarkRun(id: string, summary: Option<Sample>)

  // ---- Statistics of one metric ----

  // sqrt stands for math.Sqrt.
  function StatsOf(values: seq<real>, multiplier: real, sqrt: real -> real): MetricStatistics {
    if values == [] then MetricStatistics(0.0, 0.0, 0.0, 0.0, 0.0, 0.0, 0.0, 0.0, 0.0, 0.0)
    else
      var sorted := Sort(values);
      WithFences(Mean(values), MiddleMedian(sorted), sqrt(PopulationVariance(values)), sorted[0], sorted[|sorted| - 1],
                 Percentile(sorted, 25.0), Percentile(sorted, 75.0), multiplier)
  }

  function WithFences(mean: real, median: real, stdDev: real, min: real, max: real, q1: real, q3: real,
                      multiplier: real): MetricStatistics
  {
    var iqr := q3 - q1;
    MetricStatistics(mean, median, stdDev, min, max, q1, q3, iqr, q1 - Reach(multiplier, iqr), q3 + Reach(multiplier, iqr))
  }

  // How far the fences are from the quartiles.
  function Reach(multiplier: real, iqr: real): real {
    multiplier * iqr
  }

  method MedianOf(sorted: seq<real>) returns (median: real)
    requires sorted != []
    ensures median == MiddleMedian(sorted)
  {
    var n := |sorted|;
    if n % 2 == 0 {
      median := (sorted[n / 2 - 1] + sorted[n / 2]) / 2.0;
    } else {
      median := sorted[n / 2];
    }
  }

  method CalculateMetricStatistics(values: seq<real>, multiplier: real, sqrt: real -> real)
    returns (stats: MetricStatistics)
    ensures stats == StatsOf(values, multiplier, sqrt)
  {
    if |values| == 0 {
      return MetricStatistics(0.0, 0.0, 0.0, 0.0, 0.0, 0.0, 0.0, 0.0, 0.0, 0.0);
    }
    var sorted := Sort(values);
    var mean, variance := MeanAndVariance(values);
    var median := MedianOf(sorted);
    var q1, q3 := Percentile(sorted, 25.0), Percentile(sorted, 75.0);
    stats := WithFences(mean, median, sqrt(variance), sorted[0], sorted[|sorted| - 1], q1, q3, multiplier);
  }

  // ---- The verdict of each method on one value ----

  // Deviations on the bad side of a threshold.
  function Judge(q: Quotient, threshold: real, critical: real, higherIsBetter: bool): Option<Severity> {
    if higherIsBetter then
      if Below(q, -threshold) then Some(if Below(q, -critical) then Critical else Warning) else None
    else
      if Above(q, threshold) then Some(if Above(q, critical) then Critical else Warning) else None
  }

  function ZVerdict(id: string, v: real, metric: Metric, stats: MetricStatistics, threshold: real, higher: bool)
    : Option<Anomaly>
  {
    if stats.stdDev == 0.0 then None
    else match Judge(Over(v - stats.mean, stats.stdDev), threshold, threshold * 1.5, higher)
      case None => None
      case Some(severity) =>
        Some(Anomaly(id, metric, v, stats.mean, Percent(Over(v - stats.mean, stats.mean)), ZScore, severity))
  }

  function IqrVerdict(id: string, v: real, metric: Metric, stats: MetricStatistics): Option<Anomaly> {
    if v < stats.lowerFence || v > stats.upperFence then
      var severity := if v < stats.q1 - 3.0 * stats.iqr || v > stats.q3 + 3.0 * stats.iqr then Critical else Warning;
      Some(Anomaly(id, metric, v, stats.median, Percent(Over(v - stats.mean, stats.mean)), Iqr, severity))
    else None
  }

  function SumOver(values: seq<real>, lo: nat, hi: nat): real
    requires lo <= hi <= |values|
    decreases hi
  {
    if lo == hi then 0.0 else SumOver(values, lo, hi - 1) + values[hi - 1]
  }

  // The mean of the window values before index i.
  function MovingMean(values: seq<real>, i: nat, window: nat): real
    requires 1 <= window <= i <= |values|
  {
    SumOver(values, i - window, i) / window as real
  }

  function MaVerdict(id: string, values: seq<real>, i: nat, metric: Metric, window: nat, threshold: real, higher: bool)
    : Option<Anomaly>
    requires i < |values| && window >= 1
  {
    if i < window then None
    else
      var ma := MovingMean(values, i, window);
      var deviation := Percent(Over(values[i] - ma, ma));
      match Judge(deviation, threshold, threshold * 2.0, higher)
      case None => None
      case Some(severity) => Some(Anomaly(id, metric, values[i], ma, deviation, MovingAverage, severity))
  }

  // The verdicts of a whole pass.
  function ZFound(ids: seq<string>, values: seq<real>, metric: Metric, stats: MetricStatistics,
                  threshold: real, higher: bool): (found: seq<Option<Anomaly>>)
    requires |ids| == |values|
    ensures |found| == |ids|
  {
    seq(|ids|, i requires 0 <= i < |ids| => ZVerdict(ids[i], values[i], metric, stats, threshold, higher))
  }

  function IqrFound(ids: seq<string>, values: seq<real>, metric: Metric, stats: MetricStatistics)
    : (found: seq<Option<Anomaly>>)
    requires |ids| == |values|
    ensures |found| == |ids|
  {
    seq(|ids|, i requires 0 <= i < |ids| => IqrVerdict(ids[i], values[i], metric, stats))
  }

  function MaFound(ids: seq<string>, values: seq<real>, metric: Metric, window: nat,
                   threshold: real, higher: bool): (found: seq<Option<Anomaly>>)
    requires |ids| == |values| && window >= 1
    ensures |found| == |ids|
  {
    seq(|ids|, i requires 0 <= i < |ids| => MaVerdict(ids[i], values, i, metric, window, threshold, higher))
  }

  // ---- One pass over the runs ----

  function Key(runId: string, metric: Metric): string {
    KeyText(runId, NameOf(metric))
  }

  function KeyText(runId: string, name: string): string {
    runId + [':'] + name
  }

  // The anomalies reported and the keys of the shared set.
  datatype PassState = PassState(anomalies: seq<Anomaly>, seen: set<string>)

  function Report(st: PassState, key: string, verdict: Option<Anomaly>): PassState {
    if key in st.seen || verdict.None? then st
    else PassState(st.anomalies + [verdict.value], st.seen + {key})
  }

  // The first n rows of a pass.
  function PassTo(st: PassState, ids: seq<string>, metric: Metric, found: seq<Option<Anomaly>>, n: nat): PassState
    requires |found| == |ids| && n <= |ids|
    decreases n
  {
    if n == 0 then st
    else Report(PassTo(st, ids, metric, found, n - 1), Key(ids[n - 1], metric), found[n - 1])
  }

  function Pass(st: PassState, ids: seq<string>, metric: Metric, found: seq<Option<Anomaly>>): PassState
    requires |found| == |ids|
  {
    PassTo(st, ids, metric, found, |ids|)
  }

  // ---- The nine passes ----

  // One column per metric, for the runs that have a summary.
  datatype Columns = Columns(ids: seq<string>, ops: seq<real>, avg: seq<real>, p99: seq<real>) {
    predicate Even() { |ops| == |ids| && |avg| == |ids| && |p99| == |ids| }
  }

  function WithRow(c: Columns, id: string, s: Sample): Columns {
    Columns(c.ids + [id], c.ops + [s.ops], c.avg + [s.avgLatency], c.p99 + [s.p99Latency])
  }

  function ColumnsOf(runs: seq<BenchmarkRun>): (c: Columns)
    ensures c.Even()
  {
    if runs == [] then Columns([], [], [], [])
    else
      var c := ColumnsOf(runs[..|runs| - 1]);
      var run := runs[|runs| - 1];
      match run.summary
      case None => c
      case Some(s) => WithRow(c, run.id, s)
  }

  // The verdicts of one method on the three metrics.
  datatype Findings = Findings(ops: seq<Option<Anomaly>>, avg: seq<Option<Anomaly>>, p99: seq<Option<Anomaly>>) {
    predicate Sized(n: nat) { |ops| == n && |avg| == n && |p99| == n }

    function Of(metric: Metric): seq<Option<Anomaly>> {
      match metric
      case Throughput => ops
      case AvgLatency => avg
      case P99Latency => p99
    }
  }

  // The statistics of the three metrics.
  datatype Description = Description(ops: MetricStatistics, avg: MetricStatistics, p99: MetricStatistics)

  function Describe(c: Columns, cfg: Config, sqrt: real -> real): Description {
    Description(StatsOf(c.ops, cfg.iqrMultiplier, sqrt), StatsOf(c.avg, cfg.iqrMultiplier, sqrt),
                StatsOf(c.p99, cfg.iqrMultiplier, sqrt))
  }

  function ByMetric(d: Description): map<Metric, MetricStatistics> {
    map[Throughput := d.ops, AvgLatency := d.avg, P99Latency := d.p99]
  }

  function ZFindings(c: Columns, d: Description, threshold: real): (f: Findings)
    requires c.Even()
    ensures f.Sized(|c.ids|)
  {
    Findings(
      ZFound(c.ids, c.ops, Throughput, d.ops, threshold, true),
      ZFound(c.ids, c.avg, AvgLatency, d.avg, threshold, false),
      ZFound(c.ids, c.p99, P99Latency, d.p99, threshold, false))
  }

  function IqrFindings(c: Columns, d: Description): (f: Findings)
    requires c.Even()
    ensures f.Sized(|c.ids|)
  {
    Findings(
      IqrFound(c.ids, c.ops, Throughput, d.ops),
      IqrFound(c.ids, c.avg, AvgLatency, d.avg),
      IqrFound(c.ids, c.p99, P99Latency, d.p99))
  }

  function MaFindings(c: Columns, cfg: Config): (f: Findings)
    requires c.Even() && cfg.window >= 1
    ensures f.Sized(|c.ids|)
  {
    var w, t := cfg.window, cfg.deviation;
    Findings(
      MaFound(c.ids, c.ops, Throughput, w, t, true),
      MaFound(c.ids, c.avg, AvgLatency, w, t, false),
      MaFound(c.ids, c.p99, P99Latency, w, t, false))
  }

  // One method's three passes.
  function Sweep(st: PassState, ids: seq<string>, f: Findings): PassState
    requires f.Sized(|ids|)
  {
    Pass(Pass(Pass(st, ids, Throughput, f.ops), ids, AvgLatency, f.avg), ids, P99Latency, f.p99)
  }

  const START := PassState([], {})

  function AfterPasses(st: PassState, c: Columns, d: Description, runs: nat, cfg: Config): PassState
    requires c.Even() && cfg.window >= 1
  {
    var st' := Sweep(Sweep(st, c.ids, ZFindings(c, d, cfg.zThreshold)), c.ids, IqrFindings(c, d));
    if runs >= cfg.window then Sweep(st', c.ids, MaFindings(c, cfg)) else st'
  }

  // What is reported for a set of runs.
  function Detected(runs: seq<BenchmarkRun>, cfg: Config, sqrt: real -> real): PassState
    requires cfg.window >= 1
  {
    if |runs| < cfg.minPoints then START
    else AfterPasses(START, ColumnsOf(runs), Describe(ColumnsOf(runs), cfg, sqrt), |runs|, cfg)
  }

  function CountSeverity(anomalies: seq<Anomaly>, s: Severity): nat {
    if anomalies == [] then 0
    else CountSeverity(anomalies[..|anomalies| - 1], s) + if anomalies[|anomalies| - 1].severity == s then 1 else 0
  }

  function RunIds(anomalies: seq<Anomaly>): set<string> {
    set a | a in anomalies :: a.runId
  }

  method CompareWithMean(id: string, v: real, metric: Metric, stats: MetricStatistics, threshold: real, higher: bool)
    returns (verdict: Option<Anomaly>)
    requires stats.stdDev != 0.0
    ensures verdict == ZVerdict(id, v, metric, stats, threshold, higher)
  {
    var zScore := Over(v - stats.mean, stats.stdDev);
    var severity := Judge(zScore, threshold, threshold * 1.5, higher);
    verdict := None;
    if severity.Some? {
      var deviation := Percent(Over(v - stats.mean, stats.mean));
      verdict := Some(Anomaly(id, metric, v, stats.mean, deviation, ZScore, severity.value));
    }
  }

  method CompareWithFences(id: string, v: real, metric: Metric, stats: MetricStatistics)
    returns (verdict: Option<Anomaly>)
    ensures verdict == IqrVerdict(id, v, metric, stats)
  {
    verdict := None;
    if v < stats.lowerFence || v > stats.upperFence {
      var deviation := Percent(Over(v - stats.mean, stats.mean));
      var severity := Warning;
      if v < stats.q1 - 3.0 * stats.iqr || v > stats.q3 + 3.0 * stats.iqr {
        severity := Critical;
      }
      verdict := Some(Anomaly(id, metric, v, stats.median, deviation, Iqr, severity));
    }
  }

  method CompareWithWindow(id: string, values: seq<real>, i: nat, metric: Metric, window: nat,
                           threshold: real, higher: bool) returns (verdict: Option<Anomaly>)
    requires 1 <= window <= i < |values|
    ensures verdict == MaVerdict(id, values, i, metric, window, threshold, higher)
  {
    var sum := 0.0;
    for j := i - window to i
      invariant sum == SumOver(values, i - window, j)
    {
      sum := sum + values[j];
    }
    var ma := sum / window as real;
    var deviation := Percent(Over(values[i] - ma, ma));
    var severity := Judge(deviation, threshold, threshold * 2.0, higher);
    verdict := if severity.None? then None
               else Some(Anomaly(id, metric, values[i], ma, deviation, MovingAverage, severity.value));
  }

  // The report together with the set the passes share.
  class AnomalyReport {
    var anomalies: seq<Anomaly>
    var statistics: map<Metric, MetricStatistics>
    var totalRuns: nat
    var anomalousRuns: nat
    var warningCount: nat
    var criticalCount: nat
    var seen: set<string>

    ghost function View(): PassState
      reads this`anomalies, this`seen
    {
      PassState(anomalies, seen)
    }

    // The totals agree with the anomalies listed.
    ghost predicate Counted()
      reads this`anomalies, this`anomalousRuns, this`warningCount, this`criticalCount
    {
      && criticalCount == CountSeverity(anomalies, Critical)
      && warningCount == CountSeverity(anomalies, Warning)
      && anomalousRuns == |RunIds(anomalies)|
    }

    constructor (runs: nat)
      ensures View() == START && statistics == map[] && totalRuns == runs
      ensures warningCount == criticalCount == 0 && Counted()
    {
      anomalies, statistics, seen := [], map[], {};
      totalRuns, anomalousRuns, warningCount, criticalCount := runs, 0, 0, 0;
      assert RunIds([]) == {};
    }

    // Append the anomaly, if there is one, and remember its key.
    method Note(key: string, verdict: Option<Anomaly>)
      requires key !in seen
      modifies this`anomalies, this`seen
      ensures View() == Report(old(View()), key, verdict)
    {
      if verdict.Some? {
        anomalies := anomalies + [verdict.value];
        seen := seen + {key};
      }
    }

    method DetectZScoreAnomalies(ids: seq<string>, values: seq<real>, metric: Metric, threshold: real, higher: bool)
      requires |ids| == |values| && metric in statistics
      modifies this`anomalies, this`seen
      ensures View() == Pass(old(View()), ids, metric, ZFound(ids, values, metric, statistics[metric], threshold, higher))
    {
      var stats := statistics[metric];
      ghost var found := ZFound(ids, values, metric, stats, threshold, higher);
      if stats.stdDev == 0.0 {
        NothingFound(View(), ids, metric, found, |ids|);
        return;
      }
      for i := 0 to |values|
        invariant View() == PassTo(old(View()), ids, metric, found, i)
      {
        var key := Key(ids[i], metric);
        if key !in seen {
          var verdict := CompareWithMean(ids[i], values[i], metric, stats, threshold, higher);
          Note(key, verdict);
        }
      }
    }

    method DetectIQRAnomalies(ids: seq<string>, values: seq<real>, metric: Metric)
      requires |ids| == |values| && metric in statistics
      modifies this`anomalies, this`seen
      ensures View() == Pass(old(View()), ids, metric, IqrFound(ids, values, metric, statistics[metric]))
    {
      var stats := statistics[metric];
      ghost var found := IqrFound(ids, values, metric, stats);
      for i := 0 to |values|
        invariant View() == PassTo(old(View()), ids, metric, found, i)
      {
        var key := Key(ids[i], metric);
        if key !in seen {
          var verdict := CompareWithFences(ids[i], values[i], metric, stats);
          Note(key, verdict);
        }
      }
    }

    method DetectMovingAverageAnomalies(ids: seq<string>, values: seq<real>, metric: Metric, window: nat,
                                        threshold: real, higher: bool)
      requires |ids| == |values| && window >= 1
      modifies this`anomalies, this`seen
      ensures View() == Pass(old(View()), ids, metric, MaFound(ids, values, metric, window, threshold, higher))
    {
      ghost var found := MaFound(ids, values, metric, window, threshold, higher);
      var start := if window < |values| then window else |values|;
      NothingFound(View(), ids, metric, found, start);
      for i := start to |values|
        invariant View() == PassTo(old(View()), ids, metric, found, i)
      {
        var key := Key(ids[i], metric);
        if key !in seen {
          var verdict := CompareWithWindow(ids[i], values, i, metric, window, threshold, higher);
          Note(key, verdict);
        }
        assert View() == Report(PassTo(old(View()), ids, metric, found, i), key, found[i]);
      }
    }

    method ZScorePasses(c: Columns, ghost d: Description, threshold: real)
      requires c.Even() && statistics == ByMetric(d)
      modifies this`anomalies, this`seen
      ensures View() == Sweep(old(View()), c.ids, ZFindings(c, d, threshold))
    {
      DetectZScoreAnomalies(c.ids, c.ops, Throughput, threshold, true);
      DetectZScoreAnomalies(c.ids, c.avg, AvgLatency, threshold, false);
      DetectZScoreAnomalies(c.ids, c.p99, P99Latency, threshold, false);
    }

    method IqrPasses(c: Columns, ghost d: Description)
      requires c.Even() && statistics == ByMetric(d)
      modifies this`anomalies, this`seen
      ensures View() == Sweep(old(View()), c.ids, IqrFindings(c, d))
    {
      DetectIQRAnomalies(c.ids, c.ops, Throughput);
      DetectIQRAnomalies(c.ids, c.avg, AvgLatency);
      DetectIQRAnomalies(c.ids, c.p99, P99Latency);
    }

    method MovingAveragePasses(c: Columns, cfg: Config)
      requires c.Even() && cfg.window >= 1
      modifies this`anomalies, this`seen
      ensures View() == Sweep(old(View()), c.ids, MaFindings(c, cfg))
    {
      DetectMovingAverageAnomalies(c.ids, c.ops, Throughput, cfg.window, cfg.deviation, true);
      DetectMovingAverageAnomalies(c.ids, c.avg, AvgLatency, cfg.window, cfg.deviation, false);
      DetectMovingAverageAnomalies(c.ids, c.p99, P99Latency, cfg.window, cfg.deviation, false);
    }

    method DescribeMetrics(c: Columns, cfg: Config, sqrt: real -> real)
      modifies this`statistics
      ensures statistics == ByMetric(Describe(c, cfg, sqrt))
    {
      var ops := CalculateMetricStatistics(c.ops, cfg.iqrMultiplier, sqrt);
      var avg := CalculateMetricStatistics(c.avg, cfg.iqrMultiplier, sqrt);
      var p99 := CalculateMetricStatistics(c.p99, cfg.iqrMultiplier, sqrt);
      statistics := map[Throughput := ops, AvgLatency := avg, P99Latency := p99];
    }

    // The nine passes.
    method RunPasses(c: Columns, ghost d: Description, runs: nat, cfg: Config)
      requires c.Even() && cfg.window >= 1 && statistics == ByMetric(d)
      modifies this`anomalies, this`seen
      ensures View() == AfterPasses(old(View()), c, d, runs, cfg)
    {
      ZScorePasses(c, d, cfg.zThreshold);
      IqrPasses(c, d);
      if runs >= cfg.window {
        MovingAveragePasses(c, cfg);
      }
    }

    // The closing loop over the anomalies.
    method CountAnomalies()
      requires warningCount == criticalCount == 0
      modifies this`anomalousRuns, this`warningCount, this`criticalCount
      ensures Counted()
    {
      var ids: set<string> := {};
      for i := 0 to |anomalies|
        invariant ids == RunIds(anomalies[..i])
        invariant criticalCount == CountSeverity(anomalies[..i], Critical)
        invariant warningCount == CountSeverity(anomalies[..i], Warning)
      {
        assert anomalies[..i + 1][..i] == anomalies[..i];
        assert anomalies[..i + 1] == anomalies[..i] + [anomalies[i]];
        ids := ids + {anomalies[i].runId};
        if anomalies[i].severity == Critical {
          criticalCount := criticalCount + 1;
        } else {
          warningCount := warningCount + 1;
        }
      }
      assert anomalies[..|anomalies|] == anomalies;
      anomalousRuns := |ids|;
    }

    method Analyze(c: Columns, ghost d: Description, runs: nat, cfg: Config)
      requires c.Even() && cfg.window >= 1 && statistics == ByMetric(d) && warningCount == criticalCount == 0
      modifies this`anomalies, this`seen, this`anomalousRuns, this`warningCount, this`criticalCount
      ensures View() == AfterPasses(old(View()), c, d, runs, cfg) && Counted()
    {
      RunPasses(c, d, runs, cfg);
      CountAnomalies();
    }
  }

  lemma {:induction false} NothingFound(st: PassState, ids: seq<string>, metric: Metric, found: seq<Option<Anomaly>>,
                                        n: nat)
    requires |found| == |ids| && n <= |ids| && forall i :: 0 <= i < n ==> found[i].None?
    ensures PassTo(st, ids, metric, found, n) == st
  {
    if n > 0 {
      NothingFound(st, ids, metric, found, n - 1);
    }
  }

  method ExtractColumns(runs: seq<BenchmarkRun>) returns (c: Columns)
    ensures c == ColumnsOf(runs)
  {
    var ids, ops, avg, p99 := [], [], [], [];
    for i := 0 to |runs|
      invariant Columns(ids, ops, avg, p99) == ColumnsOf(runs[..i])
    {
      assert runs[..i + 1][..i] == runs[..i];
      if runs[i].summary.None? {
        continue;
      }
      var s := runs[i].summary.value;
      ids, ops, avg, p99 := ids + [runs[i].id], ops + [s.ops], avg + [s.avgLatency], p99 + [s.p99Latency];
    }
    assert runs[..|runs|] == runs;
    c := Columns(ids, ops, avg, p99);
  }

  // A negative window would index out of range.
  method DetectAnomalies(runs: seq<BenchmarkRun>, cfg: Config, sqrt: real -> real) returns (report: AnomalyReport)
    requires cfg.window >= 1
    ensures fresh(report) && report.View() == Detected(runs, cfg, sqrt) && report.totalRuns == |runs|
    ensures report.statistics == if |runs| < cfg.minPoints then map[] else ByMetric(Describe(ColumnsOf(runs), cfg, sqrt))
    ensures report.Counted()
  {
    report := new AnomalyReport(|runs|);
    if |runs| < cfg.minPoints {
      return;
    }
    var c := ExtractColumns(runs);
    ghost var d := Describe(c, cfg, sqrt);
    report.DescribeMetrics(c, cfg, sqrt);
    report.Analyze(c, d, |runs|, cfg);
  }
}
