// The z-score and quartile passes do not depend on the order of the runs.
module AnomalyOrder {
  import opened Reals
  import opened Statistics
  import opened Anomalies
  import opened AnomalyBookkeeping
  import opened Wrappers

  // ---- The runs with a summary, as rows ----

  datatype Row = Row(id: string, s: Sample)

  function RowOf(run: BenchmarkRun): seq<Row> {
    match run.summary
    case None => []
    case Some(s) => [Row(run.id, s)]
  }

  function Rows(runs: seq<BenchmarkRun>): seq<Row> {
    if runs == [] then [] else Rows(runs[..|runs| - 1]) + RowOf(runs[|runs| - 1])
  }

  const ID: Row -> string := (r: Row) => r.id
  const OPS: Row -> real := (r: Row) => r.s.ops
  const AVG: Row -> real := (r: Row) => r.s.avgLatency
  const P99: Row -> real := (r: Row) => r.s.p99Latency

  lemma {:induction false} ColumnsAreRows(runs: seq<BenchmarkRun>)
    ensures var c, rows := ColumnsOf(runs), Rows(runs);
            c.ids == Map(rows, ID) && c.ops == Map(rows, OPS) && c.avg == Map(rows, AVG) && c.p99 == Map(rows, P99)
  {
    if runs != [] {
      var n := |runs| - 1;
      ColumnsAreRows(runs[..n]);
      if runs[n].summary.Some? {
        var rows, row := Rows(runs[..n]), Row(runs[n].id, runs[n].summary.value);
        MapSnoc(rows, row, ID);
        MapSnoc(rows, row, OPS);
        MapSnoc(rows, row, AVG);
        MapSnoc(rows, row, P99);
      }
    }
  }

  lemma RowsSnoc(runs: seq<BenchmarkRun>, run: BenchmarkRun)
    ensures multiset(Rows(runs + [run])) == multiset(Rows(runs)) + multiset(RowOf(run))
  {
    assert (runs + [run])[..|runs|] == runs;
  }

  lemma WithoutSnoc<T>(xs: seq<T>, i: nat)
    requires i < |xs| - 1
    ensures Without(xs, i) == Without(xs[..|xs| - 1], i) + [xs[|xs| - 1]]
  {}

  lemma AddLast<T>(a: multiset<T>, b: multiset<T>, c: multiset<T>)
    ensures (a + b) + c == (a + c) + b
  {}

  lemma {:induction false} RowsWithout(runs: seq<BenchmarkRun>, i: nat)
    requires i < |runs|
    ensures multiset(Rows(runs)) == multiset(Rows(Without(runs, i))) + multiset(RowOf(runs[i]))
  {
    var n := |runs| - 1;
    assert runs == runs[..n] + [runs[n]];
    RowsSnoc(runs[..n], runs[n]);
    if i == n {
      assert Without(runs, i) == runs[..n];
    } else {
      RowsWithout(runs[..n], i);
      WithoutSnoc(runs, i);
      RowsSnoc(Without(runs[..n], i), runs[n]);
      AddLast(multiset(Rows(Without(runs[..n], i))), multiset(RowOf(runs[i])), multiset(RowOf(runs[n])));
    }
  }

  lemma {:induction false} RowsPermuted(runs: seq<BenchmarkRun>, runs': seq<BenchmarkRun>)
    requires multiset(runs) == multiset(runs')
    ensures multiset(Rows(runs)) == multiset(Rows(runs'))
  {
    SameLength(runs, runs');
    if runs != [] {
      var i := Locate(runs, runs');
      RowsPermuted(runs[..|runs| - 1], Without(runs', i));
      RowsWithout(runs', i);
    }
  }

  lemma StatsPermuted(values: seq<real>, values': seq<real>, multiplier: real, sqrt: real -> real)
    requires multiset(values) == multiset(values')
    ensures StatsOf(values, multiplier, sqrt) == StatsOf(values', multiplier, sqrt)
  {
    SortPermuted(values, values');
    SumsPermuted(values, values', Mean(values));
  }

  // ---- The verdict of both methods on a row, given the statistics ----

  function Verdict(metric: Metric, value: Row -> real, stats: MetricStatistics, t: real, higher: bool)
    : Row -> Option<Anomaly>
  {
    (r: Row) => First(ZVerdict(r.id, value(r), metric, stats, t, higher), IqrVerdict(r.id, value(r), metric, stats))
  }

  lemma VerdictsPermuted(rows: seq<Row>, rows': seq<Row>, f: Row -> Option<Anomaly>, v: Option<Anomaly>)
    requires multiset(rows) == multiset(rows')
    ensures v in Map(rows, f) <==> v in Map(rows', f)
  {
    MapPermuted(rows, rows', f);
    assert v in multiset(Map(rows, f)) <==> v in multiset(Map(rows', f));
  }

  // ---- Sequences without repetition ----

  lemma {:induction false} OnceEach<T(!new)>(xs: seq<T>)
    requires forall i, j :: 0 <= i < j < |xs| ==> xs[i] != xs[j]
    ensures forall x :: multiset(xs)[x] <= 1
  {
    if xs != [] {
      var n := |xs| - 1;
      OnceEach(xs[..n]);
      assert xs == xs[..n] + [xs[n]];
      assert xs[n] !in multiset(xs[..n]);
    }
  }

  lemma NotRepeated<T>(xs: seq<T>, i: nat, j: nat)
    requires i < j < |xs| && multiset(xs)[xs[j]] <= 1
    ensures xs[i] != xs[j]
  {
    assert xs == xs[..j] + [xs[j]] + xs[j + 1..];
    assert xs[j] !in multiset(xs[..j]);
    assert xs[..j][i] == xs[i];
  }

  lemma DistinctPermuted(ids: seq<string>, ids': seq<string>)
    requires DistinctIds(ids) && multiset(ids) == multiset(ids')
    ensures DistinctIds(ids')
  {
    OnceEach(ids);
    forall i, j | 0 <= i < j < |ids'|
      ensures ids'[i] != ids'[j]
    {
      NotRepeated(ids', i, j);
    }
  }

  lemma SameElementsOnce<T(!new)>(xs: seq<T>, ys: seq<T>)
    requires forall i, j :: 0 <= i < j < |xs| ==> xs[i] != xs[j]
    requires forall i, j :: 0 <= i < j < |ys| ==> ys[i] != ys[j]
    requires forall x :: x in xs <==> x in ys
    ensures multiset(xs) == multiset(ys)
  {
    OnceEach(xs);
    OnceEach(ys);
    forall x: T
      ensures multiset(xs)[x] == multiset(ys)[x]
    {
      assert x in xs <==> x in multiset(xs);
      assert x in ys <==> x in multiset(ys);
    }
  }

  // ---- The two order-free methods ----

  // The detector without its moving-average passes.
  function ByDistribution(runs: seq<BenchmarkRun>, cfg: Config, sqrt: real -> real): PassState {
    DistributionPasses(ColumnsOf(runs), Describe(ColumnsOf(runs), cfg, sqrt), cfg.zThreshold)
  }

  function DistributionPasses(c: Columns, d: Description, threshold: real): PassState
    requires c.Even()
  {
    Sweep(Sweep(START, c.ids, ZFindings(c, d, threshold)), c.ids, IqrFindings(c, d))
  }

  function RowFindings(rows: seq<Row>, d: Description, threshold: real): (f: Findings)
    ensures f.Sized(|rows|)
  {
    Findings(Map(rows, Verdict(Throughput, OPS, d.ops, threshold, true)),
             Map(rows, Verdict(AvgLatency, AVG, d.avg, threshold, false)),
             Map(rows, Verdict(P99Latency, P99, d.p99, threshold, false)))
  }

  predicate ColumnsFrom(c: Columns, rows: seq<Row>) {
    c.ids == Map(rows, ID) && c.ops == Map(rows, OPS) && c.avg == Map(rows, AVG) && c.p99 == Map(rows, P99)
  }

  lemma FirstIsVerdict(rows: seq<Row>, ids: seq<string>, values: seq<real>, metric: Metric, value: Row -> real,
                       stats: MetricStatistics, t: real, higher: bool)
    requires ids == Map(rows, ID) && values == Map(rows, value)
    ensures Firsts(ZFound(ids, values, metric, stats, t, higher), IqrFound(ids, values, metric, stats), |ids|)
         == Map(rows, Verdict(metric, value, stats, t, higher))
  {}

  lemma FindingsAreRows(c: Columns, rows: seq<Row>, d: Description, threshold: real)
    requires ColumnsFrom(c, rows)
    ensures c.Even()
    ensures FirstFindings(ZFindings(c, d, threshold), IqrFindings(c, d), |c.ids|) == RowFindings(rows, d, threshold)
  {
    FirstIsVerdict(rows, c.ids, c.ops, Throughput, OPS, d.ops, threshold, true);
    FirstIsVerdict(rows, c.ids, c.avg, AvgLatency, AVG, d.avg, threshold, false);
    FirstIsVerdict(rows, c.ids, c.p99, P99Latency, P99, d.p99, threshold, false);
  }

  lemma DistributionReports(c: Columns, rows: seq<Row>, d: Description, threshold: real)
    requires ColumnsFrom(c, rows) && c.Even() && DistinctIds(c.ids)
    ensures HoldsAll(DistributionPasses(c, d, threshold), c.ids, RowFindings(rows, d, threshold))
    ensures Consistent(DistributionPasses(c, d, threshold))
  {
    ZFindingsLabelled(c, d, threshold);
    IqrFindingsLabelled(c, d);
    FindingsAreRows(c, rows, d, threshold);
    TwoSweeps(c.ids, ZFindings(c, d, threshold), IqrFindings(c, d));
    SweepsKeep(c.ids, ZFindings(c, d, threshold), IqrFindings(c, d), IqrFindings(c, d));
  }

  // Both orders find the same verdicts.
  ghost predicate SameVerdicts(f: Findings, f': Findings) {
    forall metric: Metric, v: Option<Anomaly> :: v in f.Of(metric) <==> v in f'.Of(metric)
  }

  lemma RowFindingsPermuted(rows: seq<Row>, rows': seq<Row>, d: Description, threshold: real)
    requires multiset(rows) == multiset(rows')
    ensures SameVerdicts(RowFindings(rows, d, threshold), RowFindings(rows', d, threshold))
  {
    var f, f' := RowFindings(rows, d, threshold), RowFindings(rows', d, threshold);
    forall metric: Metric, v: Option<Anomaly>
      ensures v in f.Of(metric) <==> v in f'.Of(metric)
    {
      match metric {
        case Throughput => VerdictsPermuted(rows, rows', Verdict(Throughput, OPS, d.ops, threshold, true), v);
        case AvgLatency => VerdictsPermuted(rows, rows', Verdict(AvgLatency, AVG, d.avg, threshold, false), v);
        case P99Latency => VerdictsPermuted(rows, rows', Verdict(P99Latency, P99, d.p99, threshold, false), v);
      }
    }
  }

  lemma DescribedAlike(c: Columns, c': Columns, rows: seq<Row>, rows': seq<Row>, cfg: Config, sqrt: real -> real)
    requires multiset(rows) == multiset(rows') && ColumnsFrom(c, rows) && ColumnsFrom(c', rows')
    ensures Describe(c, cfg, sqrt) == Describe(c', cfg, sqrt) && multiset(c.ids) == multiset(c'.ids)
  {
    MapPermuted(rows, rows', ID);
    MapPermuted(rows, rows', OPS);
    MapPermuted(rows, rows', AVG);
    MapPermuted(rows, rows', P99);
    StatsPermuted(c.ops, c'.ops, cfg.iqrMultiplier, sqrt);
    StatsPermuted(c.avg, c'.avg, cfg.iqrMultiplier, sqrt);
    StatsPermuted(c.p99, c'.p99, cfg.iqrMultiplier, sqrt);
  }

  lemma SameReports(st: PassState, st': PassState, ids: seq<string>, ids': seq<string>, f: Findings, f': Findings)
    requires HoldsAll(st, ids, f) && HoldsAll(st', ids', f') && SameVerdicts(f, f') && Consistent(st) && Consistent(st')
    ensures multiset(st.anomalies) == multiset(st'.anomalies) && st.seen == st'.seen
  {
    forall a: Anomaly
      ensures a in st.anomalies <==> a in st'.anomalies
    {
      assert Holds(st, ids, a.metric, f.Of(a.metric)) && Holds(st', ids', a.metric, f'.Of(a.metric));
    }
    SameElementsOnce(st.anomalies, st'.anomalies);
  }

  lemma PermutedPasses(c: Columns, c': Columns, rows: seq<Row>, rows': seq<Row>, d: Description, threshold: real)
    requires multiset(rows) == multiset(rows') && ColumnsFrom(c, rows) && ColumnsFrom(c', rows')
    requires c.Even() && c'.Even() && DistinctIds(c.ids) && DistinctIds(c'.ids)
    ensures var st, st' := DistributionPasses(c, d, threshold), DistributionPasses(c', d, threshold);
            multiset(st.anomalies) == multiset(st'.anomalies) && st.seen == st'.seen
  {
    RowFindingsPermuted(rows, rows', d, threshold);
    DistributionReports(c, rows, d, threshold);
    DistributionReports(c', rows', d, threshold);
    SameReports(DistributionPasses(c, d, threshold), DistributionPasses(c', d, threshold), c.ids, c'.ids,
                RowFindings(rows, d, threshold), RowFindings(rows', d, threshold));
  }

  // With distinct run IDs, reordering the runs reorders the anomalies the
  // z-score and quartile passes report, and changes nothing else.
  lemma OrderIndependence(runs: seq<BenchmarkRun>, runs': seq<BenchmarkRun>, cfg: Config, sqrt: real -> real)
    requires multiset(runs) == multiset(runs') && DistinctIds(ColumnsOf(runs).ids)
    ensures var st, st' := ByDistribution(runs, cfg, sqrt), ByDistribution(runs', cfg, sqrt);
            multiset(st.anomalies) == multiset(st'.anomalies) && st.seen == st'.seen
  {
    var c, c' := ColumnsOf(runs), ColumnsOf(runs');
    RowsPermuted(runs, runs');
    ColumnsAreRows(runs);
    ColumnsAreRows(runs');
    DescribedAlike(c, c', Rows(runs), Rows(runs'), cfg, sqrt);
    DistinctPermuted(c.ids, c'.ids);
    PermutedPasses(c, c', Rows(runs), Rows(runs'), Describe(c, cfg, sqrt), cfg.zThreshold);
  }
}
