// What the shared set of keys achieves over all nine passes of the detector.
module AnomalyBookkeeping {
  import opened Reals
  import opened Anomalies
  import Sets
  import opened Wrappers

  // ---- Keys ----

  predicate ColonFree(name: string) {
    ':' !in name
  }

  lemma LastColon(k: string, i: nat)
    requires i < |k| && ColonFree(k[i + 1..])
    ensures forall j :: i < j < |k| ==> k[j] != ':'
  {
    forall j | i < j < |k|
      ensures k[j] != ':'
    {
      assert k[i + 1..][j - i - 1] == k[j];
    }
  }

  // The last colon splits a key, whatever the run ID holds.
  lemma KeyTextInjective(r: string, m: string, r': string, m': string)
    requires ColonFree(m) && ColonFree(m') && KeyText(r, m) == KeyText(r', m')
    ensures r == r' && m == m'
  {
    var k, k' := KeyText(r, m), KeyText(r', m');
    assert k[|r|] == ':' && k'[|r'|] == ':';
    assert k[|r| + 1..] == m && k'[|r'| + 1..] == m';
    LastColon(k, |r|);
    LastColon(k, |r'|);
    assert k[..|r|] == r && k'[..|r'|] == r';
  }

  lemma NamesColonFree(metric: Metric)
    ensures ColonFree(NameOf(metric))
  {}

  lemma NamesDiffer(m: Metric, m': Metric)
    requires NameOf(m) == NameOf(m')
    ensures m == m'
  {
    assert NameOf(Throughput)[0] == 't' && NameOf(AvgLatency)[0] == 'a' && NameOf(P99Latency)[0] == 'p';
  }

  lemma KeyInjective(r: string, m: Metric, r': string, m': Metric)
    requires Key(r, m) == Key(r', m')
    ensures r == r' && m == m'
  {
    NamesColonFree(m);
    NamesColonFree(m');
    KeyTextInjective(r, NameOf(m), r', NameOf(m'));
    NamesDiffer(m, m');
  }

  function KeyOf(a: Anomaly): string {
    Key(a.runId, a.metric)
  }

  function Keys(anomalies: seq<Anomaly>): set<string> {
    set a | a in anomalies :: KeyOf(a)
  }

  // ---- What every pass keeps, with or without distinct run IDs ----

  predicate Once(anomalies: seq<Anomaly>) {
    forall i, j :: 0 <= i < j < |anomalies| ==> KeyOf(anomalies[i]) != KeyOf(anomalies[j])
  }

  // The set holds the keys of the anomalies, and no key was reported twice.
  ghost predicate Consistent(st: PassState) {
    st.seen == Keys(st.anomalies) && Once(st.anomalies)
  }

  // Each verdict is about its own row.
  predicate Labelled(ids: seq<string>, metric: Metric, found: seq<Option<Anomaly>>) {
    && |found| == |ids|
    && forall i :: 0 <= i < |ids| && found[i].Some? ==> found[i].value.runId == ids[i] && found[i].value.metric == metric
  }

  lemma KeysSnoc(anomalies: seq<Anomaly>, a: Anomaly)
    ensures Keys(anomalies + [a]) == Keys(anomalies) + {KeyOf(a)}
  {
    assert forall x :: x in anomalies + [a] <==> x in anomalies || x == a;
    assert KeyOf(a) in Keys(anomalies + [a]) by {
      assert a in anomalies + [a];
    }
    forall k | k in Keys(anomalies)
      ensures k in Keys(anomalies + [a])
    {
      var x :| x in anomalies && KeyOf(x) == k;
      assert x in anomalies + [a];
    }
  }

  lemma OnceSnoc(anomalies: seq<Anomaly>, a: Anomaly)
    ensures Once(anomalies + [a]) <==> Once(anomalies) && KeyOf(a) !in Keys(anomalies)
  {
    var all := anomalies + [a];
    assert forall i :: 0 <= i < |anomalies| ==> all[i] == anomalies[i];
    if Once(all) {
      forall x | x in anomalies
        ensures KeyOf(x) != KeyOf(a)
      {
        var i :| 0 <= i < |anomalies| && anomalies[i] == x;
        assert all[i] == x && all[|anomalies|] == a;
      }
    }
  }

  lemma ReportKeeps(st: PassState, id: string, metric: Metric, verdict: Option<Anomaly>)
    requires Consistent(st) && (verdict.Some? ==> verdict.value.runId == id && verdict.value.metric == metric)
    ensures Consistent(Report(st, Key(id, metric), verdict))
  {
    if Key(id, metric) !in st.seen && verdict.Some? {
      KeysSnoc(st.anomalies, verdict.value);
      OnceSnoc(st.anomalies, verdict.value);
    }
  }

  lemma {:induction false} PassKeeps(st: PassState, ids: seq<string>, metric: Metric, found: seq<Option<Anomaly>>,
                                     n: nat)
    requires Consistent(st) && Labelled(ids, metric, found) && n <= |ids|
    ensures Consistent(PassTo(st, ids, metric, found, n))
  {
    if n > 0 {
      PassKeeps(st, ids, metric, found, n - 1);
      ReportKeeps(PassTo(st, ids, metric, found, n - 1), ids[n - 1], metric, found[n - 1]);
    }
  }

  lemma ZLabelled(ids: seq<string>, values: seq<real>, metric: Metric, stats: MetricStatistics, t: real, higher: bool)
    requires |ids| == |values|
    ensures Labelled(ids, metric, ZFound(ids, values, metric, stats, t, higher))
  {}

  lemma IqrLabelled(ids: seq<string>, values: seq<real>, metric: Metric, stats: MetricStatistics)
    requires |ids| == |values|
    ensures Labelled(ids, metric, IqrFound(ids, values, metric, stats))
  {}

  lemma MaLabelled(ids: seq<string>, values: seq<real>, metric: Metric, window: nat, t: real, higher: bool)
    requires |ids| == |values| && window >= 1
    ensures Labelled(ids, metric, MaFound(ids, values, metric, window, t, higher))
  {}

  ghost predicate AllLabelled(ids: seq<string>, f: Findings) {
    forall metric: Metric :: Labelled(ids, metric, f.Of(metric))
  }

  lemma ZFindingsLabelled(c: Columns, d: Description, threshold: real)
    requires c.Even()
    ensures AllLabelled(c.ids, ZFindings(c, d, threshold))
  {
    ZLabelled(c.ids, c.ops, Throughput, d.ops, threshold, true);
    ZLabelled(c.ids, c.avg, AvgLatency, d.avg, threshold, false);
    ZLabelled(c.ids, c.p99, P99Latency, d.p99, threshold, false);
  }

  lemma IqrFindingsLabelled(c: Columns, d: Description)
    requires c.Even()
    ensures AllLabelled(c.ids, IqrFindings(c, d))
  {
    IqrLabelled(c.ids, c.ops, Throughput, d.ops);
    IqrLabelled(c.ids, c.avg, AvgLatency, d.avg);
    IqrLabelled(c.ids, c.p99, P99Latency, d.p99);
  }

  lemma MaFindingsLabelled(c: Columns, cfg: Config)
    requires c.Even() && cfg.window >= 1
    ensures AllLabelled(c.ids, MaFindings(c, cfg))
  {
    MaLabelled(c.ids, c.ops, Throughput, cfg.window, cfg.deviation, true);
    MaLabelled(c.ids, c.avg, AvgLatency, cfg.window, cfg.deviation, false);
    MaLabelled(c.ids, c.p99, P99Latency, cfg.window, cfg.deviation, false);
  }

  lemma SweepKeeps(st: PassState, ids: seq<string>, f: Findings)
    requires Consistent(st) && AllLabelled(ids, f) && f.Sized(|ids|)
    ensures Consistent(Sweep(st, ids, f))
  {
    assert Labelled(ids, Throughput, f.Of(Throughput)) && Labelled(ids, AvgLatency, f.Of(AvgLatency));
    assert Labelled(ids, P99Latency, f.Of(P99Latency));
    PassKeeps(st, ids, Throughput, f.ops, |ids|);
    var st1 := Pass(st, ids, Throughput, f.ops);
    PassKeeps(st1, ids, AvgLatency, f.avg, |ids|);
    PassKeeps(Pass(st1, ids, AvgLatency, f.avg), ids, P99Latency, f.p99, |ids|);
  }

  lemma SweepsKeep(ids: seq<string>, z: Findings, q: Findings, m: Findings)
    requires z.Sized(|ids|) && q.Sized(|ids|) && m.Sized(|ids|)
    requires AllLabelled(ids, z) && AllLabelled(ids, q) && AllLabelled(ids, m)
    ensures var st := Sweep(Sweep(START, ids, z), ids, q);
            Consistent(st) && Consistent(Sweep(st, ids, m))
  {
    SweepKeeps(START, ids, z);
    SweepKeeps(Sweep(START, ids, z), ids, q);
    SweepKeeps(Sweep(Sweep(START, ids, z), ids, q), ids, m);
  }

  lemma PassesKeep(c: Columns, d: Description, runs: nat, cfg: Config)
    requires c.Even() && cfg.window >= 1
    ensures Consistent(AfterPasses(START, c, d, runs, cfg))
  {
    ZFindingsLabelled(c, d, cfg.zThreshold);
    IqrFindingsLabelled(c, d);
    MaFindingsLabelled(c, cfg);
    SweepsKeep(c.ids, ZFindings(c, d, cfg.zThreshold), IqrFindings(c, d), MaFindings(c, cfg));
  }

  // After the whole run the set is exactly the keys reported, each once.
  lemma SeenIsReported(runs: seq<BenchmarkRun>, cfg: Config, sqrt: real -> real)
    requires cfg.window >= 1
    ensures Consistent(Detected(runs, cfg, sqrt))
  {
    if |runs| >= cfg.minPoints {
      PassesKeep(ColumnsOf(runs), Describe(ColumnsOf(runs), cfg, sqrt), |runs|, cfg);
    }
  }

  // ---- The totals of a report ----

  lemma {:induction false} SeveritiesPartition(anomalies: seq<Anomaly>)
    ensures CountSeverity(anomalies, Warning) + CountSeverity(anomalies, Critical) == |anomalies|
  {
    if anomalies != [] {
      SeveritiesPartition(anomalies[..|anomalies| - 1]);
    }
  }

  // Each count is the number of anomalies of that severity.
  lemma {:induction false} SeverityCounted(anomalies: seq<Anomaly>, severity: Severity)
    ensures CountSeverity(anomalies, severity) == |Sets.Positions(anomalies, (a: Anomaly) => a.severity == severity)|
  {
    if anomalies != [] {
      SeverityCounted(anomalies[..|anomalies| - 1], severity);
      Sets.LastPosition(anomalies, (a: Anomaly) => a.severity == severity);
    }
  }

  lemma {:induction false} DistinctKeysCounted(anomalies: seq<Anomaly>)
    requires Once(anomalies)
    ensures |Keys(anomalies)| == |anomalies|
  {
    if anomalies == [] {
      assert Keys([]) == {};
    } else {
      var n := |anomalies| - 1;
      assert anomalies == anomalies[..n] + [anomalies[n]];
      OnceSnoc(anomalies[..n], anomalies[n]);
      DistinctKeysCounted(anomalies[..n]);
      KeysSnoc(anomalies[..n], anomalies[n]);
    }
  }

  function KeysFor(runIds: set<string>, metric: Metric): set<string> {
    set r | r in runIds :: Key(r, metric)
  }

  lemma {:induction false} KeysForCounted(runIds: set<string>, metric: Metric)
    ensures |KeysFor(runIds, metric)| <= |runIds|
  {
    if runIds == {} {
      assert KeysFor({}, metric) == {};
    } else {
      var r :| r in runIds;
      KeysForCounted(runIds - {r}, metric);
      assert KeysFor(runIds, metric) == KeysFor(runIds - {r}, metric) + {Key(r, metric)};
    }
  }

  lemma {:induction false} RunIdsCounted(anomalies: seq<Anomaly>)
    ensures |RunIds(anomalies)| <= |anomalies|
  {
    if anomalies == [] {
      assert RunIds([]) == {};
    } else {
      var n := |anomalies| - 1;
      RunIdsCounted(anomalies[..n]);
      assert RunIds(anomalies) == RunIds(anomalies[..n]) + {anomalies[n].runId} by {
        assert anomalies == anomalies[..n] + [anomalies[n]];
      }
    }
  }

  function OfRun(anomalies: seq<Anomaly>, id: string): (r: seq<Anomaly>)
    ensures forall a :: a in r <==> a in anomalies && a.runId == id
  {
    if anomalies == [] then []
    else
      var n := |anomalies| - 1;
      assert anomalies == anomalies[..n] + [anomalies[n]];
      OfRun(anomalies[..n], id) + if anomalies[n].runId == id then [anomalies[n]] else []
  }

  lemma {:induction false} OfRunOnce(anomalies: seq<Anomaly>, id: string)
    requires Once(anomalies)
    ensures Once(OfRun(anomalies, id))
  {
    if anomalies != [] {
      var n := |anomalies| - 1;
      assert anomalies == anomalies[..n] + [anomalies[n]];
      OnceSnoc(anomalies[..n], anomalies[n]);
      OfRunOnce(anomalies[..n], id);
      OnceSnoc(OfRun(anomalies[..n], id), anomalies[n]);
    }
  }

  lemma OneToThree(anomalies: seq<Anomaly>, id: string)
    requires Once(anomalies) && id in RunIds(anomalies)
    ensures 1 <= |OfRun(anomalies, id)| <= 3
  {
    OfRunOnce(anomalies, id);
    AtMostThreeEach(OfRun(anomalies, id), {id});
    var a :| a in anomalies && a.runId == id;
    assert a in OfRun(anomalies, id);
  }

  // Every anomalous run has between one and three anomalies.
  lemma AnomalousRunsBound(runs: seq<BenchmarkRun>, cfg: Config, sqrt: real -> real)
    requires cfg.window >= 1
    ensures var anomalies := Detected(runs, cfg, sqrt).anomalies;
            && (forall id :: id in RunIds(anomalies) ==> 1 <= |OfRun(anomalies, id)| <= 3)
            && |RunIds(anomalies)| <= |anomalies| <= 3 * |RunIds(anomalies)|
  {
    var st := Detected(runs, cfg, sqrt);
    SeenIsReported(runs, cfg, sqrt);
    forall id | id in RunIds(st.anomalies)
      ensures 1 <= |OfRun(st.anomalies, id)| <= 3
    {
      OneToThree(st.anomalies, id);
    }
    RunIdsCounted(st.anomalies);
    AtMostThreeEach(st.anomalies, RunIds(st.anomalies));
  }

  lemma AtMostThreeEach(anomalies: seq<Anomaly>, ids: set<string>)
    requires Once(anomalies) && forall a :: a in anomalies ==> a.runId in ids
    ensures |anomalies| <= 3 * |ids|
  {
    DistinctKeysCounted(anomalies);
    KeysForCounted(ids, Throughput);
    KeysForCounted(ids, AvgLatency);
    KeysForCounted(ids, P99Latency);
    KeysCovered(anomalies, ids);
    Sets.SubsetSize(Keys(anomalies), KeysFor(ids, Throughput) + KeysFor(ids, AvgLatency) + KeysFor(ids, P99Latency));
  }

  lemma KeysCovered(anomalies: seq<Anomaly>, ids: set<string>)
    requires forall a :: a in anomalies ==> a.runId in ids
    ensures Keys(anomalies) <= KeysFor(ids, Throughput) + KeysFor(ids, AvgLatency) + KeysFor(ids, P99Latency)
  {
    forall a | a in anomalies
      ensures KeyOf(a) in KeysFor(ids, a.metric)
    {}
  }

  // ---- Which anomalies a run reports: the first method that flags the value ----

  predicate DistinctIds(ids: seq<string>) {
    forall i, j :: 0 <= i < j < |ids| ==> ids[i] != ids[j]
  }

  // For one metric, st holds exactly the verdicts of found.
  ghost predicate Holds(st: PassState, ids: seq<string>, metric: Metric, found: seq<Option<Anomaly>>) {
    && Labelled(ids, metric, found)
    && (forall a: Anomaly :: a.metric == metric ==> (a in st.anomalies <==> Some(a) in found))
    && (forall i :: 0 <= i < |ids| ==> (Key(ids[i], metric) in st.seen <==> found[i].Some?))
  }

  function First(x: Option<Anomaly>, y: Option<Anomaly>): Option<Anomaly> {
    if x.Some? then x else y
  }

  // The verdicts of f, and on the first n rows those of g where f has none.
  function Firsts(f: seq<Option<Anomaly>>, g: seq<Option<Anomaly>>, n: nat): (r: seq<Option<Anomaly>>)
    requires |f| == |g|
    ensures |r| == |f|
  {
    seq(|f|, i requires 0 <= i < |f| => if i < n then First(f[i], g[i]) else f[i])
  }

  lemma ReportAdds(st: PassState, ids: seq<string>, metric: Metric, found: seq<Option<Anomaly>>, i: nat,
                   verdict: Option<Anomaly>)
    requires Holds(st, ids, metric, found) && DistinctIds(ids) && i < |ids|
    requires verdict.Some? ==> verdict.value.runId == ids[i] && verdict.value.metric == metric
    ensures Holds(Report(st, Key(ids[i], metric), verdict), ids, metric, found[i := First(found[i], verdict)])
  {
    var next, f := Report(st, Key(ids[i], metric), verdict), found[i := First(found[i], verdict)];
    if found[i].Some? || verdict.None? {
      assert f == found && next == st;
    } else {
      forall j | 0 <= j < |ids|
        ensures Key(ids[j], metric) in next.seen <==> f[j].Some?
      {
        if Key(ids[j], metric) == Key(ids[i], metric) {
          KeyInjective(ids[j], metric, ids[i], metric);
        }
      }
      forall a: Anomaly | a.metric == metric
        ensures a in next.anomalies <==> Some(a) in f
      {
        assert f[i] == verdict && found[i] == None;
        if Some(a) in found {
          var j :| 0 <= j < |found| && found[j] == Some(a);
          assert f[j] == Some(a);
        }
      }
    }
  }

  lemma {:induction false} PassAdds(st: PassState, ids: seq<string>, metric: Metric, f: seq<Option<Anomaly>>,
                                    g: seq<Option<Anomaly>>, n: nat)
    requires Holds(st, ids, metric, f) && Labelled(ids, metric, g) && DistinctIds(ids) && n <= |ids|
    ensures Holds(PassTo(st, ids, metric, g, n), ids, metric, Firsts(f, g, n))
  {
    if n == 0 {
      assert Firsts(f, g, 0) == f;
    } else {
      PassAdds(st, ids, metric, f, g, n - 1);
      PassAddsNext(PassTo(st, ids, metric, g, n - 1), ids, metric, f, g, n - 1);
    }
  }

  lemma PassAddsNext(st: PassState, ids: seq<string>, metric: Metric, f: seq<Option<Anomaly>>,
                     g: seq<Option<Anomaly>>, n: nat)
    requires |f| == |ids| && Labelled(ids, metric, g) && DistinctIds(ids) && n < |ids|
    requires Holds(st, ids, metric, Firsts(f, g, n))
    ensures Holds(Report(st, Key(ids[n], metric), g[n]), ids, metric, Firsts(f, g, n + 1))
  {
    FirstsNext(f, g, n);
    ReportAdds(st, ids, metric, Firsts(f, g, n), n, g[n]);
  }

  lemma FirstsNext(f: seq<Option<Anomaly>>, g: seq<Option<Anomaly>>, n: nat)
    requires |f| == |g| && n < |f|
    ensures Firsts(f, g, n)[n] == f[n]
    ensures Firsts(f, g, n + 1) == Firsts(f, g, n)[n := First(f[n], g[n])]
  {}

  // Passes over other metrics do not interfere.
  lemma {:induction false} OtherPass(st: PassState, ids: seq<string>, metric: Metric, f: seq<Option<Anomaly>>,
                                     rows: seq<string>, other: Metric, g: seq<Option<Anomaly>>, n: nat)
    requires Holds(st, ids, metric, f) && Labelled(rows, other, g) && other != metric && n <= |rows|
    ensures Holds(PassTo(st, rows, other, g, n), ids, metric, f)
  {
    if n > 0 {
      OtherPass(st, ids, metric, f, rows, other, g, n - 1);
      forall i | 0 <= i < |ids|
        ensures Key(ids[i], metric) != Key(rows[n - 1], other)
      {
        if Key(ids[i], metric) == Key(rows[n - 1], other) {
          KeyInjective(ids[i], metric, rows[n - 1], other);
        }
      }
    }
  }

  // Row by row, metric by metric.
  ghost predicate HoldsAll(st: PassState, ids: seq<string>, f: Findings) {
    forall metric: Metric :: Holds(st, ids, metric, f.Of(metric))
  }

  function FirstFindings(f: Findings, g: Findings, n: nat): (r: Findings)
    requires f.Sized(n) && g.Sized(n)
    ensures r.Sized(n)
  {
    Findings(Firsts(f.ops, g.ops, n), Firsts(f.avg, g.avg, n), Firsts(f.p99, g.p99, n))
  }

  // One pass of a sweep: its own metric is extended, the others stay.
  lemma PassInSweep(st: PassState, ids: seq<string>, m: Metric, f: Findings, h: Findings, g: seq<Option<Anomaly>>)
    requires HoldsAll(st, ids, f) && Labelled(ids, m, g) && DistinctIds(ids)
    requires f.Sized(|ids|) && h.Sized(|ids|) && h.Of(m) == Firsts(f.Of(m), g, |ids|)
    requires forall metric: Metric :: metric != m ==> h.Of(metric) == f.Of(metric)
    ensures HoldsAll(Pass(st, ids, m, g), ids, h)
  {
    forall metric: Metric
      ensures Holds(Pass(st, ids, m, g), ids, metric, h.Of(metric))
    {
      if metric == m {
        PassAdds(st, ids, m, f.Of(m), g, |ids|);
      } else {
        OtherPass(st, ids, metric, f.Of(metric), ids, m, g, |ids|);
      }
    }
  }

  lemma SweepAdds(st: PassState, ids: seq<string>, f: Findings, g: Findings)
    requires HoldsAll(st, ids, f) && AllLabelled(ids, g) && DistinctIds(ids) && f.Sized(|ids|) && g.Sized(|ids|)
    ensures HoldsAll(Sweep(st, ids, g), ids, FirstFindings(f, g, |ids|))
  {
    var f1 := f.(ops := Firsts(f.ops, g.ops, |ids|));
    var f2 := f1.(avg := Firsts(f.avg, g.avg, |ids|));
    var st1 := Pass(st, ids, Throughput, g.ops);
    var st2 := Pass(st1, ids, AvgLatency, g.avg);
    assert Labelled(ids, Throughput, g.Of(Throughput)) && Labelled(ids, AvgLatency, g.Of(AvgLatency));
    assert Labelled(ids, P99Latency, g.Of(P99Latency));
    PassInSweep(st, ids, Throughput, f, f1, g.ops);
    PassInSweep(st1, ids, AvgLatency, f1, f2, g.avg);
    PassInSweep(st2, ids, P99Latency, f2, FirstFindings(f, g, |ids|), g.p99);
  }

  // ---- The reference: each row is judged once, by the first method that flags it ----

  function RowVerdict(id: string, values: seq<real>, i: nat, metric: Metric, stats: MetricStatistics, cfg: Config,
                      higher: bool): Option<Anomaly>
    requires i < |values| && cfg.window >= 1
  {
    First(First(ZVerdict(id, values[i], metric, stats, cfg.zThreshold, higher),
                IqrVerdict(id, values[i], metric, stats)),
          MaVerdict(id, values, i, metric, cfg.window, cfg.deviation, higher))
  }

  function RowVerdicts(ids: seq<string>, values: seq<real>, metric: Metric, stats: MetricStatistics, cfg: Config,
                       higher: bool): (r: seq<Option<Anomaly>>)
    requires |values| == |ids| && cfg.window >= 1
    ensures |r| == |values|
  {
    seq(|values|, i requires 0 <= i < |values| => RowVerdict(ids[i], values, i, metric, stats, cfg, higher))
  }

  function Reference(c: Columns, d: Description, cfg: Config): (f: Findings)
    requires c.Even() && cfg.window >= 1
    ensures f.Sized(|c.ids|)
  {
    Findings(RowVerdicts(c.ids, c.ops, Throughput, d.ops, cfg, true),
             RowVerdicts(c.ids, c.avg, AvgLatency, d.avg, cfg, false),
             RowVerdicts(c.ids, c.p99, P99Latency, d.p99, cfg, false))
  }

  function Silence(n: nat): (f: seq<Option<Anomaly>>)
    ensures |f| == n
  {
    seq(n, _ => None)
  }

  function SilentFindings(n: nat): (f: Findings)
    ensures f.Sized(n)
  {
    Findings(Silence(n), Silence(n), Silence(n))
  }

  lemma FirstAfterSilence(f: seq<Option<Anomaly>>)
    ensures Firsts(Silence(|f|), f, |f|) == f
  {}

  lemma FewRows(runs: seq<BenchmarkRun>)
    ensures |ColumnsOf(runs).ids| <= |runs|
  {}

  lemma ReferenceFor(ids: seq<string>, values: seq<real>, metric: Metric, stats: MetricStatistics, cfg: Config,
                     higher: bool)
    requires |values| == |ids| && cfg.window >= 1
    ensures var z := ZFound(ids, values, metric, stats, cfg.zThreshold, higher);
            var q := IqrFound(ids, values, metric, stats);
            var m := MaFound(ids, values, metric, cfg.window, cfg.deviation, higher);
            && RowVerdicts(ids, values, metric, stats, cfg, higher) == Firsts(Firsts(z, q, |values|), m, |values|)
            && (|values| <= cfg.window ==>
                  RowVerdicts(ids, values, metric, stats, cfg, higher) == Firsts(z, q, |values|))
  {}

  lemma SilentStart(ids: seq<string>, metric: Metric)
    ensures Holds(START, ids, metric, Silence(|ids|))
  {
    assert forall a: Anomaly :: Some(a) !in Silence(|ids|);
  }

  lemma PassesReport(c: Columns, d: Description, runs: nat, cfg: Config)
    requires c.Even() && cfg.window >= 1 && DistinctIds(c.ids) && |c.ids| <= runs
    ensures HoldsAll(AfterPasses(START, c, d, runs, cfg), c.ids, Reference(c, d, cfg))
  {
    ZFindingsLabelled(c, d, cfg.zThreshold);
    IqrFindingsLabelled(c, d);
    MaFindingsLabelled(c, cfg);
    ReferenceIsFirst(c, d, cfg);
    SweepsReport(c.ids, ZFindings(c, d, cfg.zThreshold), IqrFindings(c, d), MaFindings(c, cfg), runs >= cfg.window,
                 Reference(c, d, cfg));
  }

  // With distinct run IDs the detector reports exactly the reference verdicts,
  // though it works pass by pass with one shared set.
  lemma FirstMethodWins(runs: seq<BenchmarkRun>, cfg: Config, sqrt: real -> real)
    requires cfg.window >= 1 && |runs| >= cfg.minPoints && DistinctIds(ColumnsOf(runs).ids)
    ensures var c := ColumnsOf(runs);
            HoldsAll(Detected(runs, cfg, sqrt), c.ids, Reference(c, Describe(c, cfg, sqrt), cfg))
  {
    FewRows(runs);
    PassesReport(ColumnsOf(runs), Describe(ColumnsOf(runs), cfg, sqrt), |runs|, cfg);
  }

  lemma SweepsReport(ids: seq<string>, z: Findings, q: Findings, m: Findings, averages: bool, ref: Findings)
    requires z.Sized(|ids|) && q.Sized(|ids|) && m.Sized(|ids|)
    requires AllLabelled(ids, z) && AllLabelled(ids, q) && AllLabelled(ids, m) && DistinctIds(ids)
    requires if averages then ref == FirstFindings(FirstFindings(z, q, |ids|), m, |ids|)
             else ref == FirstFindings(z, q, |ids|)
    ensures var st := Sweep(Sweep(START, ids, z), ids, q);
            HoldsAll(if averages then Sweep(st, ids, m) else st, ids, ref)
  {
    TwoSweeps(ids, z, q);
    if averages {
      SweepAdds(Sweep(Sweep(START, ids, z), ids, q), ids, FirstFindings(z, q, |ids|), m);
    }
  }

  lemma TwoSweeps(ids: seq<string>, z: Findings, q: Findings)
    requires z.Sized(|ids|) && q.Sized(|ids|) && AllLabelled(ids, z) && AllLabelled(ids, q) && DistinctIds(ids)
    ensures HoldsAll(Sweep(Sweep(START, ids, z), ids, q), ids, FirstFindings(z, q, |ids|))
  {
    forall metric: Metric
      ensures Holds(START, ids, metric, SilentFindings(|ids|).Of(metric))
    {
      SilentStart(ids, metric);
    }
    SweepAdds(START, ids, SilentFindings(|ids|), z);
    FirstAfterSilence(z.ops);
    FirstAfterSilence(z.avg);
    FirstAfterSilence(z.p99);
    SweepAdds(Sweep(START, ids, z), ids, z, q);
  }

  lemma ReferenceIsFirst(c: Columns, d: Description, cfg: Config)
    requires c.Even() && cfg.window >= 1
    ensures var zq := FirstFindings(ZFindings(c, d, cfg.zThreshold), IqrFindings(c, d), |c.ids|);
            && Reference(c, d, cfg) == FirstFindings(zq, MaFindings(c, cfg), |c.ids|)
            && (|c.ids| <= cfg.window ==> Reference(c, d, cfg) == zq)
  {
    ReferenceFor(c.ids, c.ops, Throughput, d.ops, cfg, true);
    ReferenceFor(c.ids, c.avg, AvgLatency, d.avg, cfg, false);
    ReferenceFor(c.ids, c.p99, P99Latency, d.p99, cfg, false);
  }
}
