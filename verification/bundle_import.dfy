// The counters of a bundle import, internal/bundle/bundle.go.
module BundleImports {
  import opened Bundles
  import Sets

  // What the data store answers for one item.
  datatype Answer = Stored | Present | Refused

  // One answer per item of each section.
  type Answers = Section -> seq<Answer>

  datatype Options = Options(
    benchmarks: bool, baselines: bool, workloads: bool, runProfiles: bool, infraProfiles: bool, logs: bool)

  datatype Tally = Tally(imported: nat, skipped: nat)

  // The texts of the warnings are not modelled, only which section they are about.
  datatype ImportResult = ImportResult(
    success: bool, benchmarks: Tally, baselines: Tally, workloads: Tally,
    runProfiles: Tally, infraProfiles: Tally, logs: Tally, warnings: seq<Section>)
  {
    function Imported(): nat {
      benchmarks.imported + baselines.imported + workloads.imported
      + runProfiles.imported + infraProfiles.imported + logs.imported
    }

    function Skipped(): nat {
      benchmarks.skipped + baselines.skipped + workloads.skipped
      + runProfiles.skipped + infraProfiles.skipped + logs.skipped
    }
  }

  function CountOf(answers: seq<Answer>, a: Answer): nat {
    if answers == [] then 0
    else CountOf(answers[..|answers| - 1], a) + if answers[|answers| - 1] == a then 1 else 0
  }

  predicate Fits(b: Bundle, answers: Answers) {
    forall s :: |answers(s)| == |Get(b, s)|
  }

  // The items an import looks at.
  function EnabledItems(b: Bundle, o: Options): nat {
    (if o.benchmarks then |b.benchmarks| else 0) + (if o.baselines then |b.baselines| else 0)
    + (if o.workloads then |b.workloads| else 0) + (if o.runProfiles then |b.runProfiles| else 0)
    + (if o.infraProfiles then |b.infraProfiles| else 0) + (if o.logs then |b.logs| else 0)
  }

  predicate TalliedSection(t: Tally, answers: seq<Answer>, enabled: bool) {
    t == if enabled then Tally(CountOf(answers, Stored), CountOf(answers, Present)) else Tally(0, 0)
  }

  // A log is stored or refused; a refused one is skipped and warned about.
  predicate TalliedLogs(t: Tally, answers: seq<Answer>, enabled: bool) {
    t == if enabled then Tally(CountOf(answers, Stored) + CountOf(answers, Present), CountOf(answers, Refused)) else Tally(0, 0)
  }

  function Warned(answers: seq<Answer>, enabled: bool): nat {
    if enabled then CountOf(answers, Refused) else 0
  }

  lemma {:induction false} CountIs(answers: seq<Answer>, a: Answer)
    ensures CountOf(answers, a) == |Sets.Positions(answers, (x: Answer) => x == a)|
  {
    if answers != [] {
      CountIs(answers[..|answers| - 1], a);
      Sets.LastPosition(answers, (x: Answer) => x == a);
    }
  }

  // A section's tally counts the items that were stored and those that were present.
  lemma SectionTally(t: Tally, answers: seq<Answer>, enabled: bool)
    requires TalliedSection(t, answers, enabled)
    ensures enabled ==> t.imported == |Sets.Positions(answers, (x: Answer) => x == Stored)|
    ensures enabled ==> t.skipped == |Sets.Positions(answers, (x: Answer) => x == Present)|
    ensures !enabled ==> t.imported == t.skipped == 0
  {
    CountIs(answers, Stored);
    CountIs(answers, Present);
  }

  // The logs' tally counts those that were refused, and the others.
  lemma LogsTally(t: Tally, answers: seq<Answer>, enabled: bool)
    requires TalliedLogs(t, answers, enabled)
    ensures enabled ==> t.skipped == |Sets.Positions(answers, (x: Answer) => x == Refused)|
    ensures enabled ==> t.imported + t.skipped == |answers|
    ensures !enabled ==> t.imported == t.skipped == 0
  {
    CountIs(answers, Refused);
    AnswersPartition(answers);
  }

  lemma {:induction false} AnswersPartition(answers: seq<Answer>)
    ensures CountOf(answers, Stored) + CountOf(answers, Present) + CountOf(answers, Refused) == |answers|
  {
    if answers != [] {
      AnswersPartition(answers[..|answers| - 1]);
    }
  }

  // One section other than the logs. Each refused item leaves a warning.
  method ImportSection(s: Section, items: seq<Item>, answers: seq<Answer>, enabled: bool, warnings: seq<Section>)
    returns (t: Tally, warnings': seq<Section>)
    requires |answers| == |items|
    ensures TalliedSection(t, answers, enabled)
    ensures warnings' == warnings + seq(Warned(answers, enabled), _ => s)
    ensures t.imported + t.skipped + |warnings'| - |warnings| == if enabled then |items| else 0
  {
    t, warnings' := Tally(0, 0), warnings;
    if enabled && |items| > 0 {
      for i := 0 to |items|
        invariant t == Tally(CountOf(answers[..i], Stored), CountOf(answers[..i], Present))
        invariant warnings' == warnings + seq(CountOf(answers[..i], Refused), _ => s)
      {
        assert answers[..i + 1][..i] == answers[..i];
        match answers[i] {
          case Refused => warnings' := warnings' + [s];
          case Stored => t := t.(imported := t.imported + 1);
          case Present => t := t.(skipped := t.skipped + 1);
        }
      }
    }
    assert answers[..|items|] == answers;
    AnswersPartition(answers);
  }

  method ImportLogs(items: seq<Item>, answers: seq<Answer>, enabled: bool, warnings: seq<Section>)
    returns (t: Tally, warnings': seq<Section>)
    requires |answers| == |items|
    ensures TalliedLogs(t, answers, enabled)
    ensures warnings' == warnings + seq(Warned(answers, enabled), _ => Logs)
    ensures t.imported + t.skipped == if enabled then |items| else 0
    ensures t.skipped == |warnings'| - |warnings|
  {
    t, warnings' := Tally(0, 0), warnings;
    if enabled && |items| > 0 {
      for i := 0 to |items|
        invariant t.imported == CountOf(answers[..i], Stored) + CountOf(answers[..i], Present)
        invariant t.skipped == CountOf(answers[..i], Refused)
        invariant warnings' == warnings + seq(CountOf(answers[..i], Refused), _ => Logs)
      {
        assert answers[..i + 1][..i] == answers[..i];
        if answers[i].Refused? {
          warnings', t := warnings' + [Logs], t.(skipped := t.skipped + 1);
        } else {
          t := t.(imported := t.imported + 1);
        }
      }
    }
    assert answers[..|items|] == answers;
    AnswersPartition(answers);
  }

  // Every enabled item is imported, skipped or warned about, once; a refused log is
  // both skipped and warned about. An import always reports success.
  method Import(b: Bundle, o: Options, answers: Answers) returns (r: ImportResult)
    requires Fits(b, answers)
    ensures r.success
    ensures TalliedSection(r.benchmarks, answers(Benchmarks), o.benchmarks)
    ensures TalliedSection(r.baselines, answers(Baselines), o.baselines)
    ensures TalliedSection(r.workloads, answers(Workloads), o.workloads)
    ensures TalliedSection(r.runProfiles, answers(RunProfiles), o.runProfiles)
    ensures TalliedSection(r.infraProfiles, answers(InfraProfiles), o.infraProfiles)
    ensures TalliedLogs(r.logs, answers(Logs), o.logs)
    ensures r.Imported() + r.Skipped() + |r.warnings| - r.logs.skipped == EnabledItems(b, o)
  {
    var benchmarks, w1 := ImportSection(Benchmarks, b.benchmarks, answers(Benchmarks), o.benchmarks, []);
    var baselines, w2 := ImportSection(Baselines, b.baselines, answers(Baselines), o.baselines, w1);
    var workloads, w3 := ImportSection(Workloads, b.workloads, answers(Workloads), o.workloads, w2);
    var runProfiles, w4 := ImportSection(RunProfiles, b.runProfiles, answers(RunProfiles), o.runProfiles, w3);
    var infraProfiles, w5 := ImportSection(InfraProfiles, b.infraProfiles, answers(InfraProfiles), o.infraProfiles, w4);
    var logs, w6 := ImportLogs(b.logs, answers(Logs), o.logs, w5);
    r := ImportResult(true, benchmarks, baselines, workloads, runProfiles, infraProfiles, logs, w6);
  }
}
