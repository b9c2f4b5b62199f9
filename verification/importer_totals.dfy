// What an import counts, in terms of the batch, the store and the storage answers.
module ImporterTotals {
  import opened Importers
  import opened ImporterMerge
  import Sets
  import opened Wrappers

  // ---- Validation ----

  // A run is refused for the first of the three things it lacks.
  lemma ValidateExactly(run: BenchmarkRun)
    ensures Validate(run).None? <==> run.id != "" && run.status != "" && run.created
    ensures Validate(run) == Some(MissingId) <==> run.id == ""
    ensures Validate(run) == Some(MissingStatus) <==> run.id != "" && run.status == ""
    ensures Validate(run) == Some(MissingCreatedAt) <==> run.id != "" && run.status != "" && !run.created
  {}

  // ---- Which runs meet a stored record ----

  // One of the first n runs was saved under the ID.
  predicate SavedBefore(runs: seq<BenchmarkRun>, answers: seq<Answer>, o: Options, id: string, n: nat)
    requires |answers| == |runs| && n <= |runs|
  {
    exists j: nat :: j < n && Offers(runs[j], answers[j], o, id)
  }

  // The ID is in the initial store, or an earlier run of the batch was saved under it.
  predicate Taken(store: Store, runs: seq<BenchmarkRun>, answers: seq<Answer>, o: Options, k: nat)
    requires |answers| == |runs| && k < |runs|
  {
    runs[k].id in store || (!o.dryRun && SavedBefore(runs, answers, o, runs[k].id, k))
  }

  // Run k finds its ID taken.
  predicate Meets(store: Store, runs: seq<BenchmarkRun>, answers: seq<Answer>, o: Options, k: nat)
    requires |answers| == |runs| && k < |runs|
  {
    !answers[k].readFails && Taken(store, runs, answers, o, k)
  }

  // Whether the ID is stored when run k is handled, unless the batch is being renamed.
  lemma {:induction false} StoredExactlyWhen(store: Store, runs: seq<BenchmarkRun>, answers: seq<Answer>, o: Options,
                                             id: string)
    requires |answers| == |runs| && !o.resolution.Rename? && Import(store, runs, answers, o).Going?
    ensures id in Import(store, runs, answers, o).store
       <==> id in store || (!o.dryRun && SavedBefore(runs, answers, o, id, |runs|))
  {
    if runs != [] {
      var n := |runs| - 1;
      StoredExactlyWhen(store, runs[..n], answers[..n], o, id);
      OffersNext(runs, answers, o, id);
    }
  }

  lemma OffersNext(runs: seq<BenchmarkRun>, answers: seq<Answer>, o: Options, id: string)
    requires |answers| == |runs| > 0
    ensures SavedBefore(runs, answers, o, id, |runs|)
       <==> || SavedBefore(runs[..|runs| - 1], answers[..|runs| - 1], o, id, |runs| - 1)
            || Offers(runs[|runs| - 1], answers[|runs| - 1], o, id)
  {
    SavedFront(runs, answers, o, id, |runs| - 1, |runs| - 1);
  }

  lemma SavedFront(runs: seq<BenchmarkRun>, answers: seq<Answer>, o: Options, id: string, n: nat, k: nat)
    requires |answers| == |runs| && k <= n <= |runs|
    ensures SavedBefore(runs[..n], answers[..n], o, id, k) == SavedBefore(runs, answers, o, id, k)
  {
    forall j: nat | j < k
      ensures runs[..n][j] == runs[j] && answers[..n][j] == answers[j]
    {}
    if SavedBefore(runs, answers, o, id, k) {
      var j: nat :| j < k && Offers(runs[j], answers[j], o, id);
      assert Offers(runs[..n][j], answers[..n][j], o, id);
    }
  }

  lemma MeetsIs(store: Store, runs: seq<BenchmarkRun>, answers: seq<Answer>, o: Options)
    requires |answers| == |runs| > 0 && !o.resolution.Rename?
    requires Import(store, runs[..|runs| - 1], answers[..|runs| - 1], o).Going?
    ensures Meets(store, runs, answers, o, |runs| - 1)
       <==> Conflict(Import(store, runs[..|runs| - 1], answers[..|runs| - 1], o).store,
                     runs[|runs| - 1], answers[|runs| - 1])
  {
    var n := |runs| - 1;
    StoredExactlyWhen(store, runs[..n], answers[..n], o, runs[n].id);
    SavedFront(runs, answers, o, runs[n].id, n, n);
  }

  lemma MeetsFront(store: Store, runs: seq<BenchmarkRun>, answers: seq<Answer>, o: Options, n: nat, k: nat)
    requires |answers| == |runs| && k < n <= |runs|
    ensures Meets(store, runs[..n], answers[..n], o, k) == Meets(store, runs, answers, o, k)
  {
    SavedFront(runs, answers, o, runs[k].id, n, k);
  }

  // ---- The four counters ----

  datatype Outcome = Imported | Skipped | Replaced | Refused | Ignored

  // What happens to an accepted or refused run, given whether it finds its ID taken.
  function OutcomeOf(run: BenchmarkRun, a: Answer, o: Options, meets: bool): Outcome {
    var saved := o.dryRun || !a.saveFails;
    if !Accepted(run, o) then Refused
    else if !meets || o.resolution.Rename? then (if saved then Imported else Refused)
    else match o.resolution
      case Skip => Skipped
      case Replace => if saved then Replaced else Refused
      case _ => Ignored
  }

  function Fate(store: Store, runs: seq<BenchmarkRun>, answers: seq<Answer>, o: Options, k: nat): Outcome
    requires |answers| == |runs|
  {
    if k < |runs| then OutcomeOf(runs[k], answers[k], o, Meets(store, runs, answers, o, k)) else Ignored
  }

  function Ends(store: Store, runs: seq<BenchmarkRun>, answers: seq<Answer>, o: Options, outcome: Outcome): nat -> bool
    requires |answers| == |runs|
  {
    (k: nat) => Fate(store, runs, answers, o, k) == outcome
  }

  // The number of runs that end in a given way.
  function Number(store: Store, runs: seq<BenchmarkRun>, answers: seq<Answer>, o: Options, outcome: Outcome): nat
    requires |answers| == |runs|
  {
    |Sets.Having(|runs|, Ends(store, runs, answers, o, outcome))|
  }

  lemma NumberNext(store: Store, runs: seq<BenchmarkRun>, answers: seq<Answer>, o: Options, outcome: Outcome)
    requires |answers| == |runs| > 0
    ensures Number(store, runs, answers, o, outcome)
         == Number(store, runs[..|runs| - 1], answers[..|runs| - 1], o, outcome)
            + if Fate(store, runs, answers, o, |runs| - 1) == outcome then 1 else 0
  {
    var n := |runs| - 1;
    Sets.HavingNext(n, Ends(store, runs, answers, o, outcome));
    forall k: nat | k < n
      ensures Ends(store, runs, answers, o, outcome)(k) == Ends(store, runs[..n], answers[..n], o, outcome)(k)
    {
      MeetsFront(store, runs, answers, o, n, k);
    }
    Sets.HavingSame(n, Ends(store, runs, answers, o, outcome), Ends(store, runs[..n], answers[..n], o, outcome));
  }

  predicate Adds(before: ImportResult, after: ImportResult, outcome: Outcome) {
    && after.imported == before.imported + (if outcome.Imported? then 1 else 0)
    && after.skipped == before.skipped + (if outcome.Skipped? then 1 else 0)
    && after.replaced == before.replaced + (if outcome.Replaced? then 1 else 0)
    && after.failed == before.failed + (if outcome.Refused? then 1 else 0)
  }

  lemma HandleAdds(store: Store, r: ImportResult, run: BenchmarkRun, a: Answer, o: Options, meets: bool)
    requires Handle(store, r, run, a, o).Handled?
    requires !o.resolution.Rename? ==> meets == Conflict(store, run, a)
    ensures Adds(r, Handle(store, r, run, a, o).result, OutcomeOf(run, a, o, meets))
  {}

  // Whatever storage answers and under every resolution: unless the import panics, each
  // counter is the number of runs with that fate.
  lemma {:induction false} TotalsExactly(store: Store, runs: seq<BenchmarkRun>, answers: seq<Answer>, o: Options)
    requires |answers| == |runs| && Import(store, runs, answers, o).Going?
    ensures var r := Import(store, runs, answers, o).result;
            && r.imported == Number(store, runs, answers, o, Imported)
            && r.skipped == Number(store, runs, answers, o, Skipped)
            && r.replaced == Number(store, runs, answers, o, Replaced)
            && r.failed == Number(store, runs, answers, o, Refused)
  {
    if runs != [] {
      var n := |runs| - 1;
      TotalsExactly(store, runs[..n], answers[..n], o);
      if !o.resolution.Rename? {
        MeetsIs(store, runs, answers, o);
      }
      var p := Import(store, runs[..n], answers[..n], o);
      HandleAdds(p.store, p.result, runs[n], answers[n], o, Meets(store, runs, answers, o, n));
      NumberNext(store, runs, answers, o, Imported);
      NumberNext(store, runs, answers, o, Skipped);
      NumberNext(store, runs, answers, o, Replaced);
      NumberNext(store, runs, answers, o, Refused);
    }
  }

  // ---- The error list ----

  function Reason(run: BenchmarkRun, o: Options): Problem {
    if Accepted(run, o) then SaveFailed else Validate(run).value
  }

  // The refused runs in order, under the IDs they have after the import.
  function Refusals(store: Store, runs: seq<BenchmarkRun>, answers: seq<Answer>, o: Options, after: seq<BenchmarkRun>)
    : seq<Failure>
    requires |answers| == |runs| == |after|
  {
    if runs == [] then []
    else
      var n := |runs| - 1;
      Refusals(store, runs[..n], answers[..n], o, after[..n])
      + if Fate(store, runs, answers, o, n).Refused? then [Failure(after[n].id, Reason(runs[n], o))] else []
  }

  lemma HandleReports(store: Store, r: ImportResult, run: BenchmarkRun, a: Answer, o: Options, meets: bool)
    requires Handle(store, r, run, a, o).Handled?
    requires !o.resolution.Rename? ==> meets == Conflict(store, run, a)
    ensures var h := Handle(store, r, run, a, o);
            && h.result.errors == r.errors + (if OutcomeOf(run, a, o, meets).Refused? then [Failure(h.run.id, Reason(run, o))] else [])
            && (h.run == run || (o.resolution.Rename? && |run.id| >= PREFIX && h.run == run.(id := NewId(run.id, a.nanos))))
  {}

  // The error list names exactly the refused runs, in order, each with its reason.
  lemma {:induction false} ErrorsExactly(store: Store, runs: seq<BenchmarkRun>, answers: seq<Answer>, o: Options)
    requires |answers| == |runs| && Import(store, runs, answers, o).Going?
    ensures var p := Import(store, runs, answers, o);
            |p.runs| == |runs| && p.result.errors == Refusals(store, runs, answers, o, p.runs)
  {
    if runs != [] {
      var n := |runs| - 1;
      var p := Import(store, runs[..n], answers[..n], o);
      ErrorsExactly(store, runs[..n], answers[..n], o);
      if !o.resolution.Rename? {
        MeetsIs(store, runs, answers, o);
      }
      HandleReports(p.store, p.result, runs[n], answers[n], o, Meets(store, runs, answers, o, n));
      var after := Import(store, runs, answers, o).runs;
      assert after[..n] == p.runs;
    }
  }

  // Only renaming changes a run of the batch, and nothing but its ID.
  lemma {:induction false} RunsAfter(store: Store, runs: seq<BenchmarkRun>, answers: seq<Answer>, o: Options, k: nat)
    requires |answers| == |runs| && Import(store, runs, answers, o).Going? && k < |runs|
    ensures var after := Import(store, runs, answers, o).runs;
            && |after| == |runs|
            && (after[k] == runs[k] || (o.resolution.Rename? && |runs[k].id| >= PREFIX
                                        && after[k] == runs[k].(id := NewId(runs[k].id, answers[k].nanos))))
  {
    var n := |runs| - 1;
    var p := Import(store, runs[..n], answers[..n], o);
    SameLength(store, runs[..n], answers[..n], o);
    if k < n {
      RunsAfter(store, runs[..n], answers[..n], o, k);
    } else {
      HandleReports(p.store, p.result, runs[n], answers[n], o, Conflict(p.store, runs[n], answers[n]));
    }
  }

  lemma {:induction false} SameLength(store: Store, runs: seq<BenchmarkRun>, answers: seq<Answer>, o: Options)
    requires |answers| == |runs| && Import(store, runs, answers, o).Going?
    ensures |Import(store, runs, answers, o).runs| == |runs|
  {
    if runs != [] {
      SameLength(store, runs[..|runs| - 1], answers[..|runs| - 1], o);
    }
  }
}
