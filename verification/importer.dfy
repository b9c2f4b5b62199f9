// The run importer of internal/importer/import.go over an abstract run store.
module Importers {
  import Text
  import opened Wrappers

  // ---- Runs, options and results ----

  // The rest of a record is opaque.
  datatype BenchmarkRun = BenchmarkRun(id: string, status: string, created: bool, rest: string)

  datatype Resolution = Skip | Replace | Rename | Other(name: string)
  datatype Options = Options(resolution: Resolution, dryRun: bool, validate: bool)

  datatype Problem = MissingId | MissingStatus | MissingCreatedAt | SaveFailed
  datatype Failure = Failure(id: string, problem: Problem)

  datatype ImportResult = ImportResult(
    imported: nat, skipped: nat, replaced: nat, failed: nat, errors: seq<Failure>)
  {
    function Total(): nat { imported + skipped + replaced + failed }
  }

  const NOTHING := ImportResult(0, 0, 0, 0, [])

  // What storage and the clock answer while one run is handled. A failed save
  // leaves the store as it was.
  datatype Answer = Answer(readFails: bool, saveFails: bool, nanos: nat)

  type Store = map<string, BenchmarkRun>

  function Validate(run: BenchmarkRun): Option<Problem> {
    if run.id == "" then Some(MissingId)
    else if run.status == "" then Some(MissingStatus)
    else if !run.created then Some(MissingCreatedAt)
    else None
  }

  predicate Accepted(run: BenchmarkRun, o: Options) {
    o.validate ==> Validate(run).None?
  }

  // ---- One run ----

  // The store, the totals and the run as saved or given up. Slicing an ID that is
  // too short panics.
  datatype Handled = Handled(store: Store, result: ImportResult, run: BenchmarkRun) | Panic

  const PREFIX := 8

  function NewId(id: string, nanos: nat): string
    requires |id| >= PREFIX
  {
    id[..PREFIX] + "-import-" + Text.Digits(nanos)
  }

  // A read error counts as no conflict.
  predicate Conflict(store: Store, run: BenchmarkRun, a: Answer) {
    !a.readFails && run.id in store
  }

  function Failed(store: Store, r: ImportResult, run: BenchmarkRun, problem: Problem): Handled {
    Handled(store, r.(failed := r.failed + 1, errors := r.errors + [Failure(run.id, problem)]), run)
  }

  // counted are the totals if the save succeeds.
  function Saved(store: Store, r: ImportResult, run: BenchmarkRun, a: Answer, o: Options, counted: ImportResult): Handled {
    if o.dryRun then Handled(store, counted, run)
    else if a.saveFails then Failed(store, r, run, SaveFailed)
    else Handled(store[run.id := run], counted, run)
  }

  function Handle(store: Store, r: ImportResult, run: BenchmarkRun, a: Answer, o: Options): Handled {
    if !Accepted(run, o) then Failed(store, r, run, Validate(run).value)
    else if !Conflict(store, run, a) then Saved(store, r, run, a, o, r.(imported := r.imported + 1))
    else match o.resolution
      case Skip => Handled(store, r.(skipped := r.skipped + 1), run)
      case Replace => Saved(store, r, run, a, o, r.(replaced := r.replaced + 1))
      case Rename =>
        if |run.id| < PREFIX then Panic
        else Saved(store, r, run.(id := NewId(run.id, a.nanos)), a, o, r.(imported := r.imported + 1))
      case Other(_) => Handled(store, r, run)
  }

  // ---- A whole batch ----

  // runs are the batch so far, with the IDs it was given. After a panic what was
  // saved and renamed before remains.
  datatype Progress =
    | Going(store: Store, result: ImportResult, runs: seq<BenchmarkRun>)
    | Crashed(store: Store, runs: seq<BenchmarkRun>)

  function Next(p: Progress, run: BenchmarkRun, a: Answer, o: Options): Progress {
    if p.Crashed? then p
    else match Handle(p.store, p.result, run, a, o)
      case Handled(store, result, run') => Going(store, result, p.runs + [run'])
      case Panic => Crashed(p.store, p.runs)
  }

  function Import(store: Store, runs: seq<BenchmarkRun>, answers: seq<Answer>, o: Options): Progress
    requires |answers| == |runs|
  {
    if runs == [] then Going(store, NOTHING, [])
    else
      var n := |runs| - 1;
      Next(Import(store, runs[..n], answers[..n], o), runs[n], answers[n], o)
  }

  class Importer {
    const options: Options
    var store: Store

    constructor (options: Options, store: Store)
      ensures this.options == options && this.store == store
    {
      this.options, this.store := options, store;
    }

    method SaveRun(run: BenchmarkRun, a: Answer) returns (ok: bool)
      modifies this`store
      ensures ok == !a.saveFails
      ensures store == if ok then old(store)[run.id := run] else old(store)
    {
      ok := !a.saveFails;
      if ok {
        store := store[run.id := run];
      }
    }

    // Saves unless this is a dry run.
    method Store(run: BenchmarkRun, a: Answer) returns (ok: bool)
      modifies this`store
      ensures ok == (options.dryRun || !a.saveFails)
      ensures store == if !options.dryRun && ok then old(store)[run.id := run] else old(store)
    {
      ok := true;
      if !options.dryRun {
        ok := SaveRun(run, a);
      }
    }

    // The body of the loop. If it does not panic it returns the run, perhaps renamed.
    method HandleRun(run: BenchmarkRun, a: Answer, r: ImportResult)
      returns (ok: bool, run': BenchmarkRun, result: ImportResult)
      modifies this`store
      ensures ok == Handle(old(store), r, run, a, options).Handled?
      ensures ok ==> Handled(store, result, run') == Handle(old(store), r, run, a, options)
      ensures !ok ==> store == old(store)
    {
      ok, run', result := true, run, r;
      if options.validate && Validate(run).Some? {
        result := r.(failed := r.failed + 1, errors := r.errors + [Failure(run.id, Validate(run).value)]);
        return;
      }
      var counted := r.(imported := r.imported + 1);
      if !a.readFails && run.id in store {
        match options.resolution {
          case Skip =>
            result := r.(skipped := r.skipped + 1);
            return;
          case Replace =>
            counted := r.(replaced := r.replaced + 1);
          case Rename =>
            if |run.id| < PREFIX {
              ok := false;
              return;
            }
            run' := run.(id := NewId(run.id, a.nanos));
          case Other(_) =>
            return;
        }
      }
      var saved := Store(run', a);
      if saved {
        result := counted;
      } else {
        result := r.(failed := r.failed + 1, errors := r.errors + [Failure(run'.id, SaveFailed)]);
      }
    }

    // The runs are renamed in place. A panic keeps what was saved and renamed so far.
    method ImportRuns(runs: array<BenchmarkRun>, answers: seq<Answer>) returns (ok: bool, result: ImportResult)
      requires |answers| == runs.Length
      modifies this`store, runs
      ensures var p := Import(old(store), old(runs[..]), answers, options);
              if ok then Going(store, result, runs[..]) == p
              else p == Crashed(store, p.runs) && |p.runs| < runs.Length && runs[..] == p.runs + old(runs[..])[|p.runs|..]
    {
      ghost var was, batch := store, runs[..];
      ok, result := true, NOTHING;
      for i := 0 to runs.Length
        invariant ok && Going(store, result, runs[..i]) == Import(was, batch[..i], answers[..i], options)
        invariant forall k :: i <= k < runs.Length ==> runs[k] == batch[k]
      {
        ImportNext(was, batch, answers, options, i);
        ghost var current := runs[..];
        var run;
        ok, run, result := HandleRun(runs[i], answers[i], result);
        if !ok {
          CrashStays(was, batch, answers, options, i + 1);
          HandledThenRest(current, batch, i);
          return;
        }
        runs[i] := run;
        HandledOneMore(current, i, run);
        assert runs[..] == current[i := run];
      }
      assert runs[..] == runs[..runs.Length];
      assert batch[..runs.Length] == batch && answers[..runs.Length] == answers;
    }
  }

  lemma HandledOneMore(runs: seq<BenchmarkRun>, i: nat, run: BenchmarkRun)
    requires i < |runs|
    ensures runs[i := run][..i + 1] == runs[..i] + [run]
  {}

  lemma HandledThenRest(runs: seq<BenchmarkRun>, batch: seq<BenchmarkRun>, i: nat)
    requires i <= |runs| == |batch| && forall k :: i <= k < |runs| ==> runs[k] == batch[k]
    ensures runs == runs[..i] + batch[i..]
  {}

  lemma {:induction false} CrashStays(store: Store, runs: seq<BenchmarkRun>, answers: seq<Answer>, o: Options, i: nat)
    requires |answers| == |runs| && i <= |runs| && Import(store, runs[..i], answers[..i], o).Crashed?
    ensures Import(store, runs, answers, o) == Import(store, runs[..i], answers[..i], o)
    decreases |runs|
  {
    var n := |runs| - 1;
    if i == |runs| {
      assert runs[..i] == runs && answers[..i] == answers;
    } else {
      assert runs[..n][..i] == runs[..i] && answers[..n][..i] == answers[..i];
      CrashStays(store, runs[..n], answers[..n], o, i);
    }
  }

  lemma ImportNext(store: Store, runs: seq<BenchmarkRun>, answers: seq<Answer>, o: Options, i: nat)
    requires |answers| == |runs| && i < |runs|
    ensures Import(store, runs[..i + 1], answers[..i + 1], o)
         == Next(Import(store, runs[..i], answers[..i], o), runs[i], answers[i], o)
  {
    assert runs[..i + 1][..i] == runs[..i] && answers[..i + 1][..i] == answers[..i];
  }
}
