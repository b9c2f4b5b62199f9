// An import as a merge of maps.
module ImporterMerge {
  import opened Importers
  import opened Wrappers

  // ---- The reference: first and last run of a batch saved for an ID ----

  function Lookup(store: Store, id: string): Option<BenchmarkRun> {
    if id in store then Some(store[id]) else None
  }

  function OrElse(x: Option<BenchmarkRun>, y: Option<BenchmarkRun>): Option<BenchmarkRun> {
    if x.Some? then x else y
  }

  // Accepted, for this ID, and storage would save it.
  predicate Offers(run: BenchmarkRun, a: Answer, o: Options, id: string) {
    Accepted(run, o) && run.id == id && !a.saveFails
  }

  function First(runs: seq<BenchmarkRun>, answers: seq<Answer>, o: Options, id: string): Option<BenchmarkRun>
    requires |answers| == |runs|
  {
    if runs == [] then None
    else if Offers(runs[0], answers[0], o, id) then Some(runs[0])
    else First(runs[1..], answers[1..], o, id)
  }

  function Last(runs: seq<BenchmarkRun>, answers: seq<Answer>, o: Options, id: string): Option<BenchmarkRun>
    requires |answers| == |runs|
  {
    var n := |runs| - 1;
    if runs == [] then None
    else if Offers(runs[n], answers[n], o, id) then Some(runs[n])
    else Last(runs[..n], answers[..n], o, id)
  }

  // The last of them that was not looked for, because reading failed.
  function LastUnread(runs: seq<BenchmarkRun>, answers: seq<Answer>, o: Options, id: string): Option<BenchmarkRun>
    requires |answers| == |runs|
  {
    var n := |runs| - 1;
    if runs == [] then None
    else if Offers(runs[n], answers[n], o, id) && answers[n].readFails then Some(runs[n])
    else LastUnread(runs[..n], answers[..n], o, id)
  }

  lemma {:induction false} FirstSnoc(runs: seq<BenchmarkRun>, answers: seq<Answer>, run: BenchmarkRun, a: Answer,
                                     o: Options, id: string)
    requires |answers| == |runs|
    ensures First(runs + [run], answers + [a], o, id)
         == OrElse(First(runs, answers, o, id), if Offers(run, a, o, id) then Some(run) else None)
  {
    if runs == [] {
      assert (runs + [run])[1..] == [] && (answers + [a])[1..] == [];
    } else {
      FirstSnoc(runs[1..], answers[1..], run, a, o, id);
      assert (runs + [run])[1..] == runs[1..] + [run] && (answers + [a])[1..] == answers[1..] + [a];
    }
  }

  lemma {:induction false} AllWereRead(runs: seq<BenchmarkRun>, answers: seq<Answer>, o: Options, id: string)
    requires |answers| == |runs| && ReadsSucceed(answers)
    ensures LastUnread(runs, answers, o, id).None?
  {
    if runs != [] {
      AllWereRead(runs[..|runs| - 1], answers[..|runs| - 1], o, id);
    }
  }

  // ---- Conditions on a run of the importer ----

  predicate SavesSucceed(answers: seq<Answer>) {
    forall k :: 0 <= k < |answers| ==> !answers[k].saveFails
  }

  predicate ReadsSucceed(answers: seq<Answer>) {
    forall k :: 0 <= k < |answers| ==> !answers[k].readFails
  }

  // ---- Skip keeps what it finds, then the first; replace keeps the last ----

  // What a skipping import leaves under an ID.
  function Skipped(store: Store, runs: seq<BenchmarkRun>, answers: seq<Answer>, o: Options, id: string)
    : Option<BenchmarkRun>
    requires |answers| == |runs|
  {
    OrElse(LastUnread(runs, answers, o, id), OrElse(Lookup(store, id), First(runs, answers, o, id)))
  }

  lemma SkipStep(store: Store, r: ImportResult, run: BenchmarkRun, a: Answer, o: Options, id: string)
    requires !o.dryRun && o.resolution.Skip?
    ensures var h := Handle(store, r, run, a, o);
            && h.Handled?
            && Lookup(h.store, id) == if !Offers(run, a, o, id) then Lookup(store, id)
                                      else if a.readFails then Some(run)
                                      else OrElse(Lookup(store, id), Some(run))
  {}

  // Whatever storage answers: for each ID the last accepted run that could not be
  // looked for overwrites everything; else the existing record wins, else the first
  // accepted run that could be saved.
  lemma {:induction false} SkipMergesAlways(store: Store, runs: seq<BenchmarkRun>, answers: seq<Answer>, o: Options)
    requires |answers| == |runs| && !o.dryRun && o.resolution.Skip?
    ensures var p := Import(store, runs, answers, o);
            p.Going? && forall id :: Lookup(p.store, id) == Skipped(store, runs, answers, o, id)
  {
    if runs != [] {
      var n := |runs| - 1;
      SkipMergesAlways(store, runs[..n], answers[..n], o);
      var before, after := Import(store, runs[..n], answers[..n], o), Import(store, runs, answers, o);
      SkipStep(before.store, before.result, runs[n], answers[n], o, runs[n].id);
      forall id
        ensures Lookup(after.store, id) == Skipped(store, runs, answers, o, id)
      {
        SkipStep(before.store, before.result, runs[n], answers[n], o, id);
        SkippedNext(store, runs, answers, o, id);
      }
    }
  }

  lemma SkippedNext(store: Store, runs: seq<BenchmarkRun>, answers: seq<Answer>, o: Options, id: string)
    requires |answers| == |runs| && runs != []
    ensures var n := |runs| - 1;
            var before := Skipped(store, runs[..n], answers[..n], o, id);
            Skipped(store, runs, answers, o, id) == if !Offers(runs[n], answers[n], o, id) then before
                                                    else if answers[n].readFails then Some(runs[n])
                                                    else OrElse(before, Some(runs[n]))
  {
    var n := |runs| - 1;
    FirstSnoc(runs[..n], answers[..n], runs[n], answers[n], o, id);
    assert runs == runs[..n] + [runs[n]] && answers == answers[..n] + [answers[n]];
  }

  // With working reads the existing record always wins.
  lemma SkipMerges(store: Store, runs: seq<BenchmarkRun>, answers: seq<Answer>, o: Options)
    requires |answers| == |runs| && ReadsSucceed(answers) && !o.dryRun && o.resolution.Skip?
    ensures var p := Import(store, runs, answers, o);
            p.Going? && forall id :: Lookup(p.store, id) == OrElse(Lookup(store, id), First(runs, answers, o, id))
  {
    SkipMergesAlways(store, runs, answers, o);
    forall id
      ensures LastUnread(runs, answers, o, id).None?
    {
      AllWereRead(runs, answers, o, id);
    }
  }

  // It is kept exactly when no run for its ID overwrites it unread, or the last that
  // does is the same record.
  lemma SkipKeepsExactlyWhen(store: Store, runs: seq<BenchmarkRun>, answers: seq<Answer>, o: Options, id: string)
    requires |answers| == |runs| && !o.dryRun && o.resolution.Skip? && id in store
    ensures Lookup(Import(store, runs, answers, o).store, id) == Lookup(store, id)
       <==> LastUnread(runs, answers, o, id) in {None, Some(store[id])}
  {
    SkipMergesAlways(store, runs, answers, o);
  }

  lemma {:induction false} ReplaceMerges(store: Store, runs: seq<BenchmarkRun>, answers: seq<Answer>, o: Options)
    requires |answers| == |runs| && !o.dryRun && o.resolution.Replace?
    ensures var p := Import(store, runs, answers, o);
            p.Going? && forall id :: Lookup(p.store, id) == OrElse(Last(runs, answers, o, id), Lookup(store, id))
  {
    if runs != [] {
      var n := |runs| - 1;
      ReplaceMerges(store, runs[..n], answers[..n], o);
    }
  }

  // ---- Nothing stored is forgotten, and everything accepted is stored ----

  lemma {:induction false} KeysGrow(store: Store, runs: seq<BenchmarkRun>, answers: seq<Answer>, o: Options)
    requires |answers| == |runs| && Import(store, runs, answers, o).Going?
    ensures store.Keys <= Import(store, runs, answers, o).store.Keys
  {
    if runs != [] {
      KeysGrow(store, runs[..|runs| - 1], answers[..|runs| - 1], o);
    }
  }

  lemma {:induction false} AcceptedAreStored(store: Store, runs: seq<BenchmarkRun>, answers: seq<Answer>, o: Options)
    requires |answers| == |runs| && !o.dryRun && Import(store, runs, answers, o).Going?
    ensures forall k :: 0 <= k < |runs| && Accepted(runs[k], o) && !answers[k].saveFails ==>
              runs[k].id in Import(store, runs, answers, o).store
  {
    if runs != [] {
      var n := |runs| - 1;
      AcceptedAreStored(store, runs[..n], answers[..n], o);
      var before, after := Import(store, runs[..n], answers[..n], o), Import(store, runs, answers, o);
      assert before.store.Keys <= after.store.Keys;
      forall k | 0 <= k < |runs| && Accepted(runs[k], o) && !answers[k].saveFails
        ensures runs[k].id in after.store
      {
        if k < n {
          assert runs[..n][k] == runs[k] && answers[..n][k] == answers[k];
        }
      }
    }
  }

  function CountAccepted(runs: seq<BenchmarkRun>, o: Options): nat {
    if runs == [] then 0
    else CountAccepted(runs[..|runs| - 1], o) + if Accepted(runs[|runs| - 1], o) then 1 else 0
  }

  // The totals of a batch of which all accepted runs are skipped.
  predicate SkippedAll(r: ImportResult, runs: seq<BenchmarkRun>, o: Options) {
    && r.imported == r.replaced == 0 && r.skipped == CountAccepted(runs, o)
    && r.failed == |runs| - CountAccepted(runs, o)
  }

  // Of a batch, only skipped runs and refused ones so far.
  predicate OnlySkipped(p: Progress, store: Store, runs: seq<BenchmarkRun>, o: Options) {
    p.Going? && p.store == store && p.runs == runs && SkippedAll(p.result, runs, o)
  }

  lemma SkipOne(p: Progress, store: Store, runs: seq<BenchmarkRun>, run: BenchmarkRun, a: Answer, o: Options)
    requires OnlySkipped(p, store, runs, o) && !a.readFails && o.resolution.Skip?
    requires Accepted(run, o) ==> run.id in store
    ensures OnlySkipped(Next(p, run, a, o), store, runs + [run], o)
  {
    assert (runs + [run])[..|runs|] == runs;
  }

  // A skipping import whose runs are all there changes nothing.
  lemma {:induction false} AllSkipped(store: Store, runs: seq<BenchmarkRun>, answers: seq<Answer>, o: Options)
    requires |answers| == |runs| && ReadsSucceed(answers) && o.resolution.Skip?
    requires forall k :: 0 <= k < |runs| && Accepted(runs[k], o) ==> runs[k].id in store
    ensures OnlySkipped(Import(store, runs, answers, o), store, runs, o)
  {
    if runs != [] {
      var n := |runs| - 1;
      AllSkipped(store, runs[..n], answers[..n], o);
      SkipOne(Import(store, runs[..n], answers[..n], o), store, runs[..n], runs[n], answers[n], o);
      assert runs == runs[..n] + [runs[n]];
    }
  }

  // Importing again under skip, after any successful import, changes nothing.
  lemma ReimportChangesNothing(store: Store, runs: seq<BenchmarkRun>, answers: seq<Answer>, o: Options,
                               again: seq<Answer>, o': Options)
    requires |answers| == |runs| == |again| && SavesSucceed(answers) && !o.dryRun
    requires Import(store, runs, answers, o).Going?
    requires ReadsSucceed(again) && o'.resolution.Skip? && o'.validate == o.validate
    ensures var first := Import(store, runs, answers, o);
            var second := Import(first.store, runs, again, o');
            second.Going? && second.store == first.store && second.runs == runs && SkippedAll(second.result, runs, o')
  {
    AcceptedAreStored(store, runs, answers, o);
    AllSkipped(Import(store, runs, answers, o).store, runs, again, o');
  }

  // ---- Totals ----

  // Conflicts that no branch of the switch handles.
  function Dropped(store: Store, runs: seq<BenchmarkRun>, answers: seq<Answer>, o: Options): nat
    requires |answers| == |runs|
  {
    if runs == [] then 0
    else
      var n := |runs| - 1;
      var p := Import(store, runs[..n], answers[..n], o);
      Dropped(store, runs[..n], answers[..n], o)
      + if o.resolution.Other? && p.Going? && Accepted(runs[n], o) && Conflict(p.store, runs[n], answers[n]) then 1 else 0
  }

  lemma HandleCounts(store: Store, r: ImportResult, run: BenchmarkRun, a: Answer, o: Options)
    requires Handle(store, r, run, a, o).Handled?
    ensures var r' := Handle(store, r, run, a, o).result;
            && r'.Total() + (if o.resolution.Other? && Accepted(run, o) && Conflict(store, run, a) then 1 else 0)
            == r.Total() + 1
            && |r'.errors| - |r.errors| == r'.failed - r.failed
  {}

  // Whatever storage answers, every run is counted once, unless the resolution is
  // unknown and the run conflicts.
  lemma {:induction false} EveryRunCounted(store: Store, runs: seq<BenchmarkRun>, answers: seq<Answer>, o: Options)
    requires |answers| == |runs| && Import(store, runs, answers, o).Going?
    ensures var r := Import(store, runs, answers, o).result;
            && r.Total() + Dropped(store, runs, answers, o) == |runs|
            && |r.errors| == r.failed
            && (!o.resolution.Other? ==> r.Total() == |runs|)
  {
    if runs != [] {
      var n := |runs| - 1;
      var p := Import(store, runs[..n], answers[..n], o);
      EveryRunCounted(store, runs[..n], answers[..n], o);
      HandleCounts(p.store, p.result, runs[n], answers[n], o);
    }
  }

  // ---- Renaming ----

  // A run replaces a stored record if it is renamed to its ID, or has its ID and
  // could not be looked for.
  predicate Overwrites(before: Store, run: BenchmarkRun, a: Answer, o: Options, id: string) {
    && Accepted(run, o) && !a.saveFails
    && if Conflict(before, run, a) then |run.id| >= PREFIX && NewId(run.id, a.nanos) == id
       else a.readFails && run.id == id
  }

  // The last run of the batch to do so, with the ID it is stored under.
  function LastOver(store: Store, runs: seq<BenchmarkRun>, answers: seq<Answer>, o: Options, id: string)
    : Option<BenchmarkRun>
    requires |answers| == |runs|
  {
    if runs == [] then None
    else
      var n := |runs| - 1;
      if Overwrites(Import(store, runs[..n], answers[..n], o).store, runs[n], answers[n], o, id)
      then Some(runs[n].(id := id))
      else LastOver(store, runs[..n], answers[..n], o, id)
  }

  lemma RenameStep(store: Store, r: ImportResult, run: BenchmarkRun, a: Answer, o: Options, id: string)
    requires o.resolution.Rename? && !o.dryRun && id in store && Handle(store, r, run, a, o).Handled?
    ensures id in Handle(store, r, run, a, o).store
    ensures Handle(store, r, run, a, o).store[id]
         == if Overwrites(store, run, a, o, id) then run.(id := id) else store[id]
  {}

  // For every record and whatever storage answers: a renaming import leaves the last
  // run that overwrote it, or the record itself.
  lemma {:induction false} RenameMerges(store: Store, runs: seq<BenchmarkRun>, answers: seq<Answer>, o: Options, id: string)
    requires |answers| == |runs| && o.resolution.Rename? && !o.dryRun && id in store
    requires Import(store, runs, answers, o).Going?
    ensures Lookup(Import(store, runs, answers, o).store, id)
         == OrElse(LastOver(store, runs, answers, o, id), Some(store[id]))
  {
    if runs != [] {
      var n := |runs| - 1;
      RenameMerges(store, runs[..n], answers[..n], o, id);
      var before := Import(store, runs[..n], answers[..n], o);
      RenameStep(before.store, before.result, runs[n], answers[n], o, id);
    }
  }

  // No record is overwritten as long as the generated IDs are new.
  lemma {:induction false} RenameKeepsRecords(store: Store, runs: seq<BenchmarkRun>, answers: seq<Answer>, o: Options)
    requires |answers| == |runs| && o.resolution.Rename? && ReadsSucceed(answers)
    requires Import(store, runs, answers, o).Going?
    requires forall k :: 0 <= k < |runs| && |runs[k].id| >= PREFIX ==> NewId(runs[k].id, answers[k].nanos) !in store
    ensures forall id :: id in store ==> Lookup(Import(store, runs, answers, o).store, id) == Some(store[id])
  {
    if runs != [] {
      var n := |runs| - 1;
      assert forall k :: 0 <= k < n ==> runs[..n][k] == runs[k] && answers[..n][k] == answers[k];
      RenameKeepsRecords(store, runs[..n], answers[..n], o);
    }
  }

  // ---- Dry runs ----

  lemma {:induction false} DryRunSavesNothing(store: Store, runs: seq<BenchmarkRun>, answers: seq<Answer>, o: Options)
    requires |answers| == |runs| && o.dryRun && Import(store, runs, answers, o).Going?
    ensures Import(store, runs, answers, o).store == store
  {
    if runs != [] {
      DryRunSavesNothing(store, runs[..|runs| - 1], answers[..|runs| - 1], o);
    }
  }

  // ---- Where the keys of the store come from ----

  // Run k was saved under the ID, its own or the one generated for it.
  predicate SavesUnder(run: BenchmarkRun, a: Answer, o: Options, id: string) {
    && !o.dryRun && !a.saveFails && Accepted(run, o)
    && (run.id == id || (o.resolution.Rename? && |run.id| >= PREFIX && NewId(run.id, a.nanos) == id))
  }

  predicate SavedUnder(runs: seq<BenchmarkRun>, answers: seq<Answer>, o: Options, id: string)
    requires |answers| == |runs|
  {
    exists k :: 0 <= k < |runs| && SavesUnder(runs[k], answers[k], o, id)
  }

  lemma {:induction false} KeysComeFrom(store: Store, runs: seq<BenchmarkRun>, answers: seq<Answer>, o: Options, id: string)
    requires |answers| == |runs| && Import(store, runs, answers, o).Going?
    requires id in Import(store, runs, answers, o).store && id !in store
    ensures SavedUnder(runs, answers, o, id)
  {
    if runs != [] {
      var n := |runs| - 1;
      var p := Import(store, runs[..n], answers[..n], o);
      if id in p.store {
        KeysComeFrom(store, runs[..n], answers[..n], o, id);
        var k :| 0 <= k < n && SavesUnder(runs[..n][k], answers[..n][k], o, id);
        assert runs[k] == runs[..n][k] && answers[k] == answers[..n][k];
      } else {
        assert SavesUnder(runs[n], answers[n], o, id);
      }
    }
  }

  // ---- When an import panics ----

  predicate Short(run: BenchmarkRun, o: Options) {
    Accepted(run, o) && |run.id| < PREFIX
  }

  // A run with a short ID finds it in the store the import started with.
  predicate StoredShort(store: Store, runs: seq<BenchmarkRun>, answers: seq<Answer>, o: Options)
    requires |answers| == |runs|
  {
    exists k :: 0 <= k < |runs| && Short(runs[k], o) && Conflict(store, runs[k], answers[k])
  }

  // Run k repeats the ID of run j, which was saved.
  predicate Repeats(runs: seq<BenchmarkRun>, answers: seq<Answer>, o: Options, j: nat, k: nat)
    requires |answers| == |runs| && j < k < |runs|
  {
    && Accepted(runs[j], o) && !answers[j].saveFails
    && Accepted(runs[k], o) && !answers[k].readFails && runs[j].id == runs[k].id
  }

  // A run with a short ID repeats that of an earlier one.
  predicate RepeatsShort(runs: seq<BenchmarkRun>, answers: seq<Answer>, o: Options)
    requires |answers| == |runs|
  {
    exists j: nat, k: nat :: j < k < |runs| && Repeats(runs, answers, o, j, k) && |runs[k].id| < PREFIX
  }

  predicate MustPanic(store: Store, runs: seq<BenchmarkRun>, answers: seq<Answer>, o: Options)
    requires |answers| == |runs|
  {
    && o.resolution.Rename?
    && (StoredShort(store, runs, answers, o) || (!o.dryRun && RepeatsShort(runs, answers, o)))
  }

  lemma HandlePanics(store: Store, r: ImportResult, run: BenchmarkRun, a: Answer, o: Options)
    ensures Handle(store, r, run, a, o).Panic?
       <==> o.resolution.Rename? && Short(run, o) && Conflict(store, run, a)
  {}

  // The run at which an import panics.
  lemma {:induction false} PanicPoint(store: Store, runs: seq<BenchmarkRun>, answers: seq<Answer>, o: Options)
    returns (k: nat)
    requires |answers| == |runs| && Import(store, runs, answers, o).Crashed?
    ensures k < |runs| && o.resolution.Rename? && Short(runs[k], o)
    ensures var p := Import(store, runs[..k], answers[..k], o);
            p.Going? && Conflict(p.store, runs[k], answers[k])
  {
    var n := |runs| - 1;
    var p := Import(store, runs[..n], answers[..n], o);
    if p.Crashed? {
      k := PanicPoint(store, runs[..n], answers[..n], o);
      assert runs[..n][..k] == runs[..k] && answers[..n][..k] == answers[..k];
    } else {
      k := n;
      HandlePanics(p.store, p.result, runs[n], answers[n], o);
    }
  }

  lemma PanicsAt(store: Store, runs: seq<BenchmarkRun>, answers: seq<Answer>, o: Options, k: nat)
    requires |answers| == |runs| && k < |runs| && o.resolution.Rename? && Short(runs[k], o)
    requires var p := Import(store, runs[..k], answers[..k], o);
             p.Going? ==> Conflict(p.store, runs[k], answers[k])
    ensures Import(store, runs, answers, o).Crashed?
  {
    ImportNext(store, runs, answers, o, k);
    CrashStays(store, runs, answers, o, k + 1);
  }

  // The ID of a run that panics was stored before, or saved for an earlier run;
  // generated IDs are too long.
  lemma PanicMeans(store: Store, runs: seq<BenchmarkRun>, answers: seq<Answer>, o: Options)
    requires |answers| == |runs| && Import(store, runs, answers, o).Crashed?
    ensures MustPanic(store, runs, answers, o)
  {
    var k := PanicPoint(store, runs, answers, o);
    if !Conflict(store, runs[k], answers[k]) {
      KeysComeFrom(store, runs[..k], answers[..k], o, runs[k].id);
      var j :| 0 <= j < k && SavesUnder(runs[..k][j], answers[..k][j], o, runs[k].id);
      assert runs[..k][j] == runs[j] && answers[..k][j] == answers[j];
      assert Repeats(runs, answers, o, j, k);
    }
  }

  lemma PanicFollows(store: Store, runs: seq<BenchmarkRun>, answers: seq<Answer>, o: Options)
    requires |answers| == |runs| && MustPanic(store, runs, answers, o)
    ensures Import(store, runs, answers, o).Crashed?
  {
    if StoredShort(store, runs, answers, o) {
      var k :| 0 <= k < |runs| && Short(runs[k], o) && Conflict(store, runs[k], answers[k]);
      if Import(store, runs[..k], answers[..k], o).Going? {
        KeysGrow(store, runs[..k], answers[..k], o);
      }
      PanicsAt(store, runs, answers, o, k);
    } else {
      var j: nat, k: nat :| j < k < |runs| && Repeats(runs, answers, o, j, k) && |runs[k].id| < PREFIX;
      if Import(store, runs[..k], answers[..k], o).Going? {
        AcceptedAreStored(store, runs[..k], answers[..k], o);
        assert runs[..k][j] == runs[j] && answers[..k][j] == answers[j];
      }
      PanicsAt(store, runs, answers, o, k);
    }
  }

  // An import panics exactly when it renames, and a run with an ID shorter than
  // eight characters finds the ID stored or, unless this is a dry run, repeats the
  // ID of an earlier run. With working storage that can be checked on the batch and
  // the store before the import.
  lemma PanicsExactlyWhen(store: Store, runs: seq<BenchmarkRun>, answers: seq<Answer>, o: Options)
    requires |answers| == |runs|
    ensures Import(store, runs, answers, o).Crashed? <==> MustPanic(store, runs, answers, o)
  {
    if Import(store, runs, answers, o).Crashed? {
      PanicMeans(store, runs, answers, o);
    } else if MustPanic(store, runs, answers, o) {
      PanicFollows(store, runs, answers, o);
    }
  }

  // ---- When a dry run is wrong ----

  function Dry(o: Options): Options {
    o.(dryRun := true)
  }

  // The dry run gives the same totals, or panics as well.
  predicate SameReport(dry: Progress, p: Progress) {
    if p.Going? then dry.Going? && dry.result == p.result else dry.Crashed?
  }

  // Two accepted runs share an ID that is not stored yet.
  predicate RepeatsNew(store: Store, runs: seq<BenchmarkRun>, answers: seq<Answer>, o: Options)
    requires |answers| == |runs|
  {
    exists j: nat, k: nat :: j < k < |runs| && Repeats(runs, answers, o, j, k) && runs[k].id !in store
  }

  // Renaming keeps the totals right, but a short repeated ID makes only the real
  // run panic.
  predicate Misled(store: Store, runs: seq<BenchmarkRun>, answers: seq<Answer>, o: Options)
    requires |answers| == |runs|
  {
    if o.resolution.Rename? then RepeatsShort(runs, answers, o) && !StoredShort(store, runs, answers, o)
    else RepeatsNew(store, runs, answers, o)
  }

  // Run k finds its ID new in the store but saved for run j, perhaps as a generated one.
  predicate Competes(store: Store, runs: seq<BenchmarkRun>, answers: seq<Answer>, o: Options)
    requires |answers| == |runs|
  {
    exists j: nat, k: nat :: j < k < |runs| && SavesUnder(runs[j], answers[j], o, runs[k].id)
      && Accepted(runs[k], o) && !answers[k].readFails && runs[k].id !in store
  }

  lemma CompetingRepeats(store: Store, runs: seq<BenchmarkRun>, answers: seq<Answer>, o: Options)
    requires |answers| == |runs| && Competes(store, runs, answers, o) && !o.resolution.Rename?
    ensures RepeatsNew(store, runs, answers, o)
  {
    var j: nat, k: nat :| j < k < |runs| && SavesUnder(runs[j], answers[j], o, runs[k].id)
      && Accepted(runs[k], o) && !answers[k].readFails && runs[k].id !in store;
    assert Repeats(runs, answers, o, j, k);
  }

  lemma FrontCompetes(store: Store, runs: seq<BenchmarkRun>, answers: seq<Answer>, o: Options, n: nat)
    requires |answers| == |runs| && n <= |runs| && Competes(store, runs[..n], answers[..n], o)
    ensures Competes(store, runs, answers, o)
  {
    var j: nat, k: nat :| j < k < n && SavesUnder(runs[..n][j], answers[..n][j], o, runs[..n][k].id)
      && Accepted(runs[..n][k], o) && !answers[..n][k].readFails && runs[..n][k].id !in store;
    assert SavesUnder(runs[j], answers[j], o, runs[k].id);
  }

  // A real run sees a conflict the dry run does not only because of an earlier run.
  lemma NewConflict(store: Store, runs: seq<BenchmarkRun>, answers: seq<Answer>, o: Options, n: nat)
    requires |answers| == |runs| && n < |runs| && Accepted(runs[n], o)
    requires var p := Import(store, runs[..n], answers[..n], o);
             p.Going? && Conflict(p.store, runs[n], answers[n]) && runs[n].id !in store
    ensures Competes(store, runs, answers, o)
  {
    KeysComeFrom(store, runs[..n], answers[..n], o, runs[n].id);
    var k :| 0 <= k < n && SavesUnder(runs[..n][k], answers[..n][k], o, runs[n].id);
    assert SavesUnder(runs[k], answers[k], o, runs[n].id);
  }

  lemma DryHandle(store: Store, store': Store, r: ImportResult, run: BenchmarkRun, a: Answer, o: Options)
    requires !a.saveFails
    requires Accepted(run, o) ==> (Conflict(store, run, a) <==> Conflict(store', run, a))
    ensures var h, h' := Handle(store, r, run, a, o), Handle(store', r, run, a, Dry(o));
            h' == if h.Handled? then Handled(store', h.result, h.run) else Panic
  {}

  // If no two runs compete for a new ID, a dry run reports what the real run will and
  // gives the runs the same IDs.
  lemma {:induction false} DryRunPredicts(store: Store, runs: seq<BenchmarkRun>, answers: seq<Answer>, o: Options)
    requires |answers| == |runs| && SavesSucceed(answers) && !o.dryRun && !Competes(store, runs, answers, o)
    ensures var dry, p := Import(store, runs, answers, Dry(o)), Import(store, runs, answers, o);
            dry == if p.Going? then Going(store, p.result, p.runs) else Crashed(store, p.runs)
  {
    if runs != [] {
      var n := |runs| - 1;
      if Competes(store, runs[..n], answers[..n], o) {
        FrontCompetes(store, runs, answers, o, n);
      }
      DryRunPredicts(store, runs[..n], answers[..n], o);
      var p := Import(store, runs[..n], answers[..n], o);
      if p.Going? {
        KeysGrow(store, runs[..n], answers[..n], o);
        if Accepted(runs[n], o) && Conflict(p.store, runs[n], answers[n]) && runs[n].id !in store {
          NewConflict(store, runs, answers, o, n);
        }
        DryHandle(p.store, store, p.result, runs[n], answers[n], o);
      }
    }
  }

  lemma RepeatFound(store: Store, runs: seq<BenchmarkRun>, answers: seq<Answer>, o: Options, n: nat)
    requires |answers| == |runs| == n + 1 && !o.dryRun && RepeatsNew(store, runs, answers, o)
    requires Import(store, runs[..n], answers[..n], o).Going?
    ensures RepeatsNew(store, runs[..n], answers[..n], o)
            || (Accepted(runs[n], o) && runs[n].id !in store
                && Conflict(Import(store, runs[..n], answers[..n], o).store, runs[n], answers[n]))
  {
    AcceptedAreStored(store, runs[..n], answers[..n], o);
    var j: nat, k: nat :| j < k < |runs| && Repeats(runs, answers, o, j, k) && runs[k].id !in store;
    assert runs[..n][j] == runs[j] && answers[..n][j] == answers[j];
    if k < n {
      assert Repeats(runs[..n], answers[..n], o, j, k);
    }
  }

  // The dry run may miss a conflict, and then counts an import instead.
  lemma OneMoreDry(store: Store, store': Store, r: ImportResult, r': ImportResult, run: BenchmarkRun, a: Answer, o: Options)
    requires !a.saveFails && store'.Keys <= store.Keys && !o.resolution.Rename?
    ensures var h, h' := Handle(store, r, run, a, o), Handle(store', r', run, a, Dry(o));
            && h.Handled? && h'.Handled? && h'.store == store'
            && h.result.imported - r.imported <= h'.result.imported - r'.imported
            && (Accepted(run, o) && Conflict(store, run, a) && run.id !in store' ==>
                  h.result.imported - r.imported < h'.result.imported - r'.imported)
  {}

  // Each run that competes for a new ID makes the dry run count one import too many.
  lemma {:induction false} DryRunOvercounts(store: Store, runs: seq<BenchmarkRun>, answers: seq<Answer>, o: Options)
    requires |answers| == |runs| && SavesSucceed(answers) && !o.dryRun && !o.resolution.Rename?
    ensures var dry, p := Import(store, runs, answers, Dry(o)), Import(store, runs, answers, o);
            && dry.Going? && p.Going? && dry.store == store && p.result.imported <= dry.result.imported
            && (RepeatsNew(store, runs, answers, o) ==> p.result.imported < dry.result.imported)
  {
    if runs != [] {
      var n := |runs| - 1;
      DryRunOvercounts(store, runs[..n], answers[..n], o);
      KeysGrow(store, runs[..n], answers[..n], o);
      var dry, p := Import(store, runs[..n], answers[..n], Dry(o)), Import(store, runs[..n], answers[..n], o);
      OneMoreDry(p.store, store, p.result, dry.result, runs[n], answers[n], o);
      if RepeatsNew(store, runs, answers, o) {
        RepeatFound(store, runs, answers, o, n);
      }
    }
  }

  // A renaming run counts an import whether or not it sees a conflict.
  lemma RenameHandle(store: Store, store': Store, r: ImportResult, run: BenchmarkRun, a: Answer, o: Options)
    requires !a.saveFails && store'.Keys <= store.Keys && o.resolution.Rename?
    requires Handle(store, r, run, a, o).Handled?
    ensures var h, h' := Handle(store, r, run, a, o), Handle(store', r, run, a, Dry(o));
            h'.Handled? && h'.store == store' && h'.result == h.result
  {}

  lemma {:induction false} RenameCountsAlike(store: Store, runs: seq<BenchmarkRun>, answers: seq<Answer>, o: Options)
    requires |answers| == |runs| && SavesSucceed(answers) && o.resolution.Rename?
    requires Import(store, runs, answers, o).Going?
    ensures var dry, p := Import(store, runs, answers, Dry(o)), Import(store, runs, answers, o);
            dry.Going? && dry.store == store && dry.result == p.result
  {
    if runs != [] {
      var n := |runs| - 1;
      RenameCountsAlike(store, runs[..n], answers[..n], o);
      KeysGrow(store, runs[..n], answers[..n], o);
      RenameHandle(Import(store, runs[..n], answers[..n], o).store, store,
                   Import(store, runs[..n], answers[..n], o).result, runs[n], answers[n], o);
    }
  }

  // For every resolution, and whatever reads answer: if the saves will succeed, a dry
  // run reports something else exactly in the cases above.
  lemma DryRunWrongExactlyWhen(store: Store, runs: seq<BenchmarkRun>, answers: seq<Answer>, o: Options)
    requires |answers| == |runs| && SavesSucceed(answers) && !o.dryRun
    ensures SameReport(Import(store, runs, answers, Dry(o)), Import(store, runs, answers, o))
       <==> !Misled(store, runs, answers, o)
  {
    if o.resolution.Rename? {
      PanicsExactlyWhen(store, runs, answers, o);
      PanicsExactlyWhen(store, runs, answers, Dry(o));
      DryShort(store, runs, answers, o);
      if Import(store, runs, answers, o).Going? {
        RenameCountsAlike(store, runs, answers, o);
      }
    } else {
      DryRunOvercounts(store, runs, answers, o);
      if Competes(store, runs, answers, o) {
        CompetingRepeats(store, runs, answers, o);
      } else {
        DryRunPredicts(store, runs, answers, o);
      }
    }
  }

  lemma DryShort(store: Store, runs: seq<BenchmarkRun>, answers: seq<Answer>, o: Options)
    requires |answers| == |runs|
    ensures StoredShort(store, runs, answers, Dry(o)) <==> StoredShort(store, runs, answers, o)
  {
    assert forall run :: Short(run, Dry(o)) == Short(run, o);
  }

  // ---- The failing input: one run, given twice ----

  const WORKING := Answer(false, false, 0)

  // Renaming a short ID panics at the second run, and the dry run does not say so;
  // any other resolution imports one of the two, and the dry run announces both.
  lemma TwiceTheSame(run: BenchmarkRun, o: Options)
    requires Accepted(run, o) && !o.dryRun
    ensures var twice, answers := [run, run], [WORKING, WORKING];
            var dry, p := Import(map[], twice, answers, Dry(o)), Import(map[], twice, answers, o);
            && dry.Going? && dry.result.imported == 2
            && (o.resolution.Rename? && |run.id| < PREFIX ==> p == Crashed(map[run.id := run], [run]))
            && (o.resolution.Rename? && |run.id| >= PREFIX ==> p.Going? && p.result.imported == 2)
            && (!o.resolution.Rename? ==> p.Going? && p.result.imported == 1)
  {
    var twice, answers := [run, run], [WORKING, WORKING];
    assert twice[..1] == [run] && [run][..0] == [] && answers[..1] == [WORKING] && [WORKING][..0] == [];
    ImportedOnce(run, o);
    ImportedOnce(run, Dry(o));
  }

  lemma ImportedOnce(run: BenchmarkRun, o: Options)
    requires Accepted(run, o)
    ensures Import(map[], [run], [WORKING], o)
         == Going(if o.dryRun then map[] else map[run.id := run], NOTHING.(imported := 1), [run])
  {
    assert [run][..0] == [] && [WORKING][..0] == [];
  }
}
