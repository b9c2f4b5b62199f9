// Provisioning of a fleet of runner VMs, internal/cloud/azure_provider.go. One
// goroutine per VM; a schedule says in which order their steps happen.
module Fleets {
  import Sets
  import opened Wrappers

  datatype VMState = Provisioning | Starting | Configuring | Ready | Running | Completed | Failed

  datatype VM = VM(state: VMState, sshReady: bool, failureCount: nat)

  const NEW_VM := VM(Provisioning, false, 0)

  datatype Policy = Policy(parallel: bool, failureTolerance: int, continueOnPartial: bool)

  // ---- What Azure and SSH answer for one VM ----

  // Created can fail before the VM exists, or while waiting for it.
  datatype Creation = NoResources | NeverUp | Up
  datatype Configuration = NoSsh | NoMemtier | BadMemtier | Works

  datatype Answers = Answers(creation: Creation, configuration: Configuration)

  // ---- One goroutine ----

  datatype Progress = Begun | Waiting | Connected | Installed | Finished(failed: bool)
  datatype Thread = Thread(vm: VM, at: Progress)

  // provisionSingleVM, one remote call at a time.
  function ProvisionStep(t: Thread, a: Answers): Thread {
    match t.at
    case Begun =>
      if a.creation.NoResources? then t.(at := Finished(true))
      else Thread(t.vm.(state := Starting), Waiting)
    case Waiting =>
      if a.creation.NeverUp? then Thread(t.vm.(state := Failed), Finished(true))
      else Thread(t.vm.(state := Configuring), Finished(false))
    case _ => t
  }

  // configureVM and the goroutine around it. A failed VM gets no goroutine.
  function ConfigureStep(t: Thread, a: Answers): Thread {
    match t.at
    case Begun =>
      if t.vm.state.Failed? then t.(at := Finished(false))
      else if a.configuration.NoSsh? then Thread(t.vm.(state := Failed), Finished(true))
      else Thread(t.vm.(sshReady := true), Connected)
    case Connected =>
      if a.configuration.NoMemtier? then Thread(t.vm.(state := Failed), Finished(true))
      else t.(at := Installed)
    case Installed =>
      if a.configuration.BadMemtier? then Thread(t.vm.(state := Failed), Finished(true))
      else Thread(t.vm.(state := Ready), Finished(false))
    case _ => t
  }

  datatype Stage = Creating | SettingUp

  function ThreadStep(stage: Stage, t: Thread, a: Answers): Thread {
    match stage
    case Creating => ProvisionStep(t, a)
    case SettingUp => ConfigureStep(t, a)
  }

  function Steps(stage: Stage, t: Thread, a: Answers, n: nat): Thread {
    if n == 0 then t else ThreadStep(stage, Steps(stage, t, a, n - 1), a)
  }

  // No goroutine takes more steps.
  const LONGEST := 3

  lemma FinishedStays(stage: Stage, t: Thread, a: Answers, n: nat)
    requires t.at.Finished?
    ensures Steps(stage, t, a, n) == t
  {}

  lemma {:induction false} StepsSplit(stage: Stage, t: Thread, a: Answers, m: nat, n: nat)
    ensures Steps(stage, t, a, m + n) == Steps(stage, Steps(stage, t, a, m), a, n)
  {
    if n > 0 {
      StepsSplit(stage, t, a, m, n - 1);
    }
  }

  function Finish(stage: Stage, t: Thread, a: Answers): Thread {
    Steps(stage, t, a, LONGEST)
  }

  // Every goroutine finishes, and then stays as it is.
  lemma AlwaysFinishes(stage: Stage, vm: VM, a: Answers, n: nat)
    requires n >= LONGEST
    ensures Finish(stage, Thread(vm, Begun), a).at.Finished?
    ensures Steps(stage, Thread(vm, Begun), a, n) == Finish(stage, Thread(vm, Begun), a)
  {
    var t := Thread(vm, Begun);
    FinishesInThree(stage, t, a);
    StepsSplit(stage, t, a, LONGEST, n - LONGEST);
    FinishedStays(stage, Finish(stage, t, a), a, n - LONGEST);
  }

  lemma FinishesInThree(stage: Stage, t: Thread, a: Answers)
    requires t.at.Begun?
    ensures Finish(stage, t, a).at.Finished?
  {
    OneMoreStep(stage, t, a, 0);
    OneMoreStep(stage, t, a, 1);
    OneMoreStep(stage, t, a, 2);
  }

  lemma OneMoreStep(stage: Stage, t: Thread, a: Answers, n: nat)
    ensures Steps(stage, t, a, n + 1) == ThreadStep(stage, Steps(stage, t, a, n), a)
  {}

  // ---- All goroutines, interleaved ----

  function Interleave(stage: Stage, ts: seq<Thread>, answers: seq<Answers>, schedule: seq<nat>): (r: seq<Thread>)
    requires |answers| == |ts|
    ensures |r| == |ts|
  {
    if schedule == [] then ts
    else
      var r := Interleave(stage, ts, answers, schedule[..|schedule| - 1]);
      var i := schedule[|schedule| - 1];
      if i < |ts| then r[i := ThreadStep(stage, r[i], answers[i])] else r
  }

  function Turns(schedule: seq<nat>, i: nat): nat {
    if schedule == [] then 0
    else Turns(schedule[..|schedule| - 1], i) + if schedule[|schedule| - 1] == i then 1 else 0
  }

  // The wait group lets every goroutine finish.
  predicate Complete(schedule: seq<nat>, n: nat) {
    forall i :: 0 <= i < n ==> Turns(schedule, i) >= LONGEST
  }

  // A goroutine only touches its own VM.
  lemma {:induction false} Independent(stage: Stage, ts: seq<Thread>, answers: seq<Answers>, schedule: seq<nat>, i: nat)
    requires |answers| == |ts| && i < |ts|
    ensures Interleave(stage, ts, answers, schedule)[i] == Steps(stage, ts[i], answers[i], Turns(schedule, i))
  {
    if schedule != [] {
      Independent(stage, ts, answers, schedule[..|schedule| - 1], i);
    }
  }

  function Start(vms: seq<VM>): (ts: seq<Thread>)
    ensures |ts| == |vms|
  {
    seq(|vms|, i requires 0 <= i < |vms| => Thread(vms[i], Begun))
  }

  // What a stage makes of the fleet, however it is scheduled.
  function AfterStage(stage: Stage, vms: seq<VM>, answers: seq<Answers>): (ts: seq<Thread>)
    requires |answers| == |vms|
    ensures |ts| == |vms|
  {
    seq(|vms|, i requires 0 <= i < |vms| => Finish(stage, Thread(vms[i], Begun), answers[i]))
  }

  // Every interleaving ends in the same state.
  lemma AnySchedule(stage: Stage, vms: seq<VM>, answers: seq<Answers>, schedule: seq<nat>)
    requires |answers| == |vms| && Complete(schedule, |vms|)
    ensures Interleave(stage, Start(vms), answers, schedule) == AfterStage(stage, vms, answers)
  {
    var l := Interleave(stage, Start(vms), answers, schedule);
    forall i | 0 <= i < |vms|
      ensures l[i] == AfterStage(stage, vms, answers)[i]
    {
      Independent(stage, Start(vms), answers, schedule, i);
      AlwaysFinishes(stage, vms[i], answers[i], Turns(schedule, i));
    }
  }

  // ---- The reference: which VMs end up ready, and whether that is enough ----

  predicate Lost(a: Answers) {
    !a.creation.Up?
  }

  // A VM whose resources could not be created is still configured.
  predicate EndsReady(a: Answers) {
    !a.creation.NeverUp? && a.configuration.Works?
  }

  function CountLost(answers: seq<Answers>): nat {
    if answers == [] then 0
    else CountLost(answers[..|answers| - 1]) + if Lost(answers[|answers| - 1]) then 1 else 0
  }

  function ReadyOnes(answers: seq<Answers>): seq<nat> {
    if answers == [] then []
    else
      var n := |answers| - 1;
      ReadyOnes(answers[..n]) + if EndsReady(answers[n]) then [n] else []
  }

  predicate EnoughCreated(count: nat, policy: Policy, answers: seq<Answers>) {
    var lost := CountLost(answers);
    && (lost == 0 || policy.continueOnPartial)
    && (policy.parallel ==> count - lost >= count - policy.failureTolerance)
  }

  // The load generators of the infrastructure, if it is provided.
  function Provided(count: nat, policy: Policy, groupOk: bool, networkOk: bool, answers: seq<Answers>): Option<seq<nat>> {
    if groupOk && networkOk && EnoughCreated(count, policy, answers)
       && |ReadyOnes(answers)| >= count - policy.failureTolerance
    then Some(ReadyOnes(answers)) else None
  }

  function VMsOf(ts: seq<Thread>): (vms: seq<VM>)
    ensures |vms| == |ts|
  {
    seq(|ts|, i requires 0 <= i < |ts| => ts[i].vm)
  }

  function CountFailed(ts: seq<Thread>): nat {
    if ts == [] then 0
    else CountFailed(ts[..|ts| - 1]) + if ts[|ts| - 1].at == Finished(true) then 1 else 0
  }

  lemma LostThreadFails(a: Answers)
    ensures Finish(Creating, Thread(NEW_VM, Begun), a).at == Finished(Lost(a))
    ensures Finish(Creating, Thread(NEW_VM, Begun), a).vm.state
         == match a.creation case NoResources => Provisioning case NeverUp => Failed case Up => Configuring
  {
    var t := Thread(NEW_VM, Begun);
    OneMoreStep(Creating, t, a, 0);
    OneMoreStep(Creating, t, a, 1);
    OneMoreStep(Creating, t, a, 2);
  }

  lemma WorkingThreadReady(vm: VM, a: Answers)
    requires vm.state != Ready
    ensures Finish(SettingUp, Thread(vm, Begun), a).vm.state == Ready <==> vm.state != Failed && a.configuration.Works?
  {
    var t := Thread(vm, Begun);
    OneMoreStep(SettingUp, t, a, 0);
    OneMoreStep(SettingUp, t, a, 1);
    OneMoreStep(SettingUp, t, a, 2);
  }

  // The fleet after both stages.
  function Fleet(answers: seq<Answers>): (vms: seq<VM>)
    ensures |vms| == |answers|
  {
    var created := VMsOf(AfterStage(Creating, seq(|answers|, _ => NEW_VM), answers));
    VMsOf(AfterStage(SettingUp, created, answers))
  }

  lemma FleetReady(answers: seq<Answers>, i: nat)
    requires i < |answers|
    ensures Fleet(answers)[i].state == Ready <==> EndsReady(answers[i])
  {
    var created := Finish(Creating, Thread(NEW_VM, Begun), answers[i]).vm;
    LostThreadFails(answers[i]);
    WorkingThreadReady(created, answers[i]);
  }

  lemma {:induction false} LostAreCounted(answers: seq<Answers>)
    ensures CountFailed(AfterStage(Creating, seq(|answers|, _ => NEW_VM), answers)) == CountLost(answers)
  {
    if answers != [] {
      var n := |answers| - 1;
      var ts := AfterStage(Creating, seq(|answers|, _ => NEW_VM), answers);
      LostAreCounted(answers[..n]);
      LostThreadFails(answers[n]);
      assert ts[..n] == AfterStage(Creating, seq(n, _ => NEW_VM), answers[..n]);
    }
  }

  // ---- The deployment ----

  datatype DeploymentState = Initializing | ProvisioningVMs | ConfiguringVMs | DeploymentReady | DeploymentFailed

  class AzureDeployment {
    const count: nat
    const policy: Policy
    var state: DeploymentState
    var vms: seq<VM>

    constructor (count: nat, policy: Policy)
      ensures this.count == count && this.policy == policy && state == Initializing && vms == []
    {
      this.count, this.policy, state, vms := count, policy, Initializing, [];
    }

    // Start one goroutine per VM, let them run in the given order, and wait.
    method RunStage(stage: Stage, answers: seq<Answers>, schedule: seq<nat>) returns (errors: nat)
      requires |answers| == |vms| && Complete(schedule, |vms|)
      modifies this`vms
      ensures vms == VMsOf(AfterStage(stage, old(vms), answers))
      ensures errors == CountFailed(AfterStage(stage, old(vms), answers))
    {
      var ts := Start(vms);
      for k := 0 to |schedule|
        invariant ts == Interleave(stage, Start(old(vms)), answers, schedule[..k])
      {
        assert schedule[..k + 1][..k] == schedule[..k];
        var i := schedule[k];
        if i < |ts| {
          ts := ts[i := ThreadStep(stage, ts[i], answers[i])];
        }
      }
      assert schedule[..|schedule|] == schedule;
      AnySchedule(stage, old(vms), answers, schedule);
      vms := VMsOf(ts);
      errors := 0;
      for k := 0 to |ts|
        invariant errors == CountFailed(ts[..k])
      {
        assert ts[..k + 1][..k] == ts[..k];
        if ts[k].at == Finished(true) {
          errors := errors + 1;
        }
      }
      assert ts[..|ts|] == ts;
    }

    method ProvisionVMsParallel(answers: seq<Answers>, schedule: seq<nat>) returns (ok: bool)
      requires |answers| == |vms| == count && Complete(schedule, count) && vms == seq(count, _ => NEW_VM) && policy.parallel
      modifies this`vms
      ensures ok == EnoughCreated(count, policy, answers)
      ensures vms == VMsOf(AfterStage(Creating, old(vms), answers))
    {
      var errors := RunStage(Creating, answers, schedule);
      LostAreCounted(answers);
      var successCount := |vms| - errors;
      var minRequired := count - policy.failureTolerance;
      ok := successCount >= minRequired && (errors == 0 || policy.continueOnPartial);
    }

    // One VM after the other, stopping at the first error unless told to go on.
    method ProvisionVMsSequential(answers: seq<Answers>) returns (ok: bool)
      requires |answers| == |vms| == count && vms == seq(count, _ => NEW_VM) && !policy.parallel
      modifies this`vms
      ensures ok == EnoughCreated(count, policy, answers)
      ensures ok ==> vms == VMsOf(AfterStage(Creating, old(vms), answers))
    {
      ok := true;
      ghost var ts := AfterStage(Creating, vms, answers);
      ghost var lost := 0;
      for i := 0 to count
        invariant ok && |vms| == count && lost == CountLost(answers[..i]) && (lost == 0 || policy.continueOnPartial)
        invariant forall k :: 0 <= k < i ==> vms[k] == ts[k].vm
        invariant forall k :: i <= k < count ==> vms[k] == NEW_VM
      {
        assert answers[..i + 1][..i] == answers[..i];
        var t := Finish(Creating, Thread(vms[i], Begun), answers[i]);
        vms := vms[i := t.vm];
        LostThreadFails(answers[i]);
        if t.at == Finished(true) {
          lost := lost + 1;
          if !policy.continueOnPartial {
            MoreLost(answers, i + 1);
            ok := false;
            return;
          }
        }
      }
      assert answers[..count] == answers;
      assert vms == VMsOf(ts);
    }

    method ProvisionVMs(answers: seq<Answers>, schedule: seq<nat>) returns (ok: bool)
      requires |answers| == count && Complete(schedule, count) && vms == []
      modifies this`vms
      ensures ok == EnoughCreated(count, policy, answers)
      ensures ok ==> vms == VMsOf(AfterStage(Creating, seq(count, _ => NEW_VM), answers))
    {
      for i := 0 to count
        invariant vms == seq(i, _ => NEW_VM)
      {
        vms := vms + [NEW_VM];
      }
      if policy.parallel {
        ok := ProvisionVMsParallel(answers, schedule);
      } else {
        ok := ProvisionVMsSequential(answers);
      }
    }

    method CountReady() returns (readyCount: nat)
      ensures readyCount == |ReadyIn(vms)|
    {
      readyCount := 0;
      for i := 0 to |vms|
        invariant readyCount == |ReadyIn(vms[..i])|
      {
        assert vms[..i + 1][..i] == vms[..i];
        if vms[i].state == Ready {
          readyCount := readyCount + 1;
        }
      }
      assert vms[..|vms|] == vms;
    }

    method RunProvisioning(groupOk: bool, networkOk: bool, answers: seq<Answers>, creating: seq<nat>, configuring: seq<nat>)
      returns (ok: bool)
      requires |answers| == count && Complete(creating, count) && Complete(configuring, count) && vms == []
      modifies this`vms, this`state
      ensures ok == Provided(count, policy, groupOk, networkOk, answers).Some?
      ensures ok ==> vms == Fleet(answers) && state == DeploymentReady
    {
      if !groupOk || !networkOk {
        return false;
      }
      state := ProvisioningVMs;
      ok := ProvisionVMs(answers, creating);
      if !ok {
        return;
      }
      state := ConfiguringVMs;
      var _ := RunStage(SettingUp, answers, configuring);
      state := DeploymentReady;
      var readyCount := CountReady();
      ReadyInFleet(answers);
      ok := readyCount >= count - policy.failureTolerance;
    }

    // Whatever Azure and SSH answer and however the goroutines interleave, the
    // infrastructure lists exactly the VMs that are ready, and enough of them.
    method Provision(groupOk: bool, networkOk: bool, answers: seq<Answers>, creating: seq<nat>, configuring: seq<nat>)
      returns (infrastructure: Option<seq<nat>>)
      requires |answers| == count && Complete(creating, count) && Complete(configuring, count) && vms == []
      modifies this`vms, this`state
      ensures infrastructure == Provided(count, policy, groupOk, networkOk, answers)
      ensures infrastructure.None? ==> state == DeploymentFailed
      ensures infrastructure.Some? ==> state == DeploymentReady && infrastructure.value == ReadyIn(vms)
      ensures infrastructure.Some? ==> |infrastructure.value| >= count - policy.failureTolerance
    {
      var ok := RunProvisioning(groupOk, networkOk, answers, creating, configuring);
      if !ok {
        state := DeploymentFailed;
        return None;
      }
      ReadyInFleet(answers);
      var loadGenerators := [];
      for i := 0 to |vms|
        invariant loadGenerators == ReadyIn(vms[..i])
      {
        assert vms[..i + 1][..i] == vms[..i];
        if vms[i].state == Ready {
          loadGenerators := loadGenerators + [i];
        }
      }
      assert vms[..|vms|] == vms;
      infrastructure := Some(loadGenerators);
    }
  }

  lemma {:induction false} MoreLost(answers: seq<Answers>, i: nat)
    requires i <= |answers|
    ensures CountLost(answers[..i]) <= CountLost(answers)
  {
    if i < |answers| {
      var n := |answers| - 1;
      MoreLost(answers[..n], i);
      assert answers[..n][..i] == answers[..i];
    } else {
      assert answers[..i] == answers;
    }
  }

  // The positions of the ready VMs.
  function ReadyIn(vms: seq<VM>): seq<nat> {
    if vms == [] then []
    else
      var n := |vms| - 1;
      ReadyIn(vms[..n]) + if vms[n].state == Ready then [n] else []
  }

  lemma {:induction false} ReadyInFleet(answers: seq<Answers>)
    ensures ReadyIn(Fleet(answers)) == ReadyOnes(answers)
  {
    if answers != [] {
      var n := |answers| - 1;
      ReadyInFleet(answers[..n]);
      FleetReady(answers, n);
      FleetFront(answers, n);
    }
  }

  lemma FleetFront(answers: seq<Answers>, n: nat)
    requires n <= |answers|
    ensures Fleet(answers)[..n] == Fleet(answers[..n])
  {}

  lemma ReadyInLast(vms: seq<VM>)
    requires vms != []
    ensures var n := |vms| - 1;
            forall i :: i in ReadyIn(vms) <==> i in ReadyIn(vms[..n]) || (i == n && vms[n].state == Ready)
  {}

  lemma {:induction false} ReadyInHolds(vms: seq<VM>, i: nat)
    ensures i in ReadyIn(vms) <==> i < |vms| && vms[i].state == Ready
  {
    if vms != [] {
      ReadyInHolds(vms[..|vms| - 1], i);
      ReadyInLast(vms);
    }
  }

  lemma {:induction false} ReadyInOrdered(vms: seq<VM>)
    ensures forall j, k :: 0 <= j < k < |ReadyIn(vms)| ==> ReadyIn(vms)[j] < ReadyIn(vms)[k]
  {
    if vms != [] {
      var n := |vms| - 1;
      var before := ReadyIn(vms[..n]);
      ReadyInOrdered(vms[..n]);
      forall j | 0 <= j < |before|
        ensures before[j] < n
      {
        ReadyInHolds(vms[..n], before[j]);
      }
    }
  }

  // Exactly the ready VMs, each once and in order.
  lemma ReadyInMeans(vms: seq<VM>)
    ensures forall i: nat :: i in ReadyIn(vms) <==> i < |vms| && vms[i].state == Ready
    ensures forall j, k :: 0 <= j < k < |ReadyIn(vms)| ==> ReadyIn(vms)[j] < ReadyIn(vms)[k]
  {
    forall i: nat
      ensures i in ReadyIn(vms) <==> i < |vms| && vms[i].state == Ready
    {
      ReadyInHolds(vms, i);
    }
    ReadyInOrdered(vms);
  }

  // Ready VMs are those that came up, or were never created, and then answered over SSH.
  lemma ReadyExactlyWhen(answers: seq<Answers>, i: nat)
    requires i < |answers|
    ensures i in ReadyIn(Fleet(answers)) <==> EndsReady(answers[i])
  {
    ReadyInMeans(Fleet(answers));
    FleetReady(answers, i);
  }

  // What becomes of each VM: ready, or failed.
  lemma FleetExactly(answers: seq<Answers>, i: nat)
    requires i < |answers|
    ensures Fleet(answers)[i] == VM(if !answers[i].creation.NeverUp? && answers[i].configuration.Works? then Ready else Failed,
                                    !answers[i].creation.NeverUp? && !answers[i].configuration.NoSsh?, 0)
  {
    var a := answers[i];
    var created := Finish(Creating, Thread(NEW_VM, Begun), a).vm;
    ThreeSteps(Creating, Thread(NEW_VM, Begun), a);
    ThreeSteps(SettingUp, Thread(created, Begun), a);
  }

  lemma ThreeSteps(stage: Stage, t: Thread, a: Answers)
    ensures Finish(stage, t, a) == ThreadStep(stage, ThreadStep(stage, ThreadStep(stage, t, a), a), a)
  {
    OneMoreStep(stage, t, a, 0);
    OneMoreStep(stage, t, a, 1);
    OneMoreStep(stage, t, a, 2);
  }

  // ---- When a fleet is provided ----

  lemma {:induction false} LostCounted(answers: seq<Answers>)
    ensures CountLost(answers) == |Sets.Positions(answers, (a: Answers) => !a.creation.Up?)|
  {
    if answers != [] {
      LostCounted(answers[..|answers| - 1]);
      Sets.LastPosition(answers, (a: Answers) => !a.creation.Up?);
    }
  }

  lemma {:induction false} ReadyCounted(answers: seq<Answers>)
    ensures |ReadyOnes(answers)|
         == |Sets.Positions(answers, (a: Answers) => !a.creation.NeverUp? && a.configuration.Works?)|
  {
    if answers != [] {
      ReadyCounted(answers[..|answers| - 1]);
      Sets.LastPosition(answers, (a: Answers) => !a.creation.NeverUp? && a.configuration.Works?);
    }
  }

  lemma NoneLost(answers: seq<Answers>)
    ensures CountLost(answers) == 0 <==> forall i :: 0 <= i < |answers| ==> answers[i].creation.Up?
  {
    LostCounted(answers);
    var lost := Sets.Positions(answers, (a: Answers) => !a.creation.Up?);
    if i :| 0 <= i < |answers| && !answers[i].creation.Up? {
      assert i in lost;
    } else {
      assert lost == {};
    }
  }

  // In terms of the answers alone: the group and the network were made; every VM came
  // up, or partial fleets are accepted; in parallel, no more than the tolerated number
  // did not come up; and enough VMs end ready.
  lemma ProvidedExactlyWhen(count: nat, policy: Policy, groupOk: bool, networkOk: bool, answers: seq<Answers>)
    requires |answers| == count
    ensures Provided(count, policy, groupOk, networkOk, answers).Some?
       <==> && groupOk && networkOk
            && (policy.continueOnPartial || forall i :: 0 <= i < count ==> answers[i].creation.Up?)
            && (policy.parallel ==>
                  |Sets.Positions(answers, (a: Answers) => !a.creation.Up?)| <= policy.failureTolerance)
            && |Sets.Positions(answers, (a: Answers) => !a.creation.NeverUp? && a.configuration.Works?)|
               >= count - policy.failureTolerance
    ensures Provided(count, policy, groupOk, networkOk, answers).Some? ==>
              Provided(count, policy, groupOk, networkOk, answers).value == ReadyIn(Fleet(answers))
  {
    LostCounted(answers);
    NoneLost(answers);
    ReadyCounted(answers);
    ReadyInFleet(answers);
  }

  // The listed VMs that were never created are exactly those that configuration
  // nevertheless works for.
  lemma ListsUncreatedExactlyWhen(count: nat, policy: Policy, groupOk: bool, networkOk: bool, answers: seq<Answers>,
                                  i: nat)
    requires i < |answers| && answers[i].creation.NoResources?
    requires Provided(count, policy, groupOk, networkOk, answers).Some?
    ensures i in Provided(count, policy, groupOk, networkOk, answers).value <==> answers[i].configuration.Works?
  {
    ReadyInFleet(answers);
    ReadyExactlyWhen(answers, i);
  }

  // A fleet of one such VM is provided.
  lemma NeverCreatedIsListed()
    ensures Provided(1, Policy(false, 0, true), true, true, [Answers(NoResources, Works)]) == Some([0])
  {
    var answers := [Answers(NoResources, Works)];
    assert answers[..0] == [] && Lost(answers[0]) && EndsReady(answers[0]);
    assert ReadyOnes(answers) == [0];
    assert EnoughCreated(1, Policy(false, 0, true), answers);
  }
}
