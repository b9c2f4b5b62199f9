// Monitoring of a running fleet, internal/cloud/azure_provider.go.
module FleetMonitors {
  import opened Fleets
  import Sets
  import opened Wrappers

  // ---- One health check ----

  datatype Reply = Unreachable | Output(text: string)

  const DONE := "done"
  const LIMIT := 3

  predicate Final(vm: VM) {
    vm.state.Failed? || vm.state.Completed?
  }

  function Checked(vm: VM, r: Reply): VM {
    if Final(vm) then vm
    else match r
      case Unreachable =>
        var failures := vm.failureCount + 1;
        vm.(failureCount := failures, state := if failures >= LIMIT then Failed else vm.state)
      case Output(text) =>
        vm.(failureCount := 0, state := if text == DONE then Completed else vm.state)
  }

  // Only an answer other than "done" keeps the monitor going.
  predicate StillBusy(vm: VM, r: Reply) {
    !Final(vm) && r.Output? && r.text != DONE
  }

  // ---- One tick ----

  function CheckedAll(vms: seq<VM>, replies: seq<Reply>): (r: seq<VM>)
    requires |replies| == |vms|
    ensures |r| == |vms|
  {
    seq(|vms|, i requires 0 <= i < |vms| => Checked(vms[i], replies[i]))
  }

  function CountFailedVMs(vms: seq<VM>): nat {
    if vms == [] then 0
    else CountFailedVMs(vms[..|vms| - 1]) + if vms[|vms| - 1].state.Failed? then 1 else 0
  }

  lemma CountOneMore(vms: seq<VM>, i: nat, vm: VM)
    requires i < |vms|
    ensures CountFailedVMs(vms[i := vm][..i + 1]) == CountFailedVMs(vms[..i]) + if vm.state.Failed? then 1 else 0
  {
    assert vms[i := vm][..i + 1][..i] == vms[..i];
  }

  predicate NoneBusy(vms: seq<VM>, replies: seq<Reply>)
    requires |replies| == |vms|
  {
    forall i :: 0 <= i < |vms| ==> !StillBusy(vms[i], replies[i])
  }

  datatype Result = AllCompleted | TooManyFailed | Cancelled | TimedOut
  datatype Monitor = Monitoring(vms: seq<VM>) | Returned(vms: seq<VM>, result: Result)
  datatype Event = Tick(replies: seq<Reply>) | Cancel | Timeout

  function AfterTick(vms: seq<VM>, replies: seq<Reply>, tolerance: int): Monitor
    requires |replies| == |vms|
  {
    var next := CheckedAll(vms, replies);
    if CountFailedVMs(next) > tolerance then Returned(next, TooManyFailed)
    else if NoneBusy(vms, replies) then Returned(next, AllCompleted)
    else Monitoring(next)
  }

  // Each check gets one reply per VM; replies for finished VMs are not asked for.
  predicate Sized(events: seq<Event>, n: nat) {
    forall k :: 0 <= k < |events| && events[k].Tick? ==> |events[k].replies| == n
  }

  function Next(m: Monitor, e: Event, tolerance: int): (m': Monitor)
    requires e.Tick? ==> |e.replies| == |m.vms|
    ensures |m'.vms| == |m.vms|
  {
    if m.Returned? then m
    else match e
      case Tick(replies) => AfterTick(m.vms, replies, tolerance)
      case Cancel => Returned(m.vms, Cancelled)
      case Timeout => Returned(m.vms, TimedOut)
  }

  function Run(vms: seq<VM>, events: seq<Event>, tolerance: int): (m: Monitor)
    requires Sized(events, |vms|)
    ensures |m.vms| == |vms|
  {
    if events == [] then Monitoring(vms)
    else
      Next(Run(vms, events[..|events| - 1], tolerance), events[|events| - 1], tolerance)
  }

  // ---- The monitoring loop ----

  class FleetMonitor {
    const tolerance: int
    var vms: seq<VM>

    constructor (vms: seq<VM>, tolerance: int)
      ensures this.vms == vms && this.tolerance == tolerance
    {
      this.vms, this.tolerance := vms, tolerance;
    }

    method CheckFleet(replies: seq<Reply>) returns (allComplete: bool, failedCount: nat)
      requires |replies| == |vms|
      modifies this`vms
      ensures vms == CheckedAll(old(vms), replies)
      ensures failedCount == CountFailedVMs(vms) && allComplete == NoneBusy(old(vms), replies)
    {
      allComplete, failedCount := true, 0;
      ghost var was := vms;
      for i := 0 to |vms|
        invariant |vms| == |was| && forall k :: i <= k < |was| ==> vms[k] == was[k]
        invariant forall k :: 0 <= k < i ==> vms[k] == Checked(was[k], replies[k])
        invariant failedCount == CountFailedVMs(vms[..i])
        invariant allComplete <==> forall k :: 0 <= k < i ==> !StillBusy(was[k], replies[k])
      {
        var vm, busy := CheckVM(vms[i], replies[i]);
        if vm.state.Failed? {
          failedCount := failedCount + 1;
        }
        if busy {
          allComplete := false;
        }
        CountOneMore(vms, i, vm);
        vms := vms[i := vm];
      }
      assert vms[..|vms|] == vms;
    }

    // The body of the loop: a VM that has finished is not asked.
    method CheckVM(was: VM, reply: Reply) returns (vm: VM, busy: bool)
      ensures vm == Checked(was, reply) && busy == StillBusy(was, reply)
    {
      vm, busy := was, false;
      if !vm.state.Failed? && !vm.state.Completed? {
        match reply {
          case Unreachable =>
            vm := vm.(failureCount := vm.failureCount + 1);
            if vm.failureCount >= LIMIT {
              vm := vm.(state := Failed);
            }
          case Output(text) =>
            vm := vm.(failureCount := 0);
            if text == DONE {
              vm := vm.(state := Completed);
            } else {
              busy := true;
            }
        }
      }
    }

    // None as long as the events do not end the loop.
    method MonitorExecution(events: seq<Event>) returns (result: Option<Result>)
      requires Sized(events, |vms|)
      modifies this`vms
      ensures var m := Run(old(vms), events, tolerance);
              vms == m.vms && result == if m.Returned? then Some(m.result) else None
    {
      ghost var was := vms;
      for k := 0 to |events|
        invariant |vms| == |was| && Run(was, events[..k], tolerance) == Monitoring(vms)
      {
        assert events[..k + 1][..k] == events[..k];
        match events[k] {
          case Tick(replies) =>
            var allComplete, failedCount := CheckFleet(replies);
            if failedCount > tolerance {
              result := Some(TooManyFailed);
            } else if allComplete {
              result := Some(AllCompleted);
            } else {
              result := None;
            }
          case Cancel => result := Some(Cancelled);
          case Timeout => result := Some(TimedOut);
        }
        if result.Some? {
          ReturnStays(was, events, tolerance, k + 1);
          return;
        }
      }
      assert events[..|events|] == events;
      result := None;
    }
  }

  lemma {:induction false} ReturnStays(vms: seq<VM>, events: seq<Event>, tolerance: int, k: nat)
    requires Sized(events, |vms|) && k <= |events| && Run(vms, events[..k], tolerance).Returned?
    ensures Run(vms, events, tolerance) == Run(vms, events[..k], tolerance)
    decreases |events|
  {
    if k == |events| {
      assert events[..k] == events;
    } else {
      var n := |events| - 1;
      assert events[..n][..k] == events[..k];
      ReturnStays(vms, events[..n], tolerance, k);
    }
  }

  // ---- Properties of every run ----

  lemma FinalStaysOnce(m: Monitor, e: Event, tolerance: int, i: nat)
    requires (e.Tick? ==> |e.replies| == |m.vms|) && i < |m.vms| && Final(m.vms[i])
    ensures Next(m, e, tolerance).vms[i] == m.vms[i]
  {}

  lemma FinalStaysNext(vms: seq<VM>, events: seq<Event>, tolerance: int, j: nat, i: nat, vm: VM)
    requires Sized(events, |vms|) && j < |events| && i < |vms|
    requires Run(vms, events[..j], tolerance).vms[i] == vm && Final(vm)
    ensures Run(vms, events[..j + 1], tolerance).vms[i] == vm
  {
    assert events[..j + 1][..j] == events[..j];
    FinalStaysOnce(Run(vms, events[..j], tolerance), events[j], tolerance, i);
  }

  // Completed and Failed are absorbing: a finished VM is never touched again.
  lemma {:induction false} FinalStays(vms: seq<VM>, events: seq<Event>, tolerance: int, k: nat, j: nat, i: nat, vm: VM)
    requires Sized(events, |vms|) && k <= j <= |events| && i < |vms|
    requires Run(vms, events[..k], tolerance).vms[i] == vm && Final(vm)
    ensures Run(vms, events[..j], tolerance).vms[i] == vm
    decreases j - k
  {
    if k < j {
      FinalStaysNext(vms, events, tolerance, k, i, vm);
      FinalStays(vms, events, tolerance, k + 1, j, i, vm);
    }
  }

  predicate Lost(e: Event, i: nat) {
    e.Tick? && i < |e.replies| && e.replies[i].Unreachable?
  }

  // The last c events are lost checks of VM i.
  predicate LostLately(events: seq<Event>, i: nat, c: nat) {
    c <= |events| && forall m :: |events| - c <= m < |events| ==> Lost(events[m], i)
  }

  // Three lost checks in a row, ending with event k.
  predicate ThreeLost(events: seq<Event>, i: nat, k: nat) {
    2 <= k < |events| && Lost(events[k - 2], i) && Lost(events[k - 1], i) && Lost(events[k], i)
  }

  // A VM that was healthy when the monitor started is failed by it only after three
  // checks in a row were lost; in between, its count is the number of checks lost
  // since the last one answered.
  lemma {:induction false} FailedAfterThree(vms: seq<VM>, events: seq<Event>, tolerance: int, i: nat)
    requires Sized(events, |vms|) && i < |vms| && !Final(vms[i]) && vms[i].failureCount == 0
    ensures var m := Run(vms, events, tolerance);
            && (m.vms[i].state.Failed? ==> exists k :: ThreeLost(events, i, k))
            && (m.Monitoring? && !Final(m.vms[i]) ==>
                  m.vms[i].failureCount < LIMIT && LostLately(events, i, m.vms[i].failureCount))
            && (!Final(m.vms[i]) ==> m.vms[i].failureCount < LIMIT)
  {
    if events != [] {
      var n := |events| - 1;
      FailedAfterThree(vms, events[..n], tolerance, i);
      var before := Run(vms, events[..n], tolerance);
      if before.vms[i].state.Failed? {
        var k :| ThreeLost(events[..n], i, k);
        assert ThreeLost(events, i, k);
      } else if before.Monitoring? && !Final(before.vms[i]) && events[n].Tick? {
        NextCheck(events, i, before.vms[i]);
      }
    }
  }

  lemma NextCheck(events: seq<Event>, i: nat, vm: VM)
    requires events != [] && events[|events| - 1].Tick? && i < |events[|events| - 1].replies| && !Final(vm)
    requires vm.failureCount < LIMIT && LostLately(events[..|events| - 1], i, vm.failureCount)
    ensures var vm' := Checked(vm, events[|events| - 1].replies[i]);
            && (vm'.state.Failed? ==> ThreeLost(events, i, |events| - 1))
            && (!Final(vm') ==> vm'.failureCount < LIMIT && LostLately(events, i, vm'.failureCount))
  {
    var n := |events| - 1;
    assert forall m :: 0 <= m < n ==> events[..n][m] == events[m];
  }

  // ---- What a nil return means ----

  // A lost check that does not fail the VM: the branch that leaves it running
  // without telling the loop.
  predicate Overlooked(vm: VM, r: Reply) {
    !Final(vm) && r.Unreachable? && vm.failureCount + 1 < LIMIT
  }

  lemma {:induction false} NilReturn(vms: seq<VM>, events: seq<Event>, tolerance: int)
    requires Sized(events, |vms|) && Run(vms, events, tolerance).Returned?
    requires Run(vms, events, tolerance).result == AllCompleted
    requires forall i :: 0 <= i < |vms| && !Final(vms[i]) ==> vms[i].failureCount == 0
    ensures var last := Run(vms, events, tolerance).vms;
            && CountFailedVMs(last) <= tolerance
            && forall i :: 0 <= i < |last| && !Final(last[i]) ==> 1 <= last[i].failureCount <= 2
  {
    var n := |events| - 1;
    var before := Run(vms, events[..n], tolerance);
    if before.Returned? {
      NilReturn(vms, events[..n], tolerance);
    } else {
      var last := Run(vms, events, tolerance).vms;
      forall i | 0 <= i < |last| && !Final(last[i])
        ensures 1 <= last[i].failureCount <= 2
      {
        assert !StillBusy(before.vms[i], events[n].replies[i]);
      }
    }
  }

  // The tick that returns nil leaves every VM finished exactly when it overlooked
  // none; the condition is the guard of that branch, before the tick.
  lemma AllFinishedExactlyWhen(vms: seq<VM>, replies: seq<Reply>, tolerance: int)
    requires |replies| == |vms| && AfterTick(vms, replies, tolerance).Returned?
    requires AfterTick(vms, replies, tolerance).result == AllCompleted
    ensures (forall i :: 0 <= i < |vms| ==> Final(AfterTick(vms, replies, tolerance).vms[i]))
       <==> (forall i :: 0 <= i < |vms| ==> !Overlooked(vms[i], replies[i]))
  {
    var next := AfterTick(vms, replies, tolerance).vms;
    forall i | 0 <= i < |vms|
      ensures Final(next[i]) <==> !Overlooked(vms[i], replies[i])
    {
      assert !StillBusy(vms[i], replies[i]);
    }
  }

  // A single VM that misses one check while running is reported as completed.
  lemma NilWithRunningVM(vm: VM, tolerance: nat)
    requires vm.state == Running && vm.failureCount == 0
    ensures var m := Run([vm], [Tick([Unreachable])], tolerance);
            m.Returned? && m.result == AllCompleted && m.vms[0].state == Running
  {
    var events := [Tick([Unreachable])];
    assert events[..0] == [];
    assert CheckedAll([vm], [Unreachable])[..0] == [];
    assert CountFailedVMs(CheckedAll([vm], [Unreachable])) == 0;
  }

  // ---- When a VM completes, and when it fails ----

  predicate DoneAt(events: seq<Event>, i: nat, k: nat) {
    k < |events| && events[k].Tick? && i < |events[k].replies| && events[k].replies[i] == Output(DONE)
  }

  lemma MonitoringBefore(vms: seq<VM>, events: seq<Event>, tolerance: int, j: nat, k: nat)
    requires Sized(events, |vms|) && j <= k <= |events| && Run(vms, events[..k], tolerance).Monitoring?
    ensures Run(vms, events[..j], tolerance).Monitoring?
  {
    assert events[..k][..j] == events[..j];
    if Run(vms, events[..j], tolerance).Returned? {
      ReturnStays(vms, events[..k], tolerance, j);
    }
  }

  lemma TickAt(vms: seq<VM>, events: seq<Event>, tolerance: int, k: nat, i: nat)
    requires Sized(events, |vms|) && k < |events| && i < |vms| && events[k].Tick?
    requires Run(vms, events[..k], tolerance).Monitoring?
    ensures Run(vms, events[..k + 1], tolerance).vms[i]
         == Checked(Run(vms, events[..k], tolerance).vms[i], events[k].replies[i])
  {
    assert events[..k + 1][..k] == events[..k];
  }

  // While the monitor runs, an exact "done" or a third lost check in a row finishes a VM.
  lemma EndsFinish(vms: seq<VM>, events: seq<Event>, tolerance: int, i: nat, k: nat)
    requires Sized(events, |vms|) && i < |vms| && k < |events| && Run(vms, events[..k], tolerance).Monitoring?
    requires DoneAt(events, i, k) || ThreeLost(events, i, k)
    ensures Final(Run(vms, events[..k + 1], tolerance).vms[i])
  {
    TickAt(vms, events, tolerance, k, i);
    if !DoneAt(events, i, k) {
      MonitoringBefore(vms, events, tolerance, k - 1, k);
      MonitoringBefore(vms, events, tolerance, k - 2, k);
      TickAt(vms, events, tolerance, k - 1, i);
      TickAt(vms, events, tolerance, k - 2, i);
    }
  }

  // Event k completes VM i.
  ghost predicate CompletesAt(vms: seq<VM>, events: seq<Event>, tolerance: int, i: nat, k: nat)
    requires Sized(events, |vms|) && i < |vms|
  {
    && DoneAt(events, i, k)
    && Run(vms, events[..k], tolerance).Monitoring? && !Final(Run(vms, events[..k], tolerance).vms[i])
  }

  lemma {:induction false} CompletedAt(vms: seq<VM>, events: seq<Event>, tolerance: int, i: nat) returns (k: nat)
    requires Sized(events, |vms|) && i < |vms| && !vms[i].state.Completed?
    requires Run(vms, events, tolerance).vms[i].state.Completed?
    ensures CompletesAt(vms, events, tolerance, i, k)
  {
    var n := |events| - 1;
    if Run(vms, events[..n], tolerance).vms[i].state.Completed? {
      k := CompletedAt(vms, events[..n], tolerance, i);
      assert events[..n][..k] == events[..k];
    } else {
      k := n;
    }
  }

  // From any start: a VM is completed exactly by an exact "done" that finds it
  // unfinished while the monitor runs.
  lemma CompletesExactlyWhen(vms: seq<VM>, events: seq<Event>, tolerance: int, i: nat)
    requires Sized(events, |vms|) && i < |vms| && !vms[i].state.Completed?
    ensures Run(vms, events, tolerance).vms[i].state.Completed?
       <==> exists k: nat :: CompletesAt(vms, events, tolerance, i, k)
  {
    if Run(vms, events, tolerance).vms[i].state.Completed? {
      var k := CompletedAt(vms, events, tolerance, i);
    } else if k: nat :| CompletesAt(vms, events, tolerance, i, k) {
      TickAt(vms, events, tolerance, k, i);
      StaysToTheEnd(vms, events, tolerance, k + 1, i);
    }
  }

  lemma StaysToTheEnd(vms: seq<VM>, events: seq<Event>, tolerance: int, k: nat, i: nat)
    requires Sized(events, |vms|) && k <= |events| && i < |vms| && Final(Run(vms, events[..k], tolerance).vms[i])
    ensures Run(vms, events, tolerance).vms[i] == Run(vms, events[..k], tolerance).vms[i]
  {
    FinalStays(vms, events, tolerance, k, |events|, i, Run(vms, events[..k], tolerance).vms[i]);
    assert events[..|events|] == events;
  }

  // Neither of the two has happened to a VM that is unfinished.
  lemma UnfinishedMeans(vms: seq<VM>, events: seq<Event>, tolerance: int, i: nat, n: nat)
    requires Sized(events, |vms|) && i < |vms| && n <= |events|
    requires Run(vms, events[..n], tolerance).Monitoring? && !Final(Run(vms, events[..n], tolerance).vms[i])
    ensures forall k: nat :: k < n ==> !DoneAt(events, i, k) && !ThreeLost(events, i, k)
  {
    forall k: nat | k < n
      ensures !DoneAt(events, i, k) && !ThreeLost(events, i, k)
    {
      if DoneAt(events, i, k) || ThreeLost(events, i, k) {
        MonitoringBefore(vms, events, tolerance, k, n);
        EndsFinish(vms, events, tolerance, i, k);
        FinalStays(vms, events, tolerance, k + 1, n, i, Run(vms, events[..k + 1], tolerance).vms[i]);
      }
    }
  }

  // Read off the replies, for a VM healthy at the start: an exact "done" before any
  // three lost checks in a row completes it, and nothing else does.
  lemma CompletesByReplies(vms: seq<VM>, events: seq<Event>, tolerance: int, i: nat)
    requires Sized(events, |vms|) && i < |vms| && !Final(vms[i]) && vms[i].failureCount == 0
    ensures Run(vms, events, tolerance).vms[i].state.Completed?
       <==> exists k: nat :: DoneAt(events, i, k) && Run(vms, events[..k], tolerance).Monitoring?
              && forall j :: 0 <= j < k ==> !ThreeLost(events, i, j)
  {
    if Run(vms, events, tolerance).vms[i].state.Completed? {
      var k := CompletedAt(vms, events, tolerance, i);
      UnfinishedMeans(vms, events, tolerance, i, k);
    } else if k: nat :| DoneAt(events, i, k) && Run(vms, events[..k], tolerance).Monitoring?
                        && forall j :: 0 <= j < k ==> !ThreeLost(events, i, j) {
      EndsFinish(vms, events, tolerance, i, k);
      StaysToTheEnd(vms, events, tolerance, k + 1, i);
      if Run(vms, events, tolerance).vms[i].state.Failed? {
        NotYetFailed(vms, events, tolerance, i, k);
      }
    }
  }

  lemma NotYetFailed(vms: seq<VM>, events: seq<Event>, tolerance: int, i: nat, k: nat)
    requires Sized(events, |vms|) && i < |vms| && !Final(vms[i]) && vms[i].failureCount == 0
    requires DoneAt(events, i, k) && forall j :: 0 <= j < k ==> !ThreeLost(events, i, j)
    ensures !Run(vms, events[..k + 1], tolerance).vms[i].state.Failed?
  {
    if Run(vms, events[..k + 1], tolerance).vms[i].state.Failed? {
      FailedAfterThree(vms, events[..k + 1], tolerance, i);
      var j :| ThreeLost(events[..k + 1], i, j);
      assert ThreeLost(events, i, j);
    }
  }

  lemma {:induction false} FailedAt(vms: seq<VM>, events: seq<Event>, tolerance: int, i: nat) returns (k: nat)
    requires Sized(events, |vms|) && i < |vms| && !Final(vms[i]) && vms[i].failureCount == 0
    requires Run(vms, events, tolerance).vms[i].state.Failed?
    ensures ThreeLost(events, i, k) && Run(vms, events[..k], tolerance).Monitoring?
    ensures !Final(Run(vms, events[..k], tolerance).vms[i])
  {
    var n := |events| - 1;
    var before := Run(vms, events[..n], tolerance);
    if before.vms[i].state.Failed? {
      k := FailedAt(vms, events[..n], tolerance, i);
      assert events[..n][..k] == events[..k];
    } else {
      k := n;
      FailedAfterThree(vms, events[..n], tolerance, i);
      NextCheck(events, i, before.vms[i]);
    }
  }

  // And three lost checks in a row before any exact "done" fail it, and nothing else does.
  lemma FailsByReplies(vms: seq<VM>, events: seq<Event>, tolerance: int, i: nat)
    requires Sized(events, |vms|) && i < |vms| && !Final(vms[i]) && vms[i].failureCount == 0
    ensures Run(vms, events, tolerance).vms[i].state.Failed?
       <==> exists k: nat :: ThreeLost(events, i, k) && Run(vms, events[..k], tolerance).Monitoring?
              && forall j: nat :: j < k ==> !DoneAt(events, i, j)
  {
    if Run(vms, events, tolerance).vms[i].state.Failed? {
      var k := FailedAt(vms, events, tolerance, i);
      UnfinishedMeans(vms, events, tolerance, i, k);
    } else if k: nat :| ThreeLost(events, i, k) && Run(vms, events[..k], tolerance).Monitoring?
                        && forall j: nat :: j < k ==> !DoneAt(events, i, j) {
      EndsFinish(vms, events, tolerance, i, k);
      StaysToTheEnd(vms, events, tolerance, k + 1, i);
      if Run(vms, events, tolerance).vms[i].state.Completed? {
        NotYetCompleted(vms, events, tolerance, i, k);
      }
    }
  }

  lemma NotYetCompleted(vms: seq<VM>, events: seq<Event>, tolerance: int, i: nat, k: nat)
    requires Sized(events, |vms|) && i < |vms| && !vms[i].state.Completed? && k < |events|
    requires Lost(events[k], i) && forall j: nat :: j < k ==> !DoneAt(events, i, j)
    ensures !Run(vms, events[..k + 1], tolerance).vms[i].state.Completed?
  {
    if Run(vms, events[..k + 1], tolerance).vms[i].state.Completed? {
      var j := CompletedAt(vms, events[..k + 1], tolerance, i);
      assert DoneAt(events, i, j);
    }
  }

  // ---- What the command that is sent prints ----

  // echo ends its line, and the output is compared untrimmed.
  const PRINTED := DONE + "\n"

  predicate NeverExactlyDone(events: seq<Event>, i: nat) {
    forall k: nat :: k < |events| ==> !DoneAt(events, i, k)
  }

  lemma PrintedIsNotDone(events: seq<Event>, i: nat)
    requires forall k :: 0 <= k < |events| && events[k].Tick? && i < |events[k].replies| ==>
               events[k].replies[i] == Unreachable || events[k].replies[i] == Output(PRINTED)
    ensures NeverExactlyDone(events, i)
  {
    assert |PRINTED| != |DONE|;
  }

  // The comparison is exact: output with a trailing newline never completes a VM.
  lemma OnlyExactDoneCompletes(vms: seq<VM>, events: seq<Event>, tolerance: int, i: nat)
    requires Sized(events, |vms|) && i < |vms| && !vms[i].state.Completed? && NeverExactlyDone(events, i)
    ensures !Run(vms, events, tolerance).vms[i].state.Completed?
  {
    CompletesExactlyWhen(vms, events, tolerance, i);
  }

  // A nil return then says of no VM that it completed: each was failed, or missed
  // its last one or two checks.
  lemma NilWithoutCompletion(vms: seq<VM>, events: seq<Event>, tolerance: int)
    requires Sized(events, |vms|) && Run(vms, events, tolerance).Returned?
    requires Run(vms, events, tolerance).result == AllCompleted
    requires forall i :: 0 <= i < |vms| ==> !Final(vms[i]) && vms[i].failureCount == 0 && NeverExactlyDone(events, i)
    ensures forall vm :: vm in Run(vms, events, tolerance).vms ==>
              vm.state.Failed? || (!Final(vm) && 1 <= vm.failureCount <= 2)
  {
    NilReturn(vms, events, tolerance);
    forall i | 0 <= i < |vms|
      ensures !Run(vms, events, tolerance).vms[i].state.Completed?
    {
      OnlyExactDoneCompletes(vms, events, tolerance, i);
    }
  }

  // And a VM that answers every check keeps the monitor from returning nil at all.
  lemma {:induction false} AnswersBlockNil(vms: seq<VM>, events: seq<Event>, tolerance: int, i: nat)
    requires Sized(events, |vms|) && i < |vms| && !Final(vms[i]) && NeverExactlyDone(events, i)
    requires forall k :: 0 <= k < |events| ==> !Lost(events[k], i)
    ensures var m := Run(vms, events, tolerance);
            !Final(m.vms[i]) && (m.Returned? ==> m.result != AllCompleted)
  {
    if events != [] {
      var n := |events| - 1;
      forall k: nat | k < n
        ensures !DoneAt(events[..n], i, k)
      {
        assert !DoneAt(events, i, k);
      }
      AnswersBlockNil(vms, events[..n], tolerance, i);
      assert !DoneAt(events, i, n) && !Lost(events[n], i);
      if events[n].Tick? {
        assert StillBusy(Run(vms, events[..n], tolerance).vms[i], events[n].replies[i]);
      }
    }
  }

  // A finished benchmark as the monitor sees it: however often it is asked, the VM
  // counts as running.
  lemma {:induction false} FinishedNotNoticed(vm: VM, n: nat, tolerance: nat)
    requires vm.state == Running && vm.failureCount == 0
    ensures Run([vm], seq(n, _ => Tick([Output(PRINTED)])), tolerance) == Monitoring([vm])
  {
    var events := seq(n, _ => Tick([Output(PRINTED)]));
    if n > 0 {
      FinishedNotNoticed(vm, n - 1, tolerance);
      assert events[..n - 1] == seq(n - 1, _ => Tick([Output(PRINTED)]));
      PrintedKeepsWaiting(vm, tolerance);
    }
  }

  lemma PrintedKeepsWaiting(vm: VM, tolerance: nat)
    requires vm.state == Running && vm.failureCount == 0
    ensures AfterTick([vm], [Output(PRINTED)], tolerance) == Monitoring([vm])
  {
    var next := CheckedAll([vm], [Output(PRINTED)]);
    assert |PRINTED| != |DONE|;
    assert next == [vm] && [vm][..0] == [];
    assert CountFailedVMs([vm]) == 0;
    assert StillBusy([vm][0], [Output(PRINTED)][0]);
  }

  // ---- When the monitor returns, and with what ----

  // The check finds the VM failed, or fails it.
  predicate NowFailed(vm: VM, r: Reply) {
    vm.state.Failed? || (!vm.state.Completed? && r.Unreachable? && vm.failureCount + 1 >= 3)
  }

  function FailedNow(vms: seq<VM>, replies: seq<Reply>): set<nat>
    requires |replies| == |vms|
  {
    set i: nat | i < |vms| && NowFailed(vms[i], replies[i])
  }

  lemma {:induction false} FailedVMsCounted(vms: seq<VM>)
    ensures CountFailedVMs(vms) == |Sets.Positions(vms, (vm: VM) => vm.state.Failed?)|
  {
    if vms != [] {
      FailedVMsCounted(vms[..|vms| - 1]);
      Sets.LastPosition(vms, (vm: VM) => vm.state.Failed?);
    }
  }

  lemma FailedNowCounted(vms: seq<VM>, replies: seq<Reply>)
    requires |replies| == |vms|
    ensures CountFailedVMs(CheckedAll(vms, replies)) == |FailedNow(vms, replies)|
  {
    var next := CheckedAll(vms, replies);
    FailedVMsCounted(next);
    forall i: nat | i < |vms|
      ensures next[i].state.Failed? <==> NowFailed(vms[i], replies[i])
    {}
    assert FailedNow(vms, replies) == Sets.Positions(next, (vm: VM) => vm.state.Failed?);
  }

  // The event ends the monitor with this result, whatever came before.
  predicate Decides(vms: seq<VM>, e: Event, tolerance: int, result: Result) {
    match e
    case Cancel => result == Cancelled
    case Timeout => result == TimedOut
    case Tick(replies) =>
      && |replies| == |vms|
      && if |FailedNow(vms, replies)| > tolerance then result == TooManyFailed
         else
           && result == AllCompleted
           && forall i :: 0 <= i < |vms| ==>
                vms[i].state.Failed? || vms[i].state.Completed? || replies[i] == Unreachable || replies[i] == Output("done")
  }

  ghost predicate DecidedAt(vms: seq<VM>, events: seq<Event>, tolerance: int, k: nat, result: Result)
    requires Sized(events, |vms|)
  {
    && k < |events| && Run(vms, events[..k], tolerance).Monitoring?
    && Decides(Run(vms, events[..k], tolerance).vms, events[k], tolerance, result)
  }

  lemma NextDecides(vms: seq<VM>, e: Event, tolerance: int, result: Result)
    requires e.Tick? ==> |e.replies| == |vms|
    ensures var m := Next(Monitoring(vms), e, tolerance);
            m.Returned? && m.result == result <==> Decides(vms, e, tolerance, result)
  {
    if e.Tick? {
      FailedNowCounted(vms, e.replies);
    }
  }

  lemma {:induction false} ReturnedAt(vms: seq<VM>, events: seq<Event>, tolerance: int) returns (k: nat)
    requires Sized(events, |vms|) && Run(vms, events, tolerance).Returned?
    ensures DecidedAt(vms, events, tolerance, k, Run(vms, events, tolerance).result)
  {
    var n := |events| - 1;
    var before := Run(vms, events[..n], tolerance);
    if before.Returned? {
      k := ReturnedAt(vms, events[..n], tolerance);
      assert events[..n][..k] == events[..k];
    } else {
      k := n;
      NextDecides(before.vms, events[n], tolerance, Run(vms, events, tolerance).result);
    }
  }

  // The monitor returns a result exactly when an event that decides it comes while the
  // monitor is still running.
  lemma ReturnsExactlyWhen(vms: seq<VM>, events: seq<Event>, tolerance: int, result: Result)
    requires Sized(events, |vms|)
    ensures Run(vms, events, tolerance).Returned? && Run(vms, events, tolerance).result == result
       <==> exists k: nat :: DecidedAt(vms, events, tolerance, k, result)
  {
    if Run(vms, events, tolerance).Returned? && Run(vms, events, tolerance).result == result {
      var k := ReturnedAt(vms, events, tolerance);
    } else if k: nat :| DecidedAt(vms, events, tolerance, k, result) {
      assert events[..k + 1][..k] == events[..k];
      NextDecides(Run(vms, events[..k], tolerance).vms, events[k], tolerance, result);
      ReturnStays(vms, events, tolerance, k + 1);
    }
  }
}
