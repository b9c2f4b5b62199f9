// What the stored topology holds, in terms of the two replies.
module Topologies {
  import opened Text
  import opened Cluster
  import opened Wrappers

  // ---- Masters and replicas ----

  // at are the positions in nodes, in increasing order, of the nodes that are masters,
  // or of those that are not.
  predicate PositionsOf(at: seq<nat>, nodes: seq<NodeInfo>, master: bool) {
    && (forall j :: 0 <= j < |at| ==> at[j] < |nodes|)
    && (forall j, k :: 0 <= j < k < |at| ==> at[j] < at[k])
    && (forall i: nat :: i < |nodes| ==> (i in at <==> (nodes[i].role == "master") == master))
  }

  predicate Selects(at: seq<nat>, nodes: seq<NodeInfo>, picked: seq<NodeInfo>) {
    |at| == |picked| && forall j :: 0 <= j < |at| ==> at[j] < |nodes| && picked[j] == nodes[at[j]]
  }

  lemma {:induction false} RolePositions(nodes: seq<NodeInfo>, master: bool) returns (at: seq<nat>)
    ensures PositionsOf(at, nodes, master) && Selects(at, nodes, WithRole(nodes, master))
  {
    at := [];
    if nodes != [] {
      var before := RolePositions(nodes[..|nodes| - 1], master);
      at := RoleNext(before, nodes, master);
    }
  }

  lemma RoleNext(before: seq<nat>, nodes: seq<NodeInfo>, master: bool) returns (at: seq<nat>)
    requires nodes != [] && PositionsOf(before, nodes[..|nodes| - 1], master)
    requires Selects(before, nodes[..|nodes| - 1], WithRole(nodes[..|nodes| - 1], master))
    ensures PositionsOf(at, nodes, master) && Selects(at, nodes, WithRole(nodes, master))
  {
    var n := |nodes| - 1;
    PositionsNext(before, nodes, master);
    SelectsNext(before, nodes, WithRole(nodes[..n], master));
    at := if (nodes[n].role == "master") == master then before + [n] else before;
  }

  lemma SelectsNext(at: seq<nat>, nodes: seq<NodeInfo>, picked: seq<NodeInfo>)
    requires nodes != [] && Selects(at, nodes[..|nodes| - 1], picked)
    ensures Selects(at, nodes, picked) && Selects(at + [|nodes| - 1], nodes, picked + [nodes[|nodes| - 1]])
  {}

  lemma PositionsNext(at: seq<nat>, nodes: seq<NodeInfo>, master: bool)
    requires nodes != [] && PositionsOf(at, nodes[..|nodes| - 1], master)
    ensures var n := |nodes| - 1;
            PositionsOf(if (nodes[n].role == "master") == master then at + [n] else at, nodes, master)
  {
    var n := |nodes| - 1;
    var next := if (nodes[n].role == "master") == master then at + [n] else at;
    forall i: nat | i < |nodes|
      ensures i in next <==> (nodes[i].role == "master") == master
    {
      if i < n {
        assert nodes[..n][i] == nodes[i] && (i in next <==> i in at);
      } else {
        assert n !in at;
      }
    }
  }

  // ---- Covered slots ----

  // Some range of some master among the nodes holds x.
  predicate ClaimedByMaster(nodes: seq<NodeInfo>, x: int) {
    exists n, r :: n in nodes && n.role == "master" && r in n.slots && r.start <= x <= r.end
  }

  lemma ClaimedMeans(nodes: seq<NodeInfo>, x: int)
    ensures x in Covered(WithRole(nodes, true)) <==> ClaimedByMaster(nodes, x)
  {
    var masters := WithRole(nodes, true);
    if ClaimedBySome(masters, x) {
      var i :| 0 <= i < |masters| && x in RangeSlots(masters[i].slots);
      var j :| 0 <= j < |masters[i].slots| && masters[i].slots[j].Holds(x);
      assert masters[i] in nodes && masters[i].slots[j] in masters[i].slots;
    }
    if ClaimedByMaster(nodes, x) {
      var n, r :| n in nodes && n.role == "master" && r in n.slots && r.start <= x <= r.end;
      var j :| 0 <= j < |n.slots| && n.slots[j] == r;
      assert n.slots[j].Holds(x);
      var i :| 0 <= i < |masters| && masters[i] == n;
    }
  }

  // ---- Fields of CLUSTER INFO ----

  // The value of a line for the key, if the line is for it.
  function ValueFor(line: string, key: string): Option<string> {
    match KeyValue(TrimSpace(line))
    case Some(kv) => if kv.0 == key then Some(kv.1) else None
    case None => None
  }

  // k is the last line for the key.
  predicate IsLastFor(lines: seq<string>, key: string, k: nat) {
    && k < |lines| && ValueFor(lines[k], key).Some?
    && forall i :: k < i < |lines| ==> ValueFor(lines[i], key).None?
  }

  predicate NoneFor(lines: seq<string>, key: string) {
    forall i :: 0 <= i < |lines| ==> ValueFor(lines[i], key).None?
  }

  // A field of the topology under the lines of a reply: the last line for its key
  // decides, and without one it keeps its value.
  ghost predicate Decided<T(!new)>(lines: seq<string>, key: string, read: string -> T, before: T, after: T) {
    && (NoneFor(lines, key) ==> after == before)
    && (forall k: nat :: IsLastFor(lines, key, k) ==> after == read(ValueFor(lines[k], key).value))
  }

  const STATE := "cluster_state"
  const CURRENT_EPOCH := "cluster_current_epoch"
  const MY_EPOCH := "cluster_my_epoch"

  lemma KeysDiffer()
    ensures STATE != CURRENT_EPOCH && STATE != MY_EPOCH && CURRENT_EPOCH != MY_EPOCH
  {
    assert STATE[8] == 's' && CURRENT_EPOCH[8] == 'c' && MY_EPOCH[8] == 'm';
  }

  // One line sets the field of its own key and no other.
  lemma LineSets(line: string, t: ClusterTopology)
    ensures var t' := ApplyInfoLine(line, t);
            && t'.clusterOK == (match ValueFor(line, STATE) case Some(v) => v == "ok" case None => t.clusterOK)
            && t'.currentEpoch == (match ValueFor(line, CURRENT_EPOCH) case Some(v) => Atoi(v).value case None => t.currentEpoch)
            && t'.myEpoch == (match ValueFor(line, MY_EPOCH) case Some(v) => Atoi(v).value case None => t.myEpoch)
            && t' == t.(clusterOK := t'.clusterOK, currentEpoch := t'.currentEpoch, myEpoch := t'.myEpoch)
  {
    KeysDiffer();
  }

  function IsOk(): string -> bool {
    v => v == "ok"
  }

  function ReadNumber(): string -> int {
    v => Atoi(v).value
  }

  // The last value given for the key.
  function LastValue(lines: seq<string>, key: string): Option<string> {
    if lines == [] then None
    else
      Newer(ValueFor(lines[|lines| - 1], key), LastValue(lines[..|lines| - 1], key))
  }

  function Newer(value: Option<string>, before: Option<string>): Option<string> {
    if value.Some? then value else before
  }

  function Read<T>(value: Option<string>, read: string -> T, before: T): T {
    match value case Some(v) => read(v) case None => before
  }

  lemma {:induction false} LastValueAt(lines: seq<string>, key: string, k: nat)
    requires IsLastFor(lines, key, k)
    ensures LastValue(lines, key) == ValueFor(lines[k], key)
  {
    if k < |lines| - 1 {
      LastValueAt(lines[..|lines| - 1], key, k);
    }
  }

  lemma {:induction false} NoLastValue(lines: seq<string>, key: string)
    requires NoneFor(lines, key)
    ensures LastValue(lines, key) == None
  {
    if lines != [] {
      NoLastValue(lines[..|lines| - 1], key);
    }
  }

  lemma LastValueDecides<T(!new)>(lines: seq<string>, key: string, read: string -> T, before: T)
    ensures Decided(lines, key, read, before, Read(LastValue(lines, key), read, before))
  {
    if NoneFor(lines, key) {
      NoLastValue(lines, key);
    }
    forall k: nat | IsLastFor(lines, key, k)
      ensures LastValue(lines, key) == ValueFor(lines[k], key)
    {
      LastValueAt(lines, key, k);
    }
  }

  function WithInfo(t: ClusterTopology, state: Option<string>, current: Option<string>, mine: Option<string>)
    : ClusterTopology
  {
    t.(clusterOK := Read(state, IsOk(), t.clusterOK), currentEpoch := Read(current, ReadNumber(), t.currentEpoch),
       myEpoch := Read(mine, ReadNumber(), t.myEpoch))
  }

  lemma {:induction false} InfoIs(lines: seq<string>, t: ClusterTopology)
    ensures ApplyInfo(lines, t)
         == WithInfo(t, LastValue(lines, STATE), LastValue(lines, CURRENT_EPOCH), LastValue(lines, MY_EPOCH))
  {
    if lines != [] {
      var front := lines[..|lines| - 1];
      InfoIs(front, t);
      InfoNext(lines[|lines| - 1], t, LastValue(front, STATE), LastValue(front, CURRENT_EPOCH), LastValue(front, MY_EPOCH));
    }
  }

  lemma InfoNext(line: string, t: ClusterTopology, state: Option<string>, current: Option<string>, mine: Option<string>)
    ensures ApplyInfoLine(line, WithInfo(t, state, current, mine))
         == WithInfo(t, Newer(ValueFor(line, STATE), state), Newer(ValueFor(line, CURRENT_EPOCH), current),
                     Newer(ValueFor(line, MY_EPOCH), mine))
  {
    LineSets(line, WithInfo(t, state, current, mine));
  }

  // What the lines make of a topology.
  lemma InfoDecides(lines: seq<string>, t: ClusterTopology)
    ensures var t' := ApplyInfo(lines, t);
            && Decided(lines, STATE, IsOk(), t.clusterOK, t'.clusterOK)
            && Decided(lines, CURRENT_EPOCH, ReadNumber(), t.currentEpoch, t'.currentEpoch)
            && Decided(lines, MY_EPOCH, ReadNumber(), t.myEpoch, t'.myEpoch)
  {
    InfoIs(lines, t);
    LastValueDecides(lines, STATE, IsOk(), t.clusterOK);
    LastValueDecides(lines, CURRENT_EPOCH, ReadNumber(), t.currentEpoch);
    LastValueDecides(lines, MY_EPOCH, ReadNumber(), t.myEpoch);
  }

  lemma InfoKeepsRest(lines: seq<string>, t: ClusterTopology)
    ensures var t' := ApplyInfo(lines, t);
            t' == t.(clusterOK := t'.clusterOK, currentEpoch := t'.currentEpoch, myEpoch := t'.myEpoch)
  {
    InfoIs(lines, t);
  }

  // ---- The stored topology ----

  // The lines of CLUSTER INFO, none if it failed.
  function InfoLines(info: Reply): seq<string> {
    if info.Answer? then Split(info.text, '\n') else []
  }

  lemma LoadedIs(nodes: string, info: Reply)
    ensures Loaded(nodes, info) == ApplyInfo(InfoLines(info), TopologyOf(nodes))
  {}

  // The nodes are those of the lines that parse, in order; the masters are the nodes
  // with that role and the replicas the others, in order.
  lemma LoadedNodes(nodes: string, info: Reply) returns (masters: seq<nat>, replicas: seq<nat>)
    ensures var t := Loaded(nodes, info);
            && t.nodes == NodesOf(Split(TrimSpace(nodes), '\n'))
            && PositionsOf(masters, t.nodes, true) && PositionsOf(replicas, t.nodes, false)
            && Selects(masters, t.nodes, t.masters) && Selects(replicas, t.nodes, t.replicas)
  {
    LoadedIs(nodes, info);
    InfoKeepsRest(InfoLines(info), TopologyOf(nodes));
    masters := RolePositions(TopologyOf(nodes).nodes, true);
    replicas := RolePositions(TopologyOf(nodes).nodes, false);
  }

  // CoveredSlots is the number of integers that some range of some master holds.
  lemma LoadedCoverage(nodes: string, info: Reply) returns (claimed: set<int>)
    ensures var t := Loaded(nodes, info);
            && (forall x :: x in claimed <==> ClaimedByMaster(t.nodes, x))
            && t.coveredSlots == |claimed| && t.totalSlots == 16384
  {
    LoadedIs(nodes, info);
    InfoKeepsRest(InfoLines(info), TopologyOf(nodes));
    var t := TopologyOf(nodes);
    claimed := Covered(t.masters);
    forall x
      ensures x in claimed <==> ClaimedByMaster(t.nodes, x)
    {
      ClaimedMeans(t.nodes, x);
    }
  }

  // ClusterOK and the epochs carry the last value INFO gives; without one ClusterOK
  // compares the two counts and an epoch is 0.
  lemma LoadedFields(nodes: string, info: Reply)
    ensures var t, lines := Loaded(nodes, info), InfoLines(info);
            && Decided(lines, STATE, IsOk(), t.coveredSlots == t.totalSlots, t.clusterOK)
            && Decided(lines, CURRENT_EPOCH, ReadNumber(), 0, t.currentEpoch)
            && Decided(lines, MY_EPOCH, ReadNumber(), 0, t.myEpoch)
  {
    LoadedIs(nodes, info);
    InfoKeepsRest(InfoLines(info), TopologyOf(nodes));
    InfoDecides(InfoLines(info), TopologyOf(nodes));
  }

  // ---- Parsing ----

  // A key ends at the first colon.
  lemma {:induction false} KeyValueParts(line: string)
    requires KeyValue(line).Some?
    ensures var kv := KeyValue(line).value;
            ':' !in kv.0 && line == kv.0 + [':'] + kv.1
  {
    if line[0] != ':' {
      KeyValueParts(line[1..]);
      assert line == [line[0]] + line[1..];
    }
  }

  lemma {:induction false} KeyValueBack(key: string, value: string)
    requires ':' !in key
    ensures KeyValue(key + [':'] + value) == Some((key, value))
  {
    var line := key + [':'] + value;
    if key == [] {
      assert line[1..] == value;
    } else {
      assert line[0] == key[0] && key[0] in key && line[1..] == key[1..] + [':'] + value;
      KeyValueBack(key[1..], value);
      assert [key[0]] + key[1..] == key;
    }
  }

  lemma {:induction false} NoColonNoKey(line: string)
    ensures KeyValue(line).None? <==> ':' !in line
  {
    if line != [] {
      NoColonNoKey(line[1..]);
    }
  }

  // A line is read without regard to the others; one that does not parse drops out.
  lemma {:induction false} LineByLine(before: seq<string>, after: seq<string>)
    ensures NodesOf(before + after) == NodesOf(before) + NodesOf(after)
    decreases |after|
  {
    if after == [] {
      assert before + after == before;
      assert NodesOf(before) + NodesOf([]) == NodesOf(before);
    } else {
      var n := |after| - 1;
      var front, line := after[..n], after[n];
      assert after == front + [line];
      LineByLine(before, front);
      NodesOfSnoc(before + front, line);
      NodesOfSnoc(front, line);
      Associates(before, front, [line]);
      Associates(NodesOf(before), NodesOf(front), Own(line));
    }
  }

  lemma Associates<T>(a: seq<T>, b: seq<T>, c: seq<T>)
    ensures (a + b) + c == a + (b + c)
  {}

  function Own(line: string): seq<NodeInfo> {
    match NodeOf(line) case Some(n) => [n] case None => []
  }

  lemma NodesOfSnoc(lines: seq<string>, line: string)
    ensures NodesOf(lines + [line]) == NodesOf(lines) + Own(line)
  {
    var all := lines + [line];
    assert all[..|lines|] == lines && all[..|lines| + 1] == all;
    NodesOfNext(all, |lines|, NodeOf(line));
  }

  lemma OneLine(line: string)
    ensures NodesOf([line]) == Own(line)
    ensures |Fields(line)| < 8 <==> NodesOf([line]) == []
  {
    assert NodesOf([]) == [] && [] + [line] == [line];
    NodesOfSnoc([], line);
  }

  // Host and port are read only from an address of two parts before any '@'.
  lemma AddressForms(host: string, port: nat, bus: string)
    requires ':' !in host && '@' !in host && port <= MAX_INT64
    ensures HostPort(host + [':'] + Digits(port)) == (host, port)
    ensures HostPort(host + [':'] + Digits(port) + ['@'] + bus) == (host, port)
    ensures HostPort(host) == ("", 0)
  {
    var address := host + [':'] + Digits(port);
    assert ':' !in Digits(port) && '@' !in Digits(port);
    SplitWhole(address, '@');
    SplitFirst(address, '@', bus);
    SplitFirst(host, ':', Digits(port));
    SplitWhole(Digits(port), ':');
    AtoiDigits(port);
    SplitWhole(host, '@');
    SplitWhole(host, ':');
  }

  lemma ManyColons(address: string)
    requires |Split(Split(address, '@')[0], ':')| >= 3
    ensures HostPort(address) == ("", 0)
  {}

  // With a dash, a slot field is a range of exactly two parts or is refused.
  lemma SlotFieldParts(s: string)
    requires |Split(s, '-')| >= 3
    ensures ParseSlotRange(s) == None
  {
    if Atoi(s).ok {
      NumberParts(s);
    }
  }

  lemma NumberParts(s: string)
    requires Atoi(s).ok
    ensures |Split(s, '-')| <= 2
  {
    var body := if s[0] == '+' || s[0] == '-' then s[1..] else s;
    assert LeadingDigits(body) == body && '-' !in body;
    if s[0] == '-' {
      assert s == [] + ['-'] + body;
      SplitFirst([], '-', body);
      SplitWhole(body, '-');
    } else {
      SplitWhole(s, '-');
    }
  }

  predicate IsRoleFlag(flag: string) {
    flag == "master" || flag == "slave" || flag == "replica"
  }

  // The last role flag decides.
  lemma {:induction false} RoleByLastFlag(flags: seq<string>, k: nat)
    requires k < |flags| && IsRoleFlag(flags[k]) && forall i :: k < i < |flags| ==> !IsRoleFlag(flags[i])
    ensures RoleOf(flags) == if flags[k] == "master" then "master" else "replica"
  {
    if k < |flags| - 1 {
      RoleByLastFlag(flags[..|flags| - 1], k);
    }
  }

  lemma {:induction false} NoRoleFlag(flags: seq<string>)
    requires forall i :: 0 <= i < |flags| ==> !IsRoleFlag(flags[i])
    ensures RoleOf(flags) == ""
  {
    if flags != [] {
      NoRoleFlag(flags[..|flags| - 1]);
    }
  }

  // A slot is routed to the first master that claims it.
  lemma {:induction false} OwnerIsFirst(masters: seq<NodeInfo>, slot: int, i: nat)
    requires i < |masters| && InSomeRange(masters[i].slots, slot)
    requires forall j :: 0 <= j < i ==> !InSomeRange(masters[j].slots, slot)
    ensures OwnerOf(masters, slot) == Some(masters[i])
  {
    if i > 0 {
      OwnerIsFirst(masters[1..], slot, i - 1);
    }
  }
}
