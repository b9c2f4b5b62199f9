// CLUSTER NODES parsing, slot coverage and slot routing.
module Cluster {
  import opened Text
  import KeySlot
  import Sets
  import opened Crc16
  import opened Wrappers

  datatype SlotRange = SlotRange(start: int, end: int) {
    predicate Holds(slot: int) { start <= slot <= end }

    function Slots(): set<int> { set x | start <= x <= end && Holds(x) }
  }

  datatype NodeInfo = NodeInfo(
    id: string, address: string, host: string, port: int, role: string, masterId: string,
    slots: seq<SlotRange>, flags: seq<string>, connected: bool,
    pingSent: int, pongRecv: int, configEpoch: int, linkState: string)

  datatype ClusterTopology = ClusterTopology(
    nodes: seq<NodeInfo>, masters: seq<NodeInfo>, replicas: seq<NodeInfo>,
    totalSlots: int, coveredSlots: int, clusterOK: bool, currentEpoch: int, myEpoch: int)

  const TOTAL_SLOTS := 16384

  // ---- One slot field ----

  // None is the error return.
  function ParseSlotRange(s: string): Option<SlotRange> {
    var parts := Split(s, '-');
    if '-' in s && |parts| == 2 then
      Some(SlotRange(Atoi(parts[0]).value, Atoi(parts[1]).value))
    else
      var slot := Atoi(s);
      if slot.ok then Some(SlotRange(slot.value, slot.value)) else None
  }

  // A bracketed field is a migration.
  function OwnRange(field: string): seq<SlotRange> {
    if field != [] && field[0] == '[' then []
    else match ParseSlotRange(field)
      case Some(sr) => [sr]
      case None => []
  }

  // The ranges read from the slot fields of a line, in order.
  function SlotsOf(fields: seq<string>): seq<SlotRange> {
    if fields == [] then [] else SlotsOf(fields[..|fields| - 1]) + OwnRange(fields[|fields| - 1])
  }

  lemma SlotsOfNext(fields: seq<string>, k: nat)
    requires k < |fields|
    ensures SlotsOf(fields[..k + 1]) == SlotsOf(fields[..k]) + OwnRange(fields[k])
  {
    assert fields[..k + 1][..k] == fields[..k];
  }

  // The role set by the flags read so far; the last role flag wins.
  function RoleOf(flags: seq<string>): string {
    if flags == [] then ""
    else if flags[|flags| - 1] == "master" then "master"
    else if flags[|flags| - 1] == "slave" || flags[|flags| - 1] == "replica" then "replica"
    else RoleOf(flags[..|flags| - 1])
  }

  // ---- One line ----

  function HostPort(address: string): (string, int) {
    var parts := Split(Split(address, '@')[0], ':');
    if |parts| == 2 then (parts[0], Atoi(parts[1]).value) else ("", 0)
  }

  // The node described by the words of a line.
  function NodeFrom(parts: seq<string>): NodeInfo
    requires |parts| >= 8
  {
    var flags := Split(parts[2], ',');
    var role := if RoleOf(flags) == "" then "unknown" else RoleOf(flags);
    NodeInfo(
      parts[0], parts[1], HostPort(parts[1]).0, HostPort(parts[1]).1, role,
      if parts[3] != "-" then parts[3] else "",
      if role == "master" then SlotsOf(parts[8..]) else [],
      flags, parts[7] == "connected",
      Atoi(parts[4]).value, Atoi(parts[5]).value, Atoi(parts[6]).value, parts[7])
  }

  // None is the parser's error.
  function NodeOf(line: string): Option<NodeInfo> {
    var parts := Fields(line);
    if |parts| < 8 then None else Some(NodeFrom(parts))
  }

  // The flag loop of the line parser.
  method ReadRole(flags: seq<string>) returns (role: string)
    ensures role == if RoleOf(flags) == "" then "unknown" else RoleOf(flags)
  {
    role := "";
    for i := 0 to |flags|
      invariant role == RoleOf(flags[..i])
    {
      assert flags[..i + 1][..i] == flags[..i];
      if flags[i] == "master" {
        role := "master";
      } else if flags[i] == "slave" || flags[i] == "replica" {
        role := "replica";
      }
    }
    assert flags[..|flags|] == flags;
    if role == "" {
      role := "unknown";
    }
  }

  // The slot loop of the line parser.
  method ReadSlots(fields: seq<string>) returns (slots: seq<SlotRange>)
    ensures slots == SlotsOf(fields)
  {
    slots := [];
    for i := 0 to |fields|
      invariant slots == SlotsOf(fields[..i])
    {
      SlotsOfNext(fields, i);
      if fields[i] != [] && fields[i][0] == '[' {
        continue;
      }
      var sr := ParseSlotRange(fields[i]);
      if sr.Some? {
        slots := slots + [sr.value];
      }
    }
    assert fields[..|fields|] == fields;
  }

  method ReadAddress(address: string) returns (host: string, port: int)
    ensures (host, port) == HostPort(address)
  {
    var addrParts := Split(Split(address, '@')[0], ':');
    host, port := "", 0;
    if |addrParts| == 2 {
      host, port := addrParts[0], Atoi(addrParts[1]).value;
    }
  }

  method ParseNodeLine(line: string) returns (r: Option<NodeInfo>)
    ensures r == NodeOf(line)
  {
    var parts := Fields(line);
    if |parts| < 8 {
      return None;
    }
    var host, port := ReadAddress(parts[1]);
    var flags := Split(parts[2], ',');
    var role := ReadRole(flags);
    var slots := [];
    if |parts| > 8 && role == "master" {
      slots := ReadSlots(parts[8..]);
    } else if role == "master" {
      assert parts[8..] == [];
    }
    r := Some(NodeInfo(
      parts[0], parts[1], host, port, role,
      if parts[3] != "-" then parts[3] else "", slots, flags, parts[7] == "connected",
      Atoi(parts[4]).value, Atoi(parts[5]).value, Atoi(parts[6]).value, parts[7]));
  }

  // ---- The whole reply ----

  function Successes<T>(rs: seq<Option<T>>): seq<T> {
    if rs == [] then []
    else
      var before := Successes(rs[..|rs| - 1]);
      match rs[|rs| - 1]
      case Some(x) => before + [x]
      case None => before
  }

  function ParseLines(lines: seq<string>): (rs: seq<Option<NodeInfo>>)
    ensures |rs| == |lines|
  {
    seq(|lines|, i requires 0 <= i < |lines| => NodeOf(lines[i]))
  }

  // Lines that do not parse are skipped.
  function NodesOf(lines: seq<string>): seq<NodeInfo> {
    Successes(ParseLines(lines))
  }

  lemma NodesOfNext(lines: seq<string>, k: nat, r: Option<NodeInfo>)
    requires k < |lines| && r == NodeOf(lines[k])
    ensures NodesOf(lines[..k + 1]) == NodesOf(lines[..k]) + match r { case Some(n) => [n] case None => [] }
  {
    assert ParseLines(lines[..k + 1])[..k] == ParseLines(lines[..k]);
    assert NodesOf(lines[..k]) + [] == NodesOf(lines[..k]);
  }

  function WithRole(nodes: seq<NodeInfo>, master: bool): (r: seq<NodeInfo>)
    ensures forall n :: n in r <==> n in nodes && (n.role == "master") == master
  {
    if nodes == [] then []
    else
      var before := WithRole(nodes[..|nodes| - 1], master);
      var last := nodes[|nodes| - 1];
      if (last.role == "master") == master then before + [last] else before
  }

  predicate InSomeRange(ranges: seq<SlotRange>, x: int) {
    exists i :: 0 <= i < |ranges| && ranges[i].Holds(x)
  }

  lemma LastRange(ranges: seq<SlotRange>, x: int)
    requires ranges != []
    ensures InSomeRange(ranges, x)
       <==> InSomeRange(ranges[..|ranges| - 1], x) || ranges[|ranges| - 1].Holds(x)
  {
    var front := ranges[..|ranges| - 1];
    if InSomeRange(front, x) {
      var i :| 0 <= i < |front| && front[i].Holds(x);
      assert ranges[i].Holds(x);
    }
    if InSomeRange(ranges, x) && !ranges[|ranges| - 1].Holds(x) {
      var i :| 0 <= i < |ranges| && ranges[i].Holds(x);
      assert front[i].Holds(x);
    }
  }

  lemma LastRanges(ranges: seq<SlotRange>)
    requires ranges != []
    ensures forall x :: InSomeRange(ranges, x)
                   <==> InSomeRange(ranges[..|ranges| - 1], x) || ranges[|ranges| - 1].Holds(x)
  {
    forall x
      ensures InSomeRange(ranges, x)
         <==> InSomeRange(ranges[..|ranges| - 1], x) || ranges[|ranges| - 1].Holds(x)
    {
      LastRange(ranges, x);
    }
  }

  function RangeSlots(ranges: seq<SlotRange>): (s: set<int>)
    ensures forall x :: x in s <==> InSomeRange(ranges, x)
  {
    if ranges == [] then {}
    else
      LastRanges(ranges);
      RangeSlots(ranges[..|ranges| - 1]) + ranges[|ranges| - 1].Slots()
  }

  predicate ClaimedBySome(masters: seq<NodeInfo>, x: int) {
    exists i :: 0 <= i < |masters| && x in RangeSlots(masters[i].slots)
  }

  lemma LastMaster(masters: seq<NodeInfo>, x: int)
    requires masters != []
    ensures ClaimedBySome(masters, x)
       <==> ClaimedBySome(masters[..|masters| - 1], x) || x in RangeSlots(masters[|masters| - 1].slots)
  {
    var front := masters[..|masters| - 1];
    if ClaimedBySome(front, x) {
      var i :| 0 <= i < |front| && x in RangeSlots(front[i].slots);
      assert x in RangeSlots(masters[i].slots);
    }
    if ClaimedBySome(masters, x) && x !in RangeSlots(masters[|masters| - 1].slots) {
      var i :| 0 <= i < |masters| && x in RangeSlots(masters[i].slots);
      assert x in RangeSlots(front[i].slots);
    }
  }

  lemma LastMasters(masters: seq<NodeInfo>)
    requires masters != []
    ensures forall x :: ClaimedBySome(masters, x)
                   <==> ClaimedBySome(masters[..|masters| - 1], x) || x in RangeSlots(masters[|masters| - 1].slots)
  {
    forall x
      ensures ClaimedBySome(masters, x)
         <==> ClaimedBySome(masters[..|masters| - 1], x) || x in RangeSlots(masters[|masters| - 1].slots)
    {
      LastMaster(masters, x);
    }
  }

  // Every slot some master claims.
  function Covered(masters: seq<NodeInfo>): (s: set<int>)
    ensures forall x :: x in s <==> ClaimedBySome(masters, x)
  {
    if masters == [] then {}
    else
      LastMasters(masters);
      Covered(masters[..|masters| - 1]) + RangeSlots(masters[|masters| - 1].slots)
  }

  lemma RolesNext(nodes: seq<NodeInfo>, node: NodeInfo)
    ensures WithRole(nodes + [node], true) == WithRole(nodes, true) + if node.role == "master" then [node] else []
    ensures WithRole(nodes + [node], false) == WithRole(nodes, false) + if node.role == "master" then [] else [node]
  {
    assert (nodes + [node])[..|nodes|] == nodes;
  }

  lemma CoveredNext(masters: seq<NodeInfo>, node: NodeInfo)
    ensures Covered(masters + [node]) == Covered(masters) + RangeSlots(node.slots)
  {
    assert (masters + [node])[..|masters|] == masters;
  }

  // The topology before CLUSTER INFO is consulted.
  function TopologyOf(reply: string): ClusterTopology {
    var nodes := NodesOf(Split(TrimSpace(reply), '\n'));
    var masters := WithRole(nodes, true);
    ClusterTopology(nodes, masters, WithRole(nodes, false), TOTAL_SLOTS,
                    |Covered(masters)|, |Covered(masters)| == TOTAL_SLOTS, 0, 0)
  }

  // strings.SplitN(line, ":", 2), None when there is no colon.
  function KeyValue(line: string): Option<(string, string)> {
    if line == [] then None
    else if line[0] == ':' then Some(([], line[1..]))
    else match KeyValue(line[1..])
      case Some(kv) => Some(([line[0]] + kv.0, kv.1))
      case None => None
  }

  function ApplyInfoLine(line: string, t: ClusterTopology): ClusterTopology {
    match KeyValue(TrimSpace(line))
    case None => t
    case Some(kv) =>
      if kv.0 == "cluster_state" then t.(clusterOK := kv.1 == "ok")
      else if kv.0 == "cluster_current_epoch" then t.(currentEpoch := Atoi(kv.1).value)
      else if kv.0 == "cluster_my_epoch" then t.(myEpoch := Atoi(kv.1).value)
      else t
  }

  function ApplyInfo(lines: seq<string>, t: ClusterTopology): ClusterTopology {
    if lines == [] then t
    else ApplyInfoLine(lines[|lines| - 1], ApplyInfo(lines[..|lines| - 1], t))
  }

  method ParseClusterInfo(info: string, topology: ClusterTopology) returns (t: ClusterTopology)
    ensures t == ApplyInfo(Split(info, '\n'), topology)
  {
    t := topology;
    var lines := Split(info, '\n');
    for i := 0 to |lines|
      invariant t == ApplyInfo(lines[..i], topology)
    {
      assert lines[..i + 1][..i] == lines[..i];
      var kv := KeyValue(TrimSpace(lines[i]));
      if kv.None? {
        continue;
      }
      match kv.value.0 {
        case "cluster_state" => t := t.(clusterOK := kv.value.1 == "ok");
        case "cluster_current_epoch" => t := t.(currentEpoch := Atoi(kv.value.1).value);
        case "cluster_my_epoch" => t := t.(myEpoch := Atoi(kv.value.1).value);
        case _ =>
      }
    }
    assert lines[..|lines|] == lines;
  }

  // What the client answers to one command.
  datatype Reply = Answer(text: string) | NotText | Failed

  function Loaded(nodes: string, info: Reply): ClusterTopology {
    if info.Answer? then ApplyInfo(Split(info.text, '\n'), TopologyOf(nodes)) else TopologyOf(nodes)
  }

  // The first master claiming the slot.
  function OwnerOf(masters: seq<NodeInfo>, slot: int): Option<NodeInfo> {
    if masters == [] then None
    else if slot in RangeSlots(masters[0].slots) then Some(masters[0])
    else OwnerOf(masters[1..], slot)
  }

  class ClusterAnalyzer {
    var topology: Option<ClusterTopology>

    constructor ()
      ensures topology == None
    {
      topology := None;
    }

    method GetTopology(nodesReply: Reply, infoReply: Reply) returns (t: Option<ClusterTopology>)
      modifies this
      ensures nodesReply.Answer? ==> t == Some(Loaded(nodesReply.text, infoReply)) && topology == t
      ensures !nodesReply.Answer? ==> t == None && topology == old(topology)
    {
      if !nodesReply.Answer? {
        return None;
      }
      var lines := Split(TrimSpace(nodesReply.text), '\n');
      var nodes, masters, replicas: seq<NodeInfo> := [], [], [];
      var covered: set<int> := {};
      for i := 0 to |lines|
        invariant nodes == NodesOf(lines[..i])
        invariant masters == WithRole(nodes, true) && replicas == WithRole(nodes, false)
        invariant covered == Covered(masters)
      {
        if lines[i] == "" {
          NodesOfNext(lines, i, None);
          continue;
        }
        var node := ParseNodeLine(lines[i]);
        NodesOfNext(lines, i, node);
        if node.None? {
          continue;
        }
        RolesNext(nodes, node.value);
        nodes := nodes + [node.value];
        if node.value.role == "master" {
          CoveredNext(masters, node.value);
          covered := AddSlots(covered, node.value.slots);
          masters := masters + [node.value];
        } else {
          replicas := replicas + [node.value];
        }
      }
      assert lines[..|lines|] == lines;
      var loaded := ClusterTopology(nodes, masters, replicas, TOTAL_SLOTS,
                                    |covered|, |covered| == TOTAL_SLOTS, 0, 0);
      if infoReply.Answer? {
        loaded := ParseClusterInfo(infoReply.text, loaded);
      }
      topology := Some(loaded);
      t := topology;
    }

    method GetNodeForSlot(slot: int) returns (r: Option<NodeInfo>)
      ensures r == if topology.None? then None else OwnerOf(topology.value.masters, slot)
    {
      if topology.None? {
        return None;
      }
      var masters := topology.value.masters;
      for i := 0 to |masters|
        invariant OwnerOf(masters, slot) == OwnerOf(masters[i..], slot)
      {
        var ranges := masters[i].slots;
        for j := 0 to |ranges|
          invariant forall k :: 0 <= k < j ==> !ranges[k].Holds(slot)
        {
          if slot >= ranges[j].start && slot <= ranges[j].end {
            assert ranges[j].Holds(slot);
            return Some(masters[i]);
          }
        }
      }
      return None;
    }
  }

  method AddRange(covered: set<int>, sr: SlotRange) returns (r: set<int>)
    ensures r == covered + sr.Slots()
  {
    r := covered;
    var slot := sr.start;
    while slot <= sr.end
      invariant sr.start <= slot && (sr.start <= sr.end ==> slot <= sr.end + 1)
      invariant forall x :: x in r <==> x in covered || (sr.Holds(x) && x < slot)
    {
      r := r + {slot};
      slot := slot + 1;
    }
    assert forall x :: x in sr.Slots() <==> sr.Holds(x);
  }

  method AddSlots(covered: set<int>, ranges: seq<SlotRange>) returns (r: set<int>)
    ensures r == covered + RangeSlots(ranges)
  {
    r := covered;
    for j := 0 to |ranges|
      invariant r == covered + RangeSlots(ranges[..j])
    {
      assert ranges[..j + 1][..j] == ranges[..j];
      r := AddRange(r, ranges[j]);
    }
    assert ranges[..|ranges|] == ranges;
  }

  // ---- Coverage and routability ----

  lemma {:induction false} OwnerClaims(masters: seq<NodeInfo>, slot: int)
    ensures OwnerOf(masters, slot).Some? <==> slot in Covered(masters)
    ensures OwnerOf(masters, slot).Some? ==>
      OwnerOf(masters, slot).value in masters && slot in RangeSlots(OwnerOf(masters, slot).value.slots)
  {
    if masters != [] {
      OwnerClaims(masters[1..], slot);
      if slot in Covered(masters) {
        var i :| 0 <= i < |masters| && slot in RangeSlots(masters[i].slots);
        assert i > 0 ==> masters[1..][i - 1] == masters[i];
      }
      if slot in Covered(masters[1..]) {
        var i :| 0 <= i < |masters[1..]| && slot in RangeSlots(masters[1..][i].slots);
        assert masters[i + 1] == masters[1..][i];
      }
    }
  }

  ghost predicate Routable(masters: seq<NodeInfo>) {
    forall slot :: 0 <= slot < TOTAL_SLOTS ==> OwnerOf(masters, slot).Some?
  }

  function Below(n: nat): (s: set<int>)
    ensures |s| == n && forall x :: x in s <==> 0 <= x < n
  {
    if n == 0 then {} else Below(n - 1) + {n - 1}
  }

  predicate IsSlot(x: int) {
    0 <= x < TOTAL_SLOTS
  }

  function AllSlots(): set<int> {
    set x | 0 <= x < TOTAL_SLOTS && IsSlot(x)
  }

  lemma CountAllSlots(n: nat)
    requires n == TOTAL_SLOTS
    ensures |AllSlots()| == n
  {
    assert AllSlots() == Below(n);
  }

  // The claimed slots that exist, those that do not, and the slots nobody claims.
  function RealSlots(masters: seq<NodeInfo>): set<int> {
    Covered(masters) * AllSlots()
  }

  function StraySlots(masters: seq<NodeInfo>): set<int> {
    Covered(masters) - AllSlots()
  }

  function MissingSlots(masters: seq<NodeInfo>): set<int> {
    AllSlots() - Covered(masters)
  }

  lemma RoutableMeansAllReal(masters: seq<NodeInfo>)
    ensures Routable(masters) <==> AllSlots() <= RealSlots(masters)
  {
    forall slot | 0 <= slot < TOTAL_SLOTS
      ensures OwnerOf(masters, slot).Some? <==> slot in RealSlots(masters)
    {
      assert IsSlot(slot);
      OwnerClaims(masters, slot);
    }
  }

  lemma RoutableCounts(masters: seq<NodeInfo>)
    ensures Routable(masters) <==> |RealSlots(masters)| == TOTAL_SLOTS
    ensures |Covered(masters)| == |RealSlots(masters)| + |StraySlots(masters)|
  {
    assert Covered(masters) == RealSlots(masters) + StraySlots(masters);
    RoutableMeansAllReal(masters);
    Sets.SubsetSize(RealSlots(masters), AllSlots());
    CountAllSlots(TOTAL_SLOTS);
  }

  // Every key reaches a master exactly when every slot has one.
  lemma RoutableByKey(masters: seq<NodeInfo>)
    ensures Routable(masters) <==> forall key: Bytes :: OwnerOf(masters, KeySlot.SlotOf(key)).Some?
  {
    forall key: Bytes
      ensures 0 <= KeySlot.SlotOf(key) < TOTAL_SLOTS
    {
      KeySlot.FoldRange(Crc(KeySlot.HashedPart(key)));
    }
    if forall key: Bytes :: OwnerOf(masters, KeySlot.SlotOf(key)).Some? {
      forall slot | 0 <= slot < TOTAL_SLOTS
        ensures OwnerOf(masters, slot).Some?
      {
        var key := KeySlot.EverySlotHasKey(slot);
      }
    }
  }

  lemma ClaimsAddUp(masters: seq<NodeInfo>)
    ensures Routable(masters) <==> |MissingSlots(masters)| == 0
    ensures |Covered(masters)| == TOTAL_SLOTS - |MissingSlots(masters)| + |StraySlots(masters)|
  {
    assert AllSlots() == RealSlots(masters) + MissingSlots(masters);
    CountAllSlots(TOTAL_SLOTS);
    RoutableCounts(masters);
  }

  // ---- CLUSTER INFO ----

  predicate SetsState(line: string) {
    KeyValue(TrimSpace(line)).Some? && KeyValue(TrimSpace(line)).value.0 == "cluster_state"
  }

  lemma ApplyInfoSnoc(lines: seq<string>, line: string, t: ClusterTopology)
    ensures ApplyInfo(lines + [line], t) == ApplyInfoLine(line, ApplyInfo(lines, t))
  {
    assert (lines + [line])[..|lines|] == lines;
  }

  lemma InfoLine(line: string, t: ClusterTopology)
    ensures ApplyInfoLine(line, t).masters == t.masters && ApplyInfoLine(line, t).coveredSlots == t.coveredSlots
    ensures ApplyInfoLine(line, t).clusterOK
         == if SetsState(line) then KeyValue(TrimSpace(line)).value.1 == "ok" else t.clusterOK
  {}

  lemma {:induction false} InfoKeepsCoverage(lines: seq<string>, t: ClusterTopology)
    ensures ApplyInfo(lines, t).masters == t.masters && ApplyInfo(lines, t).coveredSlots == t.coveredSlots
  {
    if lines != [] {
      var n := |lines| - 1;
      InfoKeepsCoverage(lines[..n], t);
      InfoLine(lines[n], ApplyInfo(lines[..n], t));
    }
  }

  // Without a state line ClusterOK stays.
  lemma {:induction false} SilentInfo(lines: seq<string>, t: ClusterTopology)
    requires forall i :: 0 <= i < |lines| ==> !SetsState(lines[i])
    ensures ApplyInfo(lines, t).clusterOK == t.clusterOK
  {
    if lines != [] {
      var n := |lines| - 1;
      SilentInfo(lines[..n], t);
      InfoLine(lines[n], ApplyInfo(lines[..n], t));
    }
  }

  // The last state line decides, whatever the claims were.
  lemma InfoOverrides(lines: seq<string>, t: ClusterTopology, k: nat)
    requires k < |lines| && SetsState(lines[k]) && forall i :: k < i < |lines| ==> !SetsState(lines[i])
    ensures ApplyInfo(lines, t).clusterOK == (KeyValue(TrimSpace(lines[k])).value.1 == "ok")
  {
    InfoFrom(lines, t, k, |lines|);
    assert lines[..|lines|] == lines;
  }

  lemma {:induction false} InfoFrom(lines: seq<string>, t: ClusterTopology, k: nat, n: nat)
    requires k < n <= |lines| && SetsState(lines[k]) && forall i :: k < i < n ==> !SetsState(lines[i])
    ensures ApplyInfo(lines[..n], t).clusterOK == (KeyValue(TrimSpace(lines[k])).value.1 == "ok")
  {
    if n > k + 1 {
      InfoFrom(lines, t, k, n - 1);
    }
    assert lines[..n] == lines[..n - 1] + [lines[n - 1]];
    ApplyInfoSnoc(lines[..n - 1], lines[n - 1], t);
    InfoLine(lines[n - 1], ApplyInfo(lines[..n - 1], t));
  }

  // CLUSTER INFO fails or has no state line.
  predicate Silent(info: Reply) {
    info.Answer? ==> forall i :: 0 <= i < |Split(info.text, '\n')| ==> !SetsState(Split(info.text, '\n')[i])
  }

  lemma LoadedSilently(nodes: string, info: Reply)
    requires Silent(info)
    ensures Loaded(nodes, info).masters == TopologyOf(nodes).masters
    ensures Loaded(nodes, info).clusterOK <==> |Covered(TopologyOf(nodes).masters)| == TOTAL_SLOTS
  {
    if info.Answer? {
      InfoKeepsCoverage(Split(info.text, '\n'), TopologyOf(nodes));
      SilentInfo(Split(info.text, '\n'), TopologyOf(nodes));
    }
  }

  // ---- What ClusterOK means in the topology that is stored ----

  // With no claim outside 0..16383 and no state line, ClusterOK means that every key
  // can be routed.
  lemma CoverageMeansRoutability(nodes: string, info: Reply)
    requires Silent(info) && StraySlots(Loaded(nodes, info).masters) == {}
    ensures var t := Loaded(nodes, info);
            t.clusterOK <==> forall key: Bytes :: OwnerOf(t.masters, KeySlot.SlotOf(key)).Some?
  {
    LoadedSilently(nodes, info);
    ClaimsAddUp(Loaded(nodes, info).masters);
    RoutableByKey(Loaded(nodes, info).masters);
  }

  lemma FlagErrs(masters: seq<NodeInfo>, ok: bool)
    requires ok <==> |Covered(masters)| == TOTAL_SLOTS
    ensures ok && !Routable(masters)
       <==> |StraySlots(masters)| > 0 && |MissingSlots(masters)| == |StraySlots(masters)|
    ensures !ok && Routable(masters) <==> |StraySlots(masters)| > 0 && |MissingSlots(masters)| == 0
  {
    ClaimsAddUp(masters);
  }

  // With stray claims the flag errs in two ways, each exactly in one case: it is set
  // on an unroutable cluster when the stray claims make up for the missing slots, and
  // unset on a routable one when there is any stray claim at all.
  lemma CoverageErrsExactlyWhen(nodes: string, info: Reply)
    requires Silent(info)
    ensures var t := Loaded(nodes, info);
            var stray, missing := |StraySlots(t.masters)|, |MissingSlots(t.masters)|;
            && (t.clusterOK && !Routable(t.masters) <==> stray > 0 && missing == stray)
            && (!t.clusterOK && Routable(t.masters) <==> stray > 0 && missing == 0)
  {
    LoadedSilently(nodes, info);
    FlagErrs(Loaded(nodes, info).masters, Loaded(nodes, info).clusterOK);
  }

  // Keys with one non-empty first hash tag are served by one master.
  lemma TagDecidesMaster(masters: seq<NodeInfo>, k1: Bytes, p1: Bytes, s1: Bytes,
                         k2: Bytes, p2: Bytes, s2: Bytes, tag: Bytes)
    requires tag != [] && KeySlot.IsFirstTag(k1, p1, tag, s1) && KeySlot.IsFirstTag(k2, p2, tag, s2)
    ensures OwnerOf(masters, KeySlot.SlotOf(k1)) == OwnerOf(masters, KeySlot.SlotOf(k2))
  {
    KeySlot.TagDecidesSlot(k1, p1, tag, s1);
    KeySlot.TagDecidesSlot(k2, p2, tag, s2);
  }
}
