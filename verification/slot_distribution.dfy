// Per-slot and per-node operation counters.
module SlotDistributions {
  import opened Text
  import opened Crc16
  import KeySlot

  // ---- Sums over maps ----

  ghost function Sum<K>(m: map<K, int>): int {
    if m == map[] then 0
    else
      var k :| k in m;
      m[k] + Sum(m - {k})
  }

  // The choice of the first key does not matter.
  lemma {:induction false} SumRemove<K>(m: map<K, int>, k: K)
    requires k in m
    ensures Sum(m) == m[k] + Sum(m - {k})
    decreases m
  {
    var c :| c in m && Sum(m) == m[c] + Sum(m - {c});
    if c != k {
      SumRemove(m - {c}, k);
      SumRemove(m - {k}, c);
      assert m - {c} - {k} == m - {k} - {c};
    }
  }

  function Get<K>(m: map<K, int>, k: K): int {
    if k in m then m[k] else 0
  }

  lemma SumUpdate<K>(m: map<K, int>, k: K, v: int)
    ensures Sum(m[k := v]) == Sum(m) - Get(m, k) + v
  {
    var m' := m[k := v];
    SumRemove(m', k);
    if k in m {
      SumRemove(m, k);
      assert m' - {k} == m - {k};
    } else {
      assert m' - {k} == m;
    }
  }

  // ---- The counters as functions of the calls made ----

  function Bump<K>(m: map<K, int>, k: K): map<K, int> {
    m[k := Get(m, k) + 1]
  }

  // The counters after each of the keys was counted once.
  function CountKeys<K>(keys: seq<K>): map<K, int> {
    if keys == [] then map[]
    else Bump(CountKeys(keys[..|keys| - 1]), keys[|keys| - 1])
  }

  type Call = (Bytes, string)

  function SlotsHit(calls: seq<Call>): (slots: seq<int>)
    ensures |slots| == |calls|
  {
    seq(|calls|, i requires 0 <= i < |calls| => KeySlot.SlotOf(calls[i].0))
  }

  function NodesHit(calls: seq<Call>): (nodes: seq<string>)
    ensures |nodes| == |calls|
  {
    seq(|calls|, i requires 0 <= i < |calls| => calls[i].1)
  }

  // "3000-3999" for the thousand 3.
  function GroupName(thousand: nat): string {
    Digits(thousand * 1000) + ['-'] + Digits(thousand * 1000 + 999)
  }

  predicate SlotKeys(counts: map<int, int>) {
    forall s :: s in counts ==> 0 <= s < KeySlot.SLOTS
  }

  // The counters of one thousand.
  function InThousand(counts: map<int, int>, thousand: int): map<int, int> {
    map s | s in counts && s / 1000 == thousand :: counts[s]
  }

  // Exactly the thousands that were hit are reported, each with its sum.
  ghost predicate GroupsReport(groups: map<int, int>, counts: map<int, int>) {
    forall t {:trigger InThousand(counts, t)} ::
      (t in groups <==> InThousand(counts, t) != map[]) && Get(groups, t) == Sum(InThousand(counts, t))
  }

  // SlotGroups is keyed by the thousand; GroupName renders the key.
  datatype DistributionStats = DistributionStats(
    totalOps: int, nodeOps: map<string, int>, slotGroups: map<int, int>)

  class SlotDistribution {
    var counts: map<int, int>
    var nodeCount: map<string, int>
    ghost var calls: seq<Call>

    ghost predicate Valid()
      reads this
    {
      counts == CountKeys(SlotsHit(calls)) && nodeCount == CountKeys(NodesHit(calls))
    }

    constructor ()
      ensures Valid() && calls == []
    {
      counts, nodeCount, calls := map[], map[], [];
    }

    method RecordKey(key: Bytes, nodeAddress: string)
      requires Valid()
      modifies this
      ensures Valid() && calls == old(calls) + [(key, nodeAddress)]
    {
      CallNext(calls, key, nodeAddress);
      var slot := KeySlot.GetSlotForKey(key);
      ghost var next := calls + [(key, nodeAddress)];
      counts := Bump(counts, slot);
      assert counts == CountKeys(SlotsHit(next));
      nodeCount := Bump(nodeCount, nodeAddress);
      assert nodeCount == CountKeys(NodesHit(next));
      calls := next;
    }

    method GetSlotCounts() returns (result: map<int, int>)
      requires Valid()
      ensures result == CountKeys(SlotsHit(calls))
    {
      result := counts;
    }

    method GetNodeCounts() returns (result: map<string, int>)
      requires Valid()
      ensures result == CountKeys(NodesHit(calls))
    {
      result := nodeCount;
    }

    // All three totals are the number of calls recorded.
    method GetDistributionStats() returns (stats: DistributionStats)
      requires Valid()
      ensures stats.totalOps == |calls| && stats.nodeOps == CountKeys(NodesHit(calls))
      ensures Sum(stats.nodeOps) == |calls| && Sum(stats.slotGroups) == |calls|
      ensures GroupsReport(stats.slotGroups, CountKeys(SlotsHit(calls)))
    {
      SlotsHitAreSlots(calls);
      CountsConserve(SlotsHit(calls));
      CountsConserve(NodesHit(calls));
      var total := SumCounts(counts);
      var groups := GroupCounts(counts);
      stats := DistributionStats(total, nodeCount, groups);
    }
  }

  // The next key of a range over a map, in no particular order.
  method AnyKey<K(==)>(keys: set<K>) returns (k: K)
    requires keys != {}
    ensures k in keys
  {
    k :| k in keys;
  }

  // The first loop of GetDistributionStats, over the map in any order.
  method SumCounts(counts: map<int, int>) returns (total: int)
    ensures total == Sum(counts)
  {
    total := 0;
    var rest := counts;
    while rest.Keys != {}
      invariant total + Sum(rest) == Sum(counts)
      decreases |rest.Keys|
    {
      var slot := AnyKey(rest.Keys);
      SumRemove(rest, slot);
      total := total + rest[slot];
      assert (rest - {slot}).Keys == rest.Keys - {slot};
      rest := rest - {slot};
    }
    assert rest == map[];
  }

  // The grouping loop.
  method GroupCounts(counts: map<int, int>) returns (groups: map<int, int>)
    ensures Sum(groups) == Sum(counts) && GroupsReport(groups, counts)
  {
    groups := map[];
    var rest := counts.Keys;
    ghost var done: map<int, int> := counts - rest;
    GroupsStart(counts);
    while rest != {}
      invariant rest <= counts.Keys && done == counts - rest
      invariant Sum(groups) == Sum(done)
      invariant GroupsReport(groups, done)
      decreases |rest|
    {
      var slot := AnyKey(rest);
      var group := slot / 1000;
      GroupStep(groups, done, slot, counts[slot]);
      DoneNext(counts, rest, slot);
      groups := groups[group := Get(groups, group) + counts[slot]];
      done := done[slot := counts[slot]];
      rest := rest - {slot};
    }
    GroupsEnd(counts);
  }

  lemma GroupsStart(counts: map<int, int>)
    ensures counts - counts.Keys == map[] && GroupsReport(map[], map[])
  {
    forall t: int
      ensures InThousand(map[], t) == map[]
    {}
  }

  lemma GroupsEnd(counts: map<int, int>)
    ensures counts - {} == counts
  {}

  lemma DoneNext(counts: map<int, int>, rest: set<int>, slot: int)
    requires slot in rest && slot in counts
    ensures (counts - rest)[slot := counts[slot]] == counts - (rest - {slot})
  {}

  lemma GroupStep(groups: map<int, int>, done: map<int, int>, slot: int, v: int)
    requires Sum(groups) == Sum(done) && GroupsReport(groups, done) && slot !in done
    ensures var g := slot / 1000;
            var groups', done' := groups[g := Get(groups, g) + v], done[slot := v];
            Sum(groups') == Sum(done') && GroupsReport(groups', done')
  {
    var g := slot / 1000;
    ThousandGrows(done, slot, v);
    SumUpdate(groups, g, Get(groups, g) + v);
    SumUpdate(done, slot, v);
    var groups', done' := groups[g := Get(groups, g) + v], done[slot := v];
    assert Get(groups, g) == Sum(InThousand(done, g));
    forall t: int
      ensures (t in groups' <==> InThousand(done', t) != map[]) && Get(groups', t) == Sum(InThousand(done', t))
    {
      if t != g {
        OtherThousand(done, slot, v, t);
        assert t in groups <==> InThousand(done, t) != map[];
      }
    }
  }

  lemma OtherThousand(done: map<int, int>, slot: int, v: int, thousand: int)
    requires thousand != slot / 1000
    ensures InThousand(done[slot := v], thousand) == InThousand(done, thousand)
  {}

  lemma ThousandGrows(done: map<int, int>, slot: int, v: int)
    requires slot !in done
    ensures Sum(InThousand(done[slot := v], slot / 1000)) == Sum(InThousand(done, slot / 1000)) + v
    ensures InThousand(done[slot := v], slot / 1000) != map[]
  {
    var g := InThousand(done, slot / 1000);
    SumUpdate(g, slot, v);
    assert InThousand(done[slot := v], slot / 1000) == g[slot := v];
  }

  // Distinct thousands print as distinct group names.
  lemma GroupNameInjective(s: nat, t: nat)
    requires GroupName(s) == GroupName(t)
    ensures s == t
  {
    NameStartsWithFirstSlot(s);
    NameStartsWithFirstSlot(t);
    DigitsRoundTrip(s * 1000);
    DigitsRoundTrip(t * 1000);
  }

  // The two numbers of a name are the first and the last slot of its thousand.
  lemma GroupNameSpans(thousand: nat, slot: nat) returns (first: nat, last: nat)
    ensures Split(GroupName(thousand), '-') == [Digits(first), Digits(last)]
    ensures first <= slot <= last <==> slot / 1000 == thousand
  {
    first, last := thousand * 1000, thousand * 1000 + 999;
    assert '-' !in Digits(first) && '-' !in Digits(last);
    SplitFirst(Digits(first), '-', Digits(last));
    SplitWhole(Digits(last), '-');
  }

  lemma NameStartsWithFirstSlot(thousand: nat)
    ensures Split(GroupName(thousand), '-')[0] == Digits(thousand * 1000)
  {
    var a, b := Digits(thousand * 1000), Digits(thousand * 1000 + 999);
    assert '-' !in a;
    SplitFirst(a, '-', b);
  }

  // ---- Conservation over every run of calls ----

  lemma CountNext<K>(keys: seq<K>, k: K)
    ensures CountKeys(keys + [k]) == Bump(CountKeys(keys), k)
  {
    assert (keys + [k])[..|keys|] == keys;
  }

  lemma HitsNext(calls: seq<Call>, key: Bytes, node: string)
    ensures SlotsHit(calls + [(key, node)]) == SlotsHit(calls) + [KeySlot.SlotOf(key)]
    ensures NodesHit(calls + [(key, node)]) == NodesHit(calls) + [node]
  {}

  lemma CallNext(calls: seq<Call>, key: Bytes, node: string)
    ensures CountKeys(SlotsHit(calls + [(key, node)])) == Bump(CountKeys(SlotsHit(calls)), KeySlot.SlotOf(key))
    ensures CountKeys(NodesHit(calls + [(key, node)])) == Bump(CountKeys(NodesHit(calls)), node)
  {
    HitsNext(calls, key, node);
    CountNext(SlotsHit(calls), KeySlot.SlotOf(key));
    CountNext(NodesHit(calls), node);
  }

  lemma SlotsHitAreSlots(calls: seq<Call>)
    ensures SlotKeys(CountKeys(SlotsHit(calls)))
  {
    forall i | 0 <= i < |calls|
      ensures 0 <= SlotsHit(calls)[i] < KeySlot.SLOTS
    {
      KeySlot.FoldRange(Crc(KeySlot.HashedPart(calls[i].0)));
    }
    CountedKeys(SlotsHit(calls));
  }

  lemma {:induction false} CountedKeys<K>(keys: seq<K>)
    ensures forall k :: k in CountKeys(keys) <==> k in keys
  {
    if keys != [] {
      var n := |keys| - 1;
      CountedKeys(keys[..n]);
      assert keys == keys[..n] + [keys[n]];
    }
  }

  // The counters add up to the number of calls.
  lemma {:induction false} CountsConserve<K>(keys: seq<K>)
    ensures Sum(CountKeys(keys)) == |keys|
  {
    if keys != [] {
      var n := |keys| - 1;
      CountsConserve(keys[..n]);
      var m := CountKeys(keys[..n]);
      SumUpdate(m, keys[n], Get(m, keys[n]) + 1);
    }
  }

  // Each counter is the number of calls that hit its key.
  lemma {:induction false} CountsExact<K>(keys: seq<K>, k: K)
    ensures Get(CountKeys(keys), k) == multiset(keys)[k]
  {
    if keys != [] {
      var n := |keys| - 1;
      CountsExact(keys[..n], k);
      assert keys == keys[..n] + [keys[n]];
    }
  }

  // How many of the slots lie in a thousand.
  function HitsInThousand(slots: seq<int>, thousand: int): nat {
    if slots == [] then 0
    else HitsInThousand(slots[..|slots| - 1], thousand) + if slots[|slots| - 1] / 1000 == thousand then 1 else 0
  }

  // A group's figure is the number of calls to slots of its thousand.
  lemma {:induction false} ThousandExact(slots: seq<int>, thousand: int)
    ensures Sum(InThousand(CountKeys(slots), thousand)) == HitsInThousand(slots, thousand)
  {
    if slots != [] {
      var n := |slots| - 1;
      ThousandExact(slots[..n], thousand);
      BumpThousand(CountKeys(slots[..n]), slots[n], thousand);
    }
  }

  lemma BumpThousand(counts: map<int, int>, hit: int, thousand: int)
    ensures Sum(InThousand(Bump(counts, hit), thousand)) ==
            Sum(InThousand(counts, thousand)) + if hit / 1000 == thousand then 1 else 0
  {
    var g := InThousand(counts, thousand);
    if hit / 1000 == thousand {
      SumUpdate(g, hit, Get(counts, hit) + 1);
      assert InThousand(Bump(counts, hit), thousand) == g[hit := Get(counts, hit) + 1];
      assert Get(g, hit) == Get(counts, hit);
    } else {
      assert InThousand(Bump(counts, hit), thousand) == g;
    }
  }
}
