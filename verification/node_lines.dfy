// Printing a node the way CLUSTER NODES does and reading it back.
module NodeLines {
  import opened Text
  import opened Cluster
  import opened Wrappers

  // A slot field: one slot, a span, or a bracketed migration.
  datatype SlotField = One(slot: nat) | Span(first: nat, last: nat) | Migration(text: string)

  // A node as the server knows it; a primary has masterId "-".
  datatype NodeSpec = NodeSpec(
    id: string, host: string, port: nat, busPort: nat, flags: seq<string>, masterId: string,
    ping: nat, pong: nat, epoch: nat, link: string, slots: seq<SlotField>)

  predicate Fits(n: nat) {
    n <= MAX_INT64
  }

  predicate GoodSlotField(f: SlotField) {
    match f
    case One(s) => Fits(s)
    case Span(a, b) => Fits(a) && Fits(b)
    case Migration(t) => SpaceFree(t)
  }

  predicate GoodFlag(f: string) {
    SpaceFree(f) && ',' !in f
  }

  predicate GoodSpec(n: NodeSpec) {
    && IsWord(n.id)
    && SpaceFree(n.host) && ':' !in n.host && '@' !in n.host
    && Fits(n.port)
    && Join(n.flags, ',') != [] && n.flags != [] && (forall i :: 0 <= i < |n.flags| ==> GoodFlag(n.flags[i]))
    && IsWord(n.masterId) && IsWord(n.link)
    && Fits(n.ping) && Fits(n.pong) && Fits(n.epoch)
    && forall i :: 0 <= i < |n.slots| ==> GoodSlotField(n.slots[i])
  }

  function PrintField(f: SlotField): string {
    match f
    case One(s) => Digits(s)
    case Span(a, b) => Digits(a) + ['-'] + Digits(b)
    case Migration(t) => ['['] + t + [']']
  }

  function PrintFields(slots: seq<SlotField>): (words: seq<string>)
    ensures |words| == |slots|
  {
    seq(|slots|, i requires 0 <= i < |slots| => PrintField(slots[i]))
  }

  function PrintAddress(n: NodeSpec): string {
    n.host + [':'] + Digits(n.port) + ['@'] + Digits(n.busPort)
  }

  function Words(n: NodeSpec): seq<string> {
    [n.id, PrintAddress(n), Join(n.flags, ','), n.masterId,
     Digits(n.ping), Digits(n.pong), Digits(n.epoch), n.link] + PrintFields(n.slots)
  }

  function PrintNode(n: NodeSpec): string {
    Join(Words(n), ' ')
  }

  // The ranges a node serves: its unbracketed slot fields.
  function Ranges(slots: seq<SlotField>): seq<SlotRange> {
    if slots == [] then []
    else
      var before := Ranges(slots[..|slots| - 1]);
      match slots[|slots| - 1]
      case One(s) => before + [SlotRange(s, s)]
      case Span(a, b) => before + [SlotRange(a, b)]
      case Migration(_) => before
  }

  function Expected(n: NodeSpec): NodeInfo {
    var role := if RoleOf(n.flags) == "" then "unknown" else RoleOf(n.flags);
    NodeInfo(n.id, PrintAddress(n), n.host, n.port, role,
             if n.masterId == "-" then "" else n.masterId,
             if role == "master" then Ranges(n.slots) else [],
             n.flags, n.link == "connected", n.ping, n.pong, n.epoch, n.link)
  }

  lemma DigitsAreWords(n: nat)
    ensures IsWord(Digits(n))
    ensures forall i :: 0 <= i < |Digits(n)| ==> Digits(n)[i] != '-' && Digits(n)[i] != ':' && Digits(n)[i] != '@'
    ensures Digits(n)[0] != '['
  {}

  lemma {:induction false} JoinSpaceFree(parts: seq<string>, sep: char)
    requires !IsSpace(sep) && forall i :: 0 <= i < |parts| ==> SpaceFree(parts[i])
    ensures SpaceFree(Join(parts, sep))
  {
    if |parts| > 1 {
      JoinSpaceFree(parts[1..], sep);
    }
  }

  lemma FieldIsWord(f: SlotField)
    requires GoodSlotField(f)
    ensures IsWord(PrintField(f))
  {
    match f
    case One(s) => DigitsAreWords(s);
    case Span(a, b) => DigitsAreWords(a); DigitsAreWords(b);
    case Migration(t) =>
  }

  lemma AddressIsWord(n: NodeSpec)
    requires GoodSpec(n)
    ensures IsWord(PrintAddress(n))
  {
    DigitsAreWords(n.port);
    DigitsAreWords(n.busPort);
  }

  lemma WordsAreWords(n: NodeSpec)
    requires GoodSpec(n)
    ensures forall i :: 0 <= i < |Words(n)| ==> IsWord(Words(n)[i])
  {
    AddressIsWord(n);
    JoinSpaceFree(n.flags, ',');
    DigitsAreWords(n.ping);
    DigitsAreWords(n.pong);
    DigitsAreWords(n.epoch);
    forall i | 8 <= i < |Words(n)|
      ensures IsWord(Words(n)[i])
    {
      assert Words(n)[i] == PrintField(n.slots[i - 8]);
      FieldIsWord(n.slots[i - 8]);
    }
  }

  lemma FieldParsesBack(f: SlotField)
    requires GoodSlotField(f)
    ensures f.Migration? <==> PrintField(f)[0] == '['
    ensures f.One? ==> ParseSlotRange(PrintField(f)) == Some(SlotRange(f.slot, f.slot))
    ensures f.Span? ==> ParseSlotRange(PrintField(f)) == Some(SlotRange(f.first, f.last))
  {
    match f
    case One(s) => OneParsesBack(s);
    case Span(a, b) => SpanParsesBack(a, b);
    case Migration(t) =>
  }

  lemma OneParsesBack(slot: nat)
    requires Fits(slot)
    ensures Digits(slot)[0] != '[' && ParseSlotRange(Digits(slot)) == Some(SlotRange(slot, slot))
  {
    AtoiDigits(slot);
    assert '-' !in Digits(slot);
  }

  lemma SpanParsesBack(first: nat, last: nat)
    requires Fits(first) && Fits(last)
    ensures var s := Digits(first) + ['-'] + Digits(last);
            s[0] != '[' && ParseSlotRange(s) == Some(SlotRange(first, last))
  {
    SpanParts(Digits(first), Digits(last));
    AtoiDigits(first);
    AtoiDigits(last);
  }

  lemma SpanParts(a: string, b: string)
    requires a != [] && AllDigits(a) && AllDigits(b)
    ensures var s := a + ['-'] + b;
            s[0] != '[' && '-' in s && Split(s, '-') == [a, b]
  {
    var s := a + ['-'] + b;
    assert s[|a|] == '-' && s[0] == a[0];
    SplitFirst(a, '-', b);
    SplitWhole(b, '-');
  }

  lemma {:induction false} FieldsParseBack(slots: seq<SlotField>)
    requires forall i :: 0 <= i < |slots| ==> GoodSlotField(slots[i])
    ensures SlotsOf(PrintFields(slots)) == Ranges(slots)
  {
    if slots != [] {
      var k := |slots| - 1;
      FieldsParseBack(slots[..k]);
      FieldIsWord(slots[k]);
      FieldParsesBack(slots[k]);
      assert PrintFields(slots)[..k] == PrintFields(slots[..k]);
    }
  }

  lemma AddressParsesBack(n: NodeSpec)
    requires GoodSpec(n)
    ensures HostPort(PrintAddress(n)) == (n.host, n.port)
  {
    DigitsAreWords(n.port);
    var hostPort := n.host + [':'] + Digits(n.port);
    assert '@' !in hostPort;
    SplitFirst(hostPort, '@', Digits(n.busPort));
    SplitFirst(n.host, ':', Digits(n.port));
    SplitWhole(Digits(n.port), ':');
    AtoiDigits(n.port);
  }

  // Reading a printed node recovers every field of it.
  lemma NodeRoundTrip(n: NodeSpec)
    requires GoodSpec(n)
    ensures NodeOf(PrintNode(n)) == Some(Expected(n))
  {
    WordsAreWords(n);
    FieldsJoin(Words(n));
    WordsParseBack(n);
  }

  lemma WordsParseBack(n: NodeSpec)
    requires GoodSpec(n)
    ensures NodeFrom(Words(n)) == Expected(n)
  {
    AddressParsesBack(n);
    SplitJoin(n.flags, ',');
    AtoiDigits(n.ping);
    AtoiDigits(n.pong);
    AtoiDigits(n.epoch);
    FieldsParseBack(n.slots);
    assert Words(n)[8..] == PrintFields(n.slots);
  }

  // ---- The whole reply ----

  function PrintReply(ns: seq<NodeSpec>): string {
    Join(seq(|ns|, i requires 0 <= i < |ns| => PrintNode(ns[i])), '\n') + ['\n']
  }

  function ExpectedNodes(ns: seq<NodeSpec>): (r: seq<NodeInfo>)
    ensures |r| == |ns|
  {
    seq(|ns|, i requires 0 <= i < |ns| => Expected(ns[i]))
  }

  lemma {:induction false} JoinedWords(words: seq<string>)
    requires words != [] && forall i :: 0 <= i < |words| ==> IsWord(words[i])
    ensures var s := Join(words, ' ');
            s != [] && !IsSpace(s[0]) && !IsSpace(s[|s| - 1]) && '\n' !in s
  {
    assert IsSpace('\n');
    if |words| > 1 {
      JoinedWords(words[1..]);
    }
  }

  lemma {:induction false} JoinedLines(lines: seq<string>)
    requires lines != []
    requires forall i :: 0 <= i < |lines| ==>
               lines[i] != [] && !IsSpace(lines[i][0]) && !IsSpace(lines[i][|lines[i]| - 1])
    ensures var s := Join(lines, '\n'); s != [] && !IsSpace(s[0]) && !IsSpace(s[|s| - 1])
  {
    if |lines| > 1 {
      JoinedLines(lines[1..]);
    }
  }

  lemma {:induction false} AllSucceed<T>(rs: seq<Option<T>>, xs: seq<T>)
    requires |rs| == |xs| && forall i :: 0 <= i < |rs| ==> rs[i] == Some(xs[i])
    ensures Successes(rs) == xs
  {
    if rs != [] {
      var k := |rs| - 1;
      AllSucceed(rs[..k], xs[..k]);
      assert xs == xs[..k] + [xs[k]];
    }
  }

  // Reading a printed cluster recovers every node in order.
  lemma ReplyRoundTrip(ns: seq<NodeSpec>)
    requires ns != [] && forall i :: 0 <= i < |ns| ==> GoodSpec(ns[i])
    ensures TopologyOf(PrintReply(ns)).nodes == ExpectedNodes(ns)
  {
    var lines := seq(|ns|, i requires 0 <= i < |ns| => PrintNode(ns[i]));
    forall i | 0 <= i < |ns|
      ensures lines[i] != [] && !IsSpace(lines[i][0]) && !IsSpace(lines[i][|lines[i]| - 1]) && '\n' !in lines[i]
    {
      WordsAreWords(ns[i]);
      JoinedWords(Words(ns[i]));
    }
    JoinedLines(lines);
    TrimNewline(Join(lines, '\n'));
    SplitJoin(lines, '\n');
    forall i | 0 <= i < |ns|
      ensures ParseLines(lines)[i] == Some(ExpectedNodes(ns)[i])
    {
      NodeRoundTrip(ns[i]);
    }
    AllSucceed(ParseLines(lines), ExpectedNodes(ns));
  }

  // ---- Replies on which ClusterOK is wrong ----

  // A cluster of one master claiming first .. last.
  function Claiming(n: NodeSpec, first: nat, last: nat): NodeSpec {
    n.(flags := ["master"], slots := [Span(first, last)])
  }

  lemma OneRange(master: NodeInfo, range: SlotRange)
    requires master.slots == [range]
    ensures Covered([master]) == range.Slots()
  {
    assert [range][..0] == [] && [master][..0] == [];
  }

  lemma ClaimingIs(n: NodeSpec, first: nat, last: nat)
    ensures Expected(Claiming(n, first, last)).role == "master"
    ensures Expected(Claiming(n, first, last)).slots == [SlotRange(first, last)]
  {
    assert ["master"][0] == "master";
    var slots: seq<SlotField> := [Span(first, last)];
    assert slots[..|slots| - 1] == [];
    assert Ranges(slots) == [] + [SlotRange(first, last)];
  }

  lemma MasterAlone(node: NodeInfo)
    requires node.role == "master"
    ensures WithRole([node], true) == [node]
  {
    assert [node][..0] == [];
  }

  lemma OneMaster(n: NodeSpec, first: nat, last: nat)
    requires GoodSpec(Claiming(n, first, last))
    ensures var reply, master := PrintReply([Claiming(n, first, last)]), Expected(Claiming(n, first, last));
            TopologyOf(reply).masters == [master] && Covered([master]) == SlotRange(first, last).Slots()
  {
    ClaimingIs(n, first, last);
    ReplyOfOne(Claiming(n, first, last));
    OneRange(Expected(Claiming(n, first, last)), SlotRange(first, last));
  }

  lemma ReplyOfOne(m: NodeSpec)
    requires GoodSpec(m) && Expected(m).role == "master"
    ensures TopologyOf(PrintReply([m])).masters == [Expected(m)]
  {
    ReplyRoundTrip([m]);
    assert ExpectedNodes([m]) == [Expected(m)];
    MasterAlone(Expected(m));
  }

  lemma OneTooFar(covered: set<int>, existing: set<int>, first: nat, n: nat)
    requires first <= 1 <= n && forall x :: x in covered <==> first <= x <= n
    requires forall x :: x in existing <==> 0 <= x < n
    ensures covered - existing == {n} && existing - covered == if first == 0 then {} else {0}
  {
    assert n in covered && n !in existing;
    assert 0 in existing && (0 in covered <==> first == 0);
    forall x
      ensures x in covered - existing <==> x == n
      ensures x in existing - covered <==> x == 0 && first == 1
    {
      assert x in covered <==> first <= x <= n;
    }
  }

  lemma TooFarCounts(masters: seq<NodeInfo>, first: nat, n: nat)
    requires first <= 1 && n == TOTAL_SLOTS && Covered(masters) == SlotRange(first, n).Slots()
    ensures |StraySlots(masters)| == 1 && |MissingSlots(masters)| == first
    ensures 0 !in Covered(masters) <==> first == 1
  {
    assert forall x :: SlotRange(first, n).Holds(x) <==> first <= x <= n;
    assert forall x :: IsSlot(x) <==> 0 <= x < n;
    OneTooFar(Covered(masters), AllSlots(), first, n);
  }

  // 1-16384 counts as complete although slot 0 has no master.
  lemma CoverageAcceptsStray(n: NodeSpec, info: Reply)
    requires GoodSpec(Claiming(n, 1, 16384)) && Silent(info)
    ensures var t := Loaded(PrintReply([Claiming(n, 1, 16384)]), info);
            t.clusterOK && OwnerOf(t.masters, 0).None?
  {
    var reply, master := PrintReply([Claiming(n, 1, 16384)]), Expected(Claiming(n, 1, 16384));
    OneMaster(n, 1, 16384);
    TooFarCounts([master], 1, 16384);
    LoadedSilently(reply, info);
    CoverageErrsExactlyWhen(reply, info);
    OwnerClaims([master], 0);
  }

  // 0-16384 counts as incomplete although every slot has a master.
  lemma CoverageRejectsStray(n: NodeSpec, info: Reply)
    requires GoodSpec(Claiming(n, 0, 16384)) && Silent(info)
    ensures var t := Loaded(PrintReply([Claiming(n, 0, 16384)]), info);
            !t.clusterOK && Routable(t.masters)
  {
    var reply, master := PrintReply([Claiming(n, 0, 16384)]), Expected(Claiming(n, 0, 16384));
    OneMaster(n, 0, 16384);
    TooFarCounts([master], 0, 16384);
    LoadedSilently(reply, info);
    CoverageErrsExactlyWhen(reply, info);
  }
}
