// What holds over every run of the hub in which a connection registers at most once.
module HubRuns {
  import opened Hubs

  // ---- Runs ----

  predicate RegistersOnce(events: seq<Event>) {
    forall i, j :: 0 <= i < j < |events| && events[i].Register? && events[j].Register? ==>
      events[i].conn != events[j].conn
  }

  predicate Live(st: State, c: Conn) {
    st.Running? && c in Filed(st, c.benchID)
  }

  // ---- Safety ----

  // No panic; a filed connection is open and under its own benchmark; an open
  // connection is filed; no queue is over capacity.
  ghost predicate Safe(st: State) {
    && st.Running?
    && (forall b, c :: b in st.connections && c in st.connections[b] ==> c.benchID == b && c in st.channels && !st.channels[c].closed)
    && (forall c :: c in st.channels && !st.channels[c].closed ==> c in Filed(st, c.benchID))
    && (forall c :: c in st.channels ==> |st.channels[c].queue| <= CAPACITY)
  }

  predicate Fresh(st: State, e: Event) {
    e.Register? && st.Running? ==> e.conn !in st.channels
  }

  lemma RegisterKeepsSafe(st: State, c: Conn)
    requires Safe(st) && c !in st.channels
    ensures Safe(AfterRegister(st, c))
  {}

  lemma UnregisterKeepsSafe(st: State, c: Conn)
    requires Safe(st)
    ensures Safe(AfterUnregister(st, c))
  {}

  lemma BroadcastKeepsSafe(st: State, b: string, m: Message)
    requires Safe(st)
    ensures Safe(AfterBroadcast(st, b, m))
  {
    if b in st.connections {
      var conns := st.connections[b];
      assert AllOpen(st.channels, conns);
      SendsKeepSafe(st, b, conns, m);
    }
  }

  lemma SendsKeepSafe(st: State, b: string, conns: set<Conn>, m: Message)
    requires Safe(st) && b in st.connections && conns == st.connections[b] && AllOpen(st.channels, conns)
    ensures Safe(AfterSends(st, b, conns, m))
  {
    var next := AfterSends(st, b, conns, m);
    forall c | c in next.channels
      ensures |next.channels[c].queue| <= CAPACITY
      ensures !next.channels[c].closed ==> c in Filed(next, c.benchID)
    {
      if c in conns {
        assert next.channels[c] == Delivered(st.channels[c], m);
      } else {
        assert next.channels[c] == st.channels[c];
      }
    }
  }

  lemma StepKeepsSafe(st: State, e: Event)
    requires Safe(st) && Fresh(st, e)
    ensures Safe(Step(st, e))
  {
    match e {
      case Register(c) => RegisterKeepsSafe(st, c);
      case Unregister(c) => UnregisterKeepsSafe(st, c);
      case Broadcast(b, m) => BroadcastKeepsSafe(st, b, m);
      case Consume(c) =>
    }
  }

  lemma NotYetRegistered(events: seq<Event>, n: nat)
    requires RegistersOnce(events) && n < |events| && events[n].Register?
    ensures events[n] !in events[..n]
  {
    forall k | 0 <= k < n
      ensures events[..n][k] != events[n]
    {
      assert events[..n][k] == events[k];
    }
  }

  // Over every run the hub never sends on a closed channel and never closes one
  // twice (it would panic), and its map holds exactly the open connections, each
  // under its own benchmark.
  lemma {:induction false} RunIsSafe(events: seq<Event>)
    requires RegistersOnce(events)
    ensures Safe(Run(events))
    ensures forall c :: c in Run(events).channels ==> Register(c) in events
  {
    if events != [] {
      var n := |events| - 1;
      RunIsSafe(events[..n]);
      assert events == events[..n] + [events[n]];
      if events[n].Register? {
        NotYetRegistered(events, n);
      }
      StepKeepsSafe(Run(events[..n]), events[n]);
    }
  }

  // The count reported for a benchmark is the number of its open connections.
  lemma CountsOpenConnections(events: seq<Event>, benchID: string)
    requires RegistersOnce(events)
    ensures Run(events).Running?
    ensures Filed(Run(events), benchID)
         == set c | c in Run(events).channels && !Run(events).channels[c].closed && c.benchID == benchID
  {
    RunIsSafe(events);
  }

  // ---- What one connection sees ----

  function Stream(st: State, c: Conn): seq<Message>
    requires st.Running?
  {
    ChannelOf(st.channels, c).Stream()
  }

  function BroadcastsFor(events: seq<Event>, benchID: string): seq<Message> {
    if events == [] then []
    else BroadcastsFor(events[..|events| - 1], benchID) + MessageFor(events[|events| - 1], benchID)
  }

  function MessageFor(e: Event, benchID: string): seq<Message> {
    if e.Broadcast? && e.benchID == benchID then [e.message] else []
  }

  // The events that take a connection out of the map.
  predicate Removes(st: State, e: Event, c: Conn)
    requires st.Running?
  {
    || e == Unregister(c)
    || (e.Broadcast? && e.benchID == c.benchID && !ChannelOf(st.channels, c).HasRoom())
  }

  lemma LiveStep(st: State, e: Event, c: Conn)
    requires Safe(st) && Fresh(st, e) && Live(st, c)
    ensures Live(Step(st, e), c) <==> !Removes(st, e, c)
    ensures Step(st, e).Running?
    ensures Stream(Step(st, e), c) == Stream(st, c) + if Removes(st, e, c) then [] else MessageFor(e, c.benchID)
  {
    StepKeepsSafe(st, e);
  }

  lemma DeadStep(st: State, e: Event, c: Conn)
    requires Safe(st) && Fresh(st, e) && !Live(st, c) && e != Register(c)
    ensures !Live(Step(st, e), c) && Step(st, e).Running?
    ensures Stream(Step(st, e), c) == Stream(st, c)
  {
    StepKeepsSafe(st, e);
  }

  // Before it registers a connection is not filed and has seen nothing.
  lemma Unseen(events: seq<Event>, c: Conn)
    requires RegistersOnce(events) && Register(c) !in events
    ensures Run(events).Running? && !Live(Run(events), c) && c !in Run(events).channels
  {
    RunIsSafe(events);
  }

  lemma NotAgain(events: seq<Event>, c: Conn, i: nat, k: nat)
    requires RegistersOnce(events) && i < |events| && k < |events| && k != i && events[i] == Register(c)
    ensures events[k] != Register(c)
  {
    if events[k].Register? {
      assert events[if i < k then i else k].conn != events[if i < k then k else i].conn;
    }
  }

  lemma UnseenBefore(events: seq<Event>, c: Conn, i: nat, k: nat)
    requires RegistersOnce(events) && k <= i < |events| && events[i] == Register(c)
    ensures Run(events[..k]).Running? && !Live(Run(events[..k]), c) && c !in Run(events[..k]).channels
  {
    forall x | x in events[..k]
      ensures x != Register(c)
    {
      var y :| 0 <= y < k && events[..k][y] == x;
      NotAgain(events, c, i, y);
    }
    Unseen(events[..k], c);
  }

  lemma FirstSeen(events: seq<Event>, c: Conn, i: nat)
    requires RegistersOnce(events) && i < |events| && events[i] == Register(c)
    ensures Live(Run(events[..i + 1]), c) && Stream(Run(events[..i + 1]), c) == []
  {
    UnseenBefore(events, c, i, i);
    assert events[..i + 1][..i] == events[..i];
  }

  lemma NextSeen(events: seq<Event>, c: Conn, i: nat, k: nat)
    requires RegistersOnce(events) && i < k < |events| && events[i] == Register(c)
    ensures var st, st' := Run(events[..k]), Run(events[..k + 1]);
            && st.Running? && st'.Running?
            && (Live(st', c) <==> Live(st, c) && !Removes(st, events[k], c))
            && Stream(st', c) == Stream(st, c) + if Live(st', c) then MessageFor(events[k], c.benchID) else []
  {
    assert events[..k + 1][..k] == events[..k];
    RunIsSafe(events[..k]);
    FreshEvent(events, k);
    NotAgain(events, c, i, k);
    if Live(Run(events[..k]), c) {
      LiveStep(Run(events[..k]), events[k], c);
    } else {
      DeadStep(Run(events[..k]), events[k], c);
    }
  }

  lemma FreshEvent(events: seq<Event>, n: nat)
    requires RegistersOnce(events) && n < |events|
    ensures Fresh(Run(events[..n]), events[n])
  {
    if events[n].Register? {
      NotYetRegistered(events, n);
      RunIsSafe(events[..n]);
    }
  }

  // What is observed of one connection after every prefix of a run.
  datatype Observed = Observed(live: bool, stream: seq<Message>, removedNext: bool)

  function Observe(events: seq<Event>, c: Conn, k: nat): Observed
    requires k <= |events|
  {
    var st := Run(events[..k]);
    if st.Panicked? then Observed(false, [], false)
    else Observed(Live(st, c), Stream(st, c), k < |events| && Removes(st, events[k], c))
  }

  ghost predicate Chronicle(seen: seq<Observed>, events: seq<Event>, benchID: string, i: nat) {
    && |seen| == |events| + 1 && i < |events|
    && (forall k :: 0 <= k <= i ==> !seen[k].live)
    && seen[i + 1].live && seen[i + 1].stream == []
    && (forall k :: i < k < |events| ==> Follows(seen[k], events[k], seen[k + 1], benchID))
  }

  predicate Follows(o: Observed, e: Event, next: Observed, benchID: string) {
    && next.live == (o.live && !o.removedNext)
    && next.stream == o.stream + if next.live then MessageFor(e, benchID) else []
  }

  // Filed exactly after the events i .. j - 1, and sent exactly their broadcasts.
  ghost predicate Chronicled(seen: seq<Observed>, events: seq<Event>, benchID: string, i: nat, j: nat, n: nat) {
    && i < j <= n <= |events| && n < |seen|
    && (forall k :: 0 <= k <= n ==> (seen[k].live <==> i < k <= j))
    && seen[n].stream == BroadcastsFor(events[i + 1..j], benchID)
    && (j < n ==> seen[j].removedNext)
  }

  lemma BroadcastsForNext(events: seq<Event>, i: nat, n: nat, benchID: string)
    requires i <= n < |events|
    ensures BroadcastsFor(events[i..n + 1], benchID)
         == BroadcastsFor(events[i..n], benchID) + MessageFor(events[n], benchID)
  {
    var all := events[i..n + 1];
    assert all[..|all| - 1] == events[i..n] && all[|all| - 1] == events[n];
  }

  lemma {:induction false} ReadChronicle(seen: seq<Observed>, events: seq<Event>, benchID: string, i: nat, n: nat)
    returns (j: nat)
    requires Chronicle(seen, events, benchID, i) && i < n <= |events|
    ensures Chronicled(seen, events, benchID, i, j, n)
  {
    if n == i + 1 {
      assert events[i + 1..n] == [];
      return n;
    }
    var j' := ReadChronicle(seen, events, benchID, i, n - 1);
    assert Follows(seen[n - 1], events[n - 1], seen[n], benchID);
    j := if j' == n - 1 && !seen[n - 1].removedNext then n else j';
    ReadNext(seen, events, benchID, i, j', j, n - 1);
  }

  // One event more: the connection stays filed past it, or its window has ended.
  lemma ReadNext(seen: seq<Observed>, events: seq<Event>, benchID: string, i: nat, j: nat, j': nat, n: nat)
    requires n < |events| && |seen| == |events| + 1 && Chronicled(seen, events, benchID, i, j, n)
    requires Follows(seen[n], events[n], seen[n + 1], benchID)
    requires j' == if j == n && !seen[n].removedNext then n + 1 else j
    ensures Chronicled(seen, events, benchID, i, j', n + 1)
  {
    ReadStream(seen[n], events, seen[n + 1], benchID, i, j, j', n);
    ReadLive(seen, i, j, j', n);
  }

  lemma ReadStream(o: Observed, events: seq<Event>, next: Observed, benchID: string, i: nat, j: nat, j': nat, n: nat)
    requires i < j <= n < |events| && Follows(o, events[n], next, benchID)
    requires o.stream == BroadcastsFor(events[i + 1..j], benchID) && (o.live <==> j == n)
    requires j' == if j == n && !o.removedNext then n + 1 else j
    ensures next.stream == BroadcastsFor(events[i + 1..j'], benchID)
  {
    if j' == n + 1 {
      BroadcastsForNext(events, i + 1, n, benchID);
    }
  }

  lemma ReadLive(seen: seq<Observed>, i: nat, j: nat, j': nat, n: nat)
    requires i < j <= n < |seen| - 1
    requires forall k :: 0 <= k <= n ==> (seen[k].live <==> i < k <= j)
    requires seen[n + 1].live == (seen[n].live && !seen[n].removedNext)
    requires j' == if j == n && !seen[n].removedNext then n + 1 else j
    ensures forall k :: 0 <= k <= n + 1 ==> (seen[k].live <==> i < k <= j')
  {
    assert seen[n].live <==> j == n;
  }

  // From its registration at i to its removal at j a connection is sent every
  // broadcast for its benchmark, once and in order, and nothing else ever; it is
  // filed exactly in between, and only an unregistration or a full queue ends that.
  lemma NoMessageIsLost(events: seq<Event>, c: Conn, i: nat) returns (j: nat)
    requires RegistersOnce(events) && i < |events| && events[i] == Register(c)
    ensures i < j <= |events| && Run(events).Running?
    ensures Stream(Run(events), c) == BroadcastsFor(events[i + 1..j], c.benchID)
    ensures forall k :: 0 <= k <= |events| ==> (Live(Run(events[..k]), c) <==> i < k <= j)
    ensures j < |events| ==> Run(events[..j]).Running? && Removes(Run(events[..j]), events[j], c)
  {
    var seen := seq(|events| + 1, k requires 0 <= k <= |events| => Observe(events, c, k));
    ObservedChronicle(events, c, i, seen);
    j := ReadChronicle(seen, events, c.benchID, i, |events|);
    RunIsSafe(events);
    assert events[..|events|] == events;
    forall k | 0 <= k <= |events|
      ensures Live(Run(events[..k]), c) <==> i < k <= j
    {
      assert seen[k] == Observe(events, c, k);
    }
  }

  lemma ObservedChronicle(events: seq<Event>, c: Conn, i: nat, seen: seq<Observed>)
    requires RegistersOnce(events) && i < |events| && events[i] == Register(c) && |seen| == |events| + 1
    requires forall k :: 0 <= k <= |events| ==> seen[k] == Observe(events, c, k)
    ensures Chronicle(seen, events, c.benchID, i)
  {
    forall k | 0 <= k <= i
      ensures !seen[k].live
    {
      UnseenBefore(events, c, i, k);
    }
    FirstSeen(events, c, i);
    forall k | i < k < |events|
      ensures Follows(seen[k], events[k], seen[k + 1], c.benchID)
    {
      NextSeen(events, c, i, k);
    }
  }

  // The entry of a benchmark goes with its last unregistration.
  lemma LastUnregisterForgets(st: State, c: Conn)
    requires Safe(st) && Live(st, c)
    ensures AfterUnregister(st, c).Running?
    ensures c.benchID in AfterUnregister(st, c).connections <==> Filed(st, c.benchID) != {c}
  {
    assert Filed(st, c.benchID) - {c} == {} <==> Filed(st, c.benchID) == {c};
  }

  // ---- Slow connections ----

  function Flood(c: Conn, m: Message, n: nat): (events: seq<Event>)
    ensures |events| == n + 1
  {
    if n == 0 then [Register(c)] else Flood(c, m, n - 1) + [Broadcast(c.benchID, m)]
  }

  function Copies(m: Message, n: nat): seq<Message> {
    if n == 0 then [] else Copies(m, n - 1) + [m]
  }

  lemma {:induction false} CopiesLength(m: Message, n: nat)
    ensures |Copies(m, n)| == n
  {
    if n > 0 {
      CopiesLength(m, n - 1);
    }
  }

  function Flooded(c: Conn, m: Message, n: nat, room: nat): State {
    if n <= room then Running(map[c.benchID := {c}], map[c := Channel(Copies(m, n), [], false)])
    else Running(map[c.benchID := {}], map[c := Channel(Copies(m, room), [], true)])
  }

  // A connection that takes nothing is sent 256 messages; the next broadcast closes its
  // channel and takes it out of the map.
  lemma {:induction false} SlowIsDropped(c: Conn, m: Message, n: nat, room: nat)
    requires room == 256
    ensures Run(Flood(c, m, n)) == Flooded(c, m, n, room)
  {
    if n == 0 {
      FloodStart(c, m);
    } else {
      SlowIsDropped(c, m, n - 1, room);
      FloodNext(c, m, n);
      FloodStep(c, m, n, room);
    }
  }

  lemma FloodStart(c: Conn, m: Message)
    ensures Run(Flood(c, m, 0)) == Running(map[c.benchID := {c}], map[c := NEW_CHANNEL])
  {
    var events := Flood(c, m, 0);
    assert events[..0] == [];
    assert Run(events) == AfterRegister(EMPTY, c);
    assert {} + {c} == {c};
  }

  lemma FloodNext(c: Conn, m: Message, n: nat)
    requires n > 0 && Run(Flood(c, m, n - 1)).Running?
    ensures Run(Flood(c, m, n)) == AfterBroadcast(Run(Flood(c, m, n - 1)), c.benchID, m)
  {
    assert Flood(c, m, n)[..n] == Flood(c, m, n - 1);
  }

  lemma FloodStep(c: Conn, m: Message, n: nat, room: nat)
    requires n > 0 && room == 256
    ensures AfterBroadcast(Flooded(c, m, n - 1, room), c.benchID, m) == Flooded(c, m, n, room)
  {
    if n <= room + 1 {
      CopiesLength(m, n - 1);
      FloodOpen(c, Channel(Copies(m, n - 1), [], false), m);
    } else {
      FloodClosed(c, Channel(Copies(m, room), [], true), m);
    }
  }

  // One broadcast to a single connection.
  lemma FloodOpen(c: Conn, ch: Channel, m: Message)
    requires !ch.closed
    ensures AfterBroadcast(Running(map[c.benchID := {c}], map[c := ch]), c.benchID, m)
         == if |ch.queue| < 256 then Running(map[c.benchID := {c}], map[c := ch.(queue := ch.queue + [m])])
            else Running(map[c.benchID := {}], map[c := ch.(closed := true)])
  {
    assert WithRoom(map[c := ch], {c}) == if ch.HasRoom() then {c} else {};
    assert DeliveredTo(map[c := ch], {c}, m) == map[c := Delivered(ch, m)];
  }

  lemma FloodClosed(c: Conn, ch: Channel, m: Message)
    ensures AfterBroadcast(Running(map[c.benchID := {}], map[c := ch]), c.benchID, m)
         == Running(map[c.benchID := {}], map[c := ch])
  {
    assert WithRoom(map[c := ch], {}) == {};
    assert DeliveredTo(map[c := ch], {}, m) == map[c := ch];
  }

  // ---- What the hub does not do ----

  // An empty benchmark ID is filed under "*", but no broadcast fans out to "*".
  lemma {:induction false} NothingFor(events: seq<Event>, benchID: string)
    requires forall e :: e in events && e.Broadcast? ==> e.benchID != benchID
    ensures BroadcastsFor(events, benchID) == []
  {
    if events != [] {
      var n := |events| - 1;
      assert events == events[..n] + [events[n]];
      NothingFor(events[..n], benchID);
    }
  }

  lemma StarSeesNothing(events: seq<Event>, c: Conn, i: nat)
    requires RegistersOnce(events) && i < |events| && events[i] == Register(c) && c.benchID == "*"
    requires forall e :: e in events && e.Broadcast? ==> e.benchID != "*"
    ensures Run(events).Running? && Stream(Run(events), c) == []
  {
    var j := NoMessageIsLost(events, c, i);
    NothingFor(events[i + 1..j], "*");
  }

  function AllBroadcasts(events: seq<Event>): (r: seq<Message>)
    ensures |r| <= |events|
  {
    if events == [] then []
    else
      var last := events[|events| - 1];
      AllBroadcasts(events[..|events| - 1]) + if last.Broadcast? then [last.message] else []
  }

  lemma {:induction false} AllAreFor(events: seq<Event>, benchID: string)
    ensures |BroadcastsFor(events, benchID)| <= |AllBroadcasts(events)|
    ensures BroadcastsFor(events, benchID) == AllBroadcasts(events)
        <==> forall e :: e in events && e.Broadcast? ==> e.benchID == benchID
    decreases |events|
  {
    if events != [] {
      var front, last := events[..|events| - 1], events[|events| - 1];
      assert events == front + [last];
      AllAreFor(front, benchID);
      var got, all := BroadcastsFor(front, benchID), AllBroadcasts(front);
      var more := MessageFor(last, benchID);
      if !last.Broadcast? || last.benchID == benchID {
        assert (got + more)[..|got|] == got && (all + more)[..|all|] == all;
      } else {
        assert |BroadcastsFor(events, benchID)| < |AllBroadcasts(events)|;
      }
    }
  }

  // A "*" subscriber gets every broadcast of its window exactly when all of
  // them carry the ID "*".
  lemma StarSeesAllExactlyWhen(events: seq<Event>, c: Conn, i: nat) returns (j: nat)
    requires RegistersOnce(events) && i < |events| && events[i] == Register(c) && c.benchID == "*"
    ensures i < j <= |events| && Run(events).Running?
    ensures forall k :: 0 <= k <= |events| ==> (Live(Run(events[..k]), c) <==> i < k <= j)
    ensures Stream(Run(events), c) == AllBroadcasts(events[i + 1..j])
        <==> forall e :: e in events[i + 1..j] && e.Broadcast? ==> e.benchID == "*"
  {
    j := NoMessageIsLost(events, c, i);
    AllAreFor(events[i + 1..j], "*");
  }

  // Without the restriction the hub can panic: registering a connection whose
  // channel was closed makes the next broadcast send on it.
  lemma ReRegistrationPanics(c: Conn, m: Message)
    ensures var events := [Register(c), Unregister(c), Register(c)];
            Run(events + [Broadcast(c.benchID, m)]).Panicked? && Run(events + [Unregister(c)]).Panicked?
  {
    var e1, e2, e3 := [Register(c)], [Register(c), Unregister(c)], [Register(c), Unregister(c), Register(c)];
    assert e1[..0] == [] && e2[..1] == e1 && e3[..2] == e2;
    assert Run(e1) == AfterRegister(EMPTY, c);
    var st := Run(e3);
    assert st == AfterRegister(Run(e2), c);
    assert c in Filed(st, c.benchID) && ChannelOf(st.channels, c).closed;
    assert (e3 + [Broadcast(c.benchID, m)])[..3] == e3 && (e3 + [Unregister(c)])[..3] == e3;
  }
}
