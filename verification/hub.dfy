// The WebSocket hub of internal/api/websocket.go: one loop that owns the
// connection map and pushes to bounded channels.
module Hubs {

  type Message = string

  // A connection keeps the benchmark it was opened for.
  datatype Conn = Conn(id: nat, benchID: string)

  // A send channel: what is queued, what its writer has taken, whether it is closed.
  datatype Channel = Channel(queue: seq<Message>, consumed: seq<Message>, closed: bool) {
    predicate HasRoom() { |queue| < CAPACITY }
    function Stream(): seq<Message> { consumed + queue }
  }

  const CAPACITY := 256
  const NEW_CHANNEL := Channel([], [], false)

  // A send on a closed channel and a second close panic, which ends the process.
  datatype State =
    | Running(connections: map<string, set<Conn>>, channels: map<Conn, Channel>)
    | Panicked

  const EMPTY := Running(map[], map[])

  datatype Event =
    | Register(conn: Conn)
    | Unregister(conn: Conn)
    | Broadcast(benchID: string, message: Message)
    | Consume(conn: Conn)

  // ---- The effect of one event ----

  function Filed(st: State, benchID: string): set<Conn>
    requires st.Running?
  {
    if benchID in st.connections then st.connections[benchID] else {}
  }

  function ChannelOf(channels: map<Conn, Channel>, c: Conn): Channel {
    if c in channels then channels[c] else NEW_CHANNEL
  }

  function AfterRegister(st: State, c: Conn): State
    requires st.Running?
  {
    Running(st.connections[c.benchID := Filed(st, c.benchID) + {c}], st.channels[c := ChannelOf(st.channels, c)])
  }

  function AfterUnregister(st: State, c: Conn): State
    requires st.Running?
  {
    if c !in Filed(st, c.benchID) then st
    else if ChannelOf(st.channels, c).closed then Panicked
    else
      var rest := Filed(st, c.benchID) - {c};
      Running(if rest == {} then st.connections - {c.benchID} else st.connections[c.benchID := rest],
              st.channels[c := ChannelOf(st.channels, c).(closed := true)])
  }

  // A full channel is closed instead.
  function Delivered(ch: Channel, m: Message): Channel {
    if ch.HasRoom() then ch.(queue := ch.queue + [m]) else ch.(closed := true)
  }

  function DeliveredTo(channels: map<Conn, Channel>, conns: set<Conn>, m: Message): map<Conn, Channel> {
    map c | c in channels.Keys + conns ::
      if c in conns then Delivered(ChannelOf(channels, c), m) else channels[c]
  }

  function WithRoom(channels: map<Conn, Channel>, conns: set<Conn>): set<Conn> {
    set c | c in conns && ChannelOf(channels, c).HasRoom()
  }

  predicate AllOpen(channels: map<Conn, Channel>, conns: set<Conn>) {
    forall c :: c in conns ==> !ChannelOf(channels, c).closed
  }

  // Slow connections leave the map, but their benchmark's entry stays.
  function AfterBroadcast(st: State, benchID: string, m: Message): State
    requires st.Running?
  {
    if benchID !in st.connections then st
    else
      AfterSends(st, benchID, st.connections[benchID], m)
  }

  function AfterSends(st: State, benchID: string, conns: set<Conn>, m: Message): State
    requires st.Running?
  {
    if !AllOpen(st.channels, conns) then Panicked
    else Running(st.connections[benchID := WithRoom(st.channels, conns)], DeliveredTo(st.channels, conns, m))
  }

  // The writer takes the oldest message, also from a closed channel.
  function AfterConsume(st: State, c: Conn): State
    requires st.Running?
  {
    if c !in st.channels || st.channels[c].queue == [] then st
    else
      var ch := st.channels[c];
      st.(channels := st.channels[c := ch.(queue := ch.queue[1..], consumed := ch.consumed + [ch.queue[0]])])
  }

  function Step(st: State, e: Event): State {
    if st.Panicked? then st
    else match e
      case Register(c) => AfterRegister(st, c)
      case Unregister(c) => AfterUnregister(st, c)
      case Broadcast(b, m) => AfterBroadcast(st, b, m)
      case Consume(c) => AfterConsume(st, c)
  }

  function Run(events: seq<Event>): State {
    if events == [] then EMPTY else Step(Run(events[..|events| - 1]), events[|events| - 1])
  }

  lemma DeliverOne(channels: map<Conn, Channel>, done: set<Conn>, c: Conn, m: Message)
    requires c !in done
    ensures ChannelOf(DeliveredTo(channels, done, m), c) == ChannelOf(channels, c)
    ensures Slow(DeliveredTo(channels, done, m), c) == Slow(channels, c)
    ensures DeliveredTo(channels, done + {c}, m)
         == DeliveredTo(channels, done, m)[c := Delivered(ChannelOf(channels, c), m)]
  {}

  function Slow(channels: map<Conn, Channel>, c: Conn): set<Conn> {
    if ChannelOf(channels, c).HasRoom() then {} else {c}
  }

  function AfterSend(st: State, benchID: string, c: Conn, m: Message): State
    requires st.Running? && benchID in st.connections
  {
    var ch := ChannelOf(st.channels, c);
    if ch.closed then Panicked
    else Running(st.connections[benchID := st.connections[benchID] - Slow(st.channels, c)],
                 st.channels[c := Delivered(ch, m)])
  }

  // A broadcast that has visited the connections in done.
  predicate Sent(was: State, st: State, benchID: string, conns: set<Conn>, done: set<Conn>, m: Message) {
    && was.Running? && AllOpen(was.channels, done)
    && st == Running(was.connections[benchID := WithRoom(was.channels, done) + (conns - done)],
                     DeliveredTo(was.channels, done, m))
  }

  lemma SentNone(was: State, benchID: string, conns: set<Conn>, m: Message)
    requires was.Running? && benchID in was.connections && was.connections[benchID] == conns
    ensures Sent(was, was, benchID, conns, conns - conns, m)
  {
    assert conns - conns == {};
    assert WithRoom(was.channels, {}) + (conns - {}) == conns;
    assert DeliveredTo(was.channels, {}, m) == was.channels;
    assert was.connections[benchID := conns] == was.connections;
  }

  lemma SentAll(was: State, st: State, benchID: string, conns: set<Conn>, todo: set<Conn>, m: Message)
    requires Sent(was, st, benchID, conns, conns - todo, m) && todo == {}
    ensures st == AfterSends(was, benchID, conns, m)
  {
    assert conns - todo == conns && WithRoom(was.channels, conns) + (conns - conns) == WithRoom(was.channels, conns);
  }

  lemma SentOne(was: State, st: State, benchID: string, conns: set<Conn>, todo: set<Conn>, c: Conn, m: Message)
    requires Sent(was, st, benchID, conns, conns - todo, m) && c in todo && todo <= conns
    ensures benchID in st.connections
    ensures var next := AfterSend(st, benchID, c, m);
            if next.Panicked? then AfterSends(was, benchID, conns, m) == Panicked
            else Sent(was, next, benchID, conns, conns - (todo - {c}), m)
  {
    var done := conns - todo;
    DeliverOne(was.channels, done, c, m);
    RoomOne(was.channels, conns, done, c);
    Refile(was.connections, benchID, WithRoom(was.channels, done) + (conns - done), Slow(was.channels, c));
    assert conns - (todo - {c}) == done + {c};
  }

  lemma RoomOne(channels: map<Conn, Channel>, conns: set<Conn>, done: set<Conn>, c: Conn)
    requires c !in done && c in conns
    ensures WithRoom(channels, done + {c}) + (conns - (done + {c}))
         == WithRoom(channels, done) + (conns - done) - Slow(channels, c)
  {}

  lemma Refile<K, V>(m: map<K, set<V>>, k: K, x: set<V>, y: set<V>)
    ensures m[k := x][k := m[k := x][k] - y] == m[k := x - y]
  {}

  // ---- The hub itself ----

  class WebSocketHub {
    var connections: map<string, set<Conn>>
    var channels: map<Conn, Channel>
    var panicked: bool

    ghost function View(): State
      reads this
    {
      if panicked then Panicked else Running(connections, channels)
    }

    constructor ()
      ensures View() == EMPTY
    {
      connections, channels, panicked := map[], map[], false;
    }

    method HandleRegister(c: Conn)
      requires !panicked
      modifies this
      ensures View() == AfterRegister(old(View()), c)
    {
      if c !in channels {
        channels := channels[c := NEW_CHANNEL];
      }
      if c.benchID !in connections {
        connections := connections[c.benchID := {}];
      }
      connections := connections[c.benchID := connections[c.benchID] + {c}];
    }

    method HandleUnregister(c: Conn)
      requires !panicked
      modifies this
      ensures View() == AfterUnregister(old(View()), c)
    {
      if c.benchID in connections && c in connections[c.benchID] {
        connections := connections[c.benchID := connections[c.benchID] - {c}];
        Close(c);
        if connections[c.benchID] == {} {
          connections := connections - {c.benchID};
        }
      }
    }

    method Close(c: Conn)
      requires !panicked
      modifies this`channels, this`panicked
      ensures panicked == ChannelOf(old(channels), c).closed
      ensures !panicked ==> channels == old(channels)[c := ChannelOf(old(channels), c).(closed := true)]
    {
      var ch := ChannelOf(channels, c);
      if ch.closed {
        panicked := true;
      } else {
        channels := channels[c := ch.(closed := true)];
      }
    }

    // Push without waiting; a connection that cannot take the message is closed and forgotten.
    method Send(benchID: string, c: Conn, m: Message)
      requires !panicked && benchID in connections
      modifies this
      ensures View() == AfterSend(old(View()), benchID, c, m)
    {
      var ch := ChannelOf(channels, c);
      if ch.closed {
        panicked := true;
      } else if ch.HasRoom() {
        channels := channels[c := ch.(queue := ch.queue + [m])];
        assert connections[benchID] - {} == connections[benchID];
        assert connections == connections[benchID := connections[benchID]];
      } else {
        Close(c);
        connections := connections[benchID := connections[benchID] - {c}];
      }
    }

    // Connections are visited in no particular order.
    method SendToAll(benchID: string, conns: set<Conn>, m: Message)
      requires !panicked && benchID in connections && connections[benchID] == conns
      modifies this
      ensures View() == AfterSends(old(View()), benchID, conns, m)
    {
      ghost var was := View();
      var todo := conns;
      SentNone(was, benchID, conns, m);
      while todo != {}
        invariant View().Running? && todo <= conns
        invariant Sent(was, View(), benchID, conns, conns - todo, m)
        decreases |todo|
      {
        var c :| c in todo;
        SentOne(was, View(), benchID, conns, todo, c, m);
        Send(benchID, c, m);
        if panicked {
          return;
        }
        todo := todo - {c};
      }
      SentAll(was, View(), benchID, conns, todo, m);
    }

    method HandleBroadcast(benchID: string, m: Message)
      requires !panicked
      modifies this
      ensures View() == AfterBroadcast(old(View()), benchID, m)
    {
      if benchID in connections {
        SendToAll(benchID, connections[benchID], m);
      }
    }

    method HandleConsume(c: Conn)
      requires !panicked
      modifies this`channels
      ensures View() == AfterConsume(old(View()), c)
    {
      if c in channels && channels[c].queue != [] {
        var ch := channels[c];
        channels := channels[c := ch.(queue := ch.queue[1..], consumed := ch.consumed + [ch.queue[0]])];
      }
    }

    // The main loop, with the writers' steps interleaved.
    method Serve(events: seq<Event>)
      requires View() == EMPTY
      modifies this
      ensures View() == Run(events)
    {
      for i := 0 to |events|
        invariant View() == Run(events[..i])
      {
        assert events[..i + 1][..i] == events[..i];
        if !panicked {
          match events[i] {
            case Register(c) => HandleRegister(c);
            case Unregister(c) => HandleUnregister(c);
            case Broadcast(b, m) => HandleBroadcast(b, m);
            case Consume(c) => HandleConsume(c);
          }
        }
      }
      assert events[..|events|] == events;
    }

    method ConnectionCount(benchID: string) returns (n: nat)
      requires !panicked
      ensures n == |Filed(View(), benchID)|
    {
      n := if benchID in connections then |connections[benchID]| else 0;
    }
  }
}
