// When the hub panics, over every run, however often connections register.
module HubPanics {
  import opened Hubs
  import opened HubRuns

  // A filed connection is under its own benchmark and has a channel.
  ghost predicate Own(st: State) {
    st.Running? ==>
      forall b, c :: b in st.connections && c in st.connections[b] ==> c.benchID == b && c in st.channels
  }

  lemma {:induction false} RunOwns(events: seq<Event>)
    ensures Own(Run(events))
  {
    if events != [] {
      RunOwns(events[..|events| - 1]);
    }
  }

  // Filed again after its channel was closed.
  predicate Doomed(st: State, c: Conn) {
    Live(st, c) && ChannelOf(st.channels, c).closed
  }

  // The events that make the hub send to a connection, or close it.
  predicate Touches(e: Event, c: Conn) {
    e == Unregister(c) || (e.Broadcast? && e.benchID == c.benchID)
  }

  // A connection registers after its channel was closed.
  predicate Stale(events: seq<Event>, i: nat)
    requires i < |events|
  {
    && events[i].Register? && Run(events[..i]).Running?
    && ChannelOf(Run(events[..i]).channels, events[i].conn).closed
  }

  // ---- One event ----

  lemma StepPanics(st: State, e: Event)
    requires st.Running? && Own(st)
    ensures Step(st, e).Panicked? <==> exists c :: Doomed(st, c) && Touches(e, c)
  {
    match e {
      case Register(c) =>
      case Consume(c) =>
      case Unregister(c) =>
        if Step(st, e).Panicked? {
          assert Doomed(st, c) && Touches(e, c);
        }
      case Broadcast(b, m) =>
        if Step(st, e).Panicked? {
          var c :| c in st.connections[b] && ChannelOf(st.channels, c).closed;
          assert Doomed(st, c) && Touches(e, c);
        }
    }
  }

  lemma DoomedStays(st: State, e: Event, c: Conn)
    requires Own(st) && Doomed(st, c) && !Touches(e, c) && Step(st, e).Running?
    ensures Doomed(Step(st, e), c)
  {}

  lemma DoomedArises(st: State, e: Event, c: Conn)
    requires Own(st) && !Doomed(st, c) && Doomed(Step(st, e), c)
    ensures e == Register(c) && st.Running? && ChannelOf(st.channels, c).closed
  {}

  // ---- Whole runs ----

  lemma {:induction false} DoomedSince(events: seq<Event>, c: Conn) returns (i: nat)
    requires Doomed(Run(events), c)
    ensures i < |events| && Stale(events, i) && events[i].conn == c
  {
    var n := |events| - 1;
    if Doomed(Run(events[..n]), c) {
      i := DoomedSince(events[..n], c);
      assert events[..n][..i] == events[..i];
    } else {
      RunOwns(events[..n]);
      DoomedArises(Run(events[..n]), events[n], c);
      i := n;
    }
  }

  lemma {:induction false} PanicMeans(events: seq<Event>) returns (i: nat, k: nat)
    requires Run(events).Panicked?
    ensures i < k < |events| && Stale(events, i) && Touches(events[k], events[i].conn)
  {
    var n := |events| - 1;
    if Run(events[..n]).Panicked? {
      i, k := PanicMeans(events[..n]);
      assert events[..n][..i] == events[..i];
    } else {
      RunOwns(events[..n]);
      StepPanics(Run(events[..n]), events[n]);
      var c :| Doomed(Run(events[..n]), c) && Touches(events[n], c);
      i := DoomedSince(events[..n], c);
      k := n;
      assert events[..n][..i] == events[..i];
    }
  }

  lemma RunNext(events: seq<Event>, n: nat)
    requires n < |events|
    ensures Run(events[..n + 1]) == Step(Run(events[..n]), events[n])
  {
    assert events[..n + 1][..n] == events[..n];
  }

  lemma {:induction false} DoomedUntil(events: seq<Event>, i: nat, n: nat)
    requires i < n <= |events| && Stale(events, i)
    ensures Run(events[..n]).Panicked? || Doomed(Run(events[..n]), events[i].conn)
    decreases n
  {
    RunNext(events, n - 1);
    if n > i + 1 {
      DoomedUntil(events, i, n - 1);
      RunOwns(events[..n - 1]);
      if Run(events[..n]).Running? {
        StepPanics(Run(events[..n - 1]), events[n - 1]);
        DoomedStays(Run(events[..n - 1]), events[n - 1], events[i].conn);
      }
    }
  }

  lemma {:induction false} PanicStays(events: seq<Event>, n: nat)
    requires n <= |events| && Run(events[..n]).Panicked?
    ensures Run(events).Panicked?
    decreases |events|
  {
    if n == |events| {
      assert events[..n] == events;
    } else {
      assert events[..|events| - 1][..n] == events[..n];
      PanicStays(events[..|events| - 1], n);
    }
  }

  lemma PanicFollows(events: seq<Event>, i: nat, k: nat)
    requires i < k < |events| && Stale(events, i) && Touches(events[k], events[i].conn)
    ensures Run(events).Panicked?
  {
    DoomedUntil(events, i, k);
    RunOwns(events[..k]);
    RunNext(events, k);
    if Run(events[..k]).Running? {
      StepPanics(Run(events[..k]), events[k]);
    }
    PanicStays(events, k + 1);
  }

  // For every sequence of events: the hub panics exactly when some connection
  // registers after its channel was closed and is then unregistered, or its
  // benchmark broadcast to.
  lemma PanicsExactlyWhen(events: seq<Event>)
    ensures Run(events).Panicked?
       <==> exists i: nat, k: nat :: i < k < |events| && Stale(events, i) && Touches(events[k], events[i].conn)
  {
    if Run(events).Panicked? {
      var i, k := PanicMeans(events);
    } else if i: nat, k: nat :| i < k < |events| && Stale(events, i) && Touches(events[k], events[i].conn) {
      PanicFollows(events, i, k);
    }
  }

  // ---- When a channel is closed ----

  // Event j takes a filed connection out of the map.
  predicate RemovedAt(events: seq<Event>, c: Conn, j: nat) {
    j < |events| && Live(Run(events[..j]), c) && Removes(Run(events[..j]), events[j], c)
  }

  lemma ClosedStep(st: State, e: Event, c: Conn)
    requires Own(st) && st.Running? && Step(st, e).Running?
    ensures ChannelOf(Step(st, e).channels, c).closed
       <==> ChannelOf(st.channels, c).closed || (Live(st, c) && Removes(st, e, c))
  {}

  // A channel is closed exactly when its connection was removed before: unregistered,
  // or broadcast to with a full queue. It is never opened again.
  lemma {:induction false} ClosedExactlyWhen(events: seq<Event>, c: Conn)
    requires Run(events).Running?
    ensures ChannelOf(Run(events).channels, c).closed <==> exists j: nat :: j < |events| && RemovedAt(events, c, j)
  {
    if events != [] {
      var n := |events| - 1;
      ClosedExactlyWhen(events[..n], c);
      RunOwns(events[..n]);
      ClosedStep(Run(events[..n]), events[n], c);
      forall j: nat | j < n
        ensures RemovedAt(events[..n], c, j) <==> RemovedAt(events, c, j)
      {
        assert events[..n][..j] == events[..j];
      }
      if ChannelOf(Run(events).channels, c).closed && !ChannelOf(Run(events[..n]).channels, c).closed {
        assert RemovedAt(events, c, n);
      } else if j: nat :| RemovedAt(events[..n], c, j) {
        assert RemovedAt(events, c, j);
      }
    }
  }

  // Event i registers a connection again that event j had removed, and event k touches it.
  ghost predicate BackAndTouched(events: seq<Event>, j: nat, i: nat, k: nat) {
    && j < i < k < |events|
    && events[i].Register? && RemovedAt(events, events[i].conn, j) && Touches(events[k], events[i].conn)
  }

  // The same condition without looking at a channel: removed, registered again,
  // touched, in this order.
  lemma PanicsOnceBack(events: seq<Event>)
    ensures Run(events).Panicked? <==> exists j: nat, i: nat, k: nat :: BackAndTouched(events, j, i, k)
  {
    if Run(events).Panicked? {
      var i, k := PanicMeans(events);
      ClosedBefore(events, i, events[i].conn);
      var j: nat :| j < i && RemovedAt(events, events[i].conn, j);
      assert BackAndTouched(events, j, i, k);
    } else if j: nat, i: nat, k: nat :| BackAndTouched(events, j, i, k) {
      if Run(events[..i]).Panicked? {
        PanicStays(events, i);
      } else {
        ClosedBefore(events, i, events[i].conn);
        PanicFollows(events, i, k);
      }
    }
  }

  lemma ClosedBefore(events: seq<Event>, i: nat, c: Conn)
    requires i <= |events| && Run(events[..i]).Running?
    ensures ChannelOf(Run(events[..i]).channels, c).closed <==> exists j: nat :: j < i && RemovedAt(events, c, j)
  {
    ClosedExactlyWhen(events[..i], c);
    forall j: nat | j < i
      ensures RemovedAt(events[..i], c, j) <==> RemovedAt(events, c, j)
    {
      assert events[..i][..j] == events[..j];
    }
  }
}
