// What packets bring about: where the main thread has come back to receiving after a
// stop, a start or a discovery, whatever the workers did meanwhile; and what a worker
// then does.
module HandshakeRuns {
  import opened Chars
  import opened Handshake

  // A statement of the main thread or of a worker; nothing else happens.
  predicate Runs(events: seq<Event>) {
    forall e :: e in events ==> e.Proceed? || e.Work?
  }

  predicate NoStart(events: seq<Event>) {
    forall e :: e in events ==> !(e.Receive? && e.kind.StartPacket?)
  }

  // The state that a run of the system has come to.
  ghost predicate Reached(events: seq<Event>, s: State) {
    Steps(Init(), events) == Some(s)
  }

  lemma ReachedSafe(events: seq<Event>, s: State)
    requires Reached(events, s)
    ensures Safe(s)
  {
    hide Steps, Safe;
    RunSafe(events);
  }

  // A run of one more event.
  lemma OneMore(s: State, events: seq<Event>, t: State, e: Event) returns (more: seq<Event>, u: State)
    requires Steps(s, events) == Some(t) && Step(t, e).Some?
    ensures more == events + [e] && Steps(s, more) == Some(u) && Step(t, e) == Some(u)
  {
    hide Step;
    more, u := events + [e], Step(t, e).value;
    assert more[..|events|] == events;
  }

  // No worker is alive, and none is asked for.
  ghost predicate Stopped(s: State) {
    Alone(s) && !s.enable && !s.active && s.socket.None? && !s.tcpOpen
  }

  // From a stop packet on.
  ghost predicate InStop(s: State) {
    if s.main.Receiving? then Stopped(s) else Stopping(s.main) && (s.main.StopDisable? || !s.enable)
  }

  lemma AloneIdle(s: State, i: nat)
    requires Alone(s)
    ensures Step(s, Work(i)).None?
  {
    if i < |s.workers| {
      assert !Live(s.workers[i]);
    }
  }

  lemma StopStep(s: State, e: Event)
    requires Safe(s) && InStop(s) && (e.Proceed? || e.Work?) && Step(s, e).Some?
    ensures InStop(Step(s, e).value)
  {
    hide Spawned, SentSafe, Readdressed, AddressOf, StartOf, StartStatement, DiscoverStatement, DeinitStatement;
    if e.Work? && s.main.Receiving? {
      AloneIdle(s, e.i);
      assert false;
    }
    if e.Proceed? && !s.active {
      BusyOrAlone(s);
    }
  }

  lemma {:induction false} StopRuns(s: State, more: seq<Event>)
    requires Safe(s) && InStop(s) && Runs(more) && Steps(s, more).Some?
    ensures Safe(Steps(s, more).value) && InStop(Steps(s, more).value)
    decreases |more|
  {
    hide Step, Safe, InStop;
    if more == [] {
    } else {
      var init, e := more[..|more| - 1], more[|more| - 1];
      StopRuns(s, init);
      StepSafe(Steps(s, init).value, e);
      StopStep(Steps(s, init).value, e);
    }
  }

  // After a stop packet, when the main thread is back to receive the next, there is no
  // worker and no TCP socket.
  lemma StopStops(events: seq<Event>, s: State, p: Peer, more: seq<Event>)
    requires Reached(events, s) && s.main.Receiving?
    requires Runs(more) && Steps(Step(s, Receive(StopPacket, p)).value, more).Some?
    requires Steps(Step(s, Receive(StopPacket, p)).value, more).value.main.Receiving?
    ensures
      var t := Steps(Step(s, Receive(StopPacket, p)).value, more).value;
      Alone(t) && !t.enable && !t.active && t.socket.None? && !t.tcpOpen
  {
    hide Steps, Safe;
    ReachedSafe(events, s);
    StepSafe(s, Receive(StopPacket, p));
    StopRuns(Step(s, Receive(StopPacket, p)).value, more);
  }

  // No worker, and none in the making.
  ghost predicate Silent(s: State) {
    Alone(s) && !s.enable && !s.active && !Starting(s.main)
  }

  lemma SilentStep(s: State, e: Event)
    requires Safe(s) && Silent(s) && !(e.Receive? && e.kind.StartPacket?) && Step(s, e).Some?
    ensures var t := Step(s, e).value; Silent(t) && t.sent == s.sent && t.workers == s.workers
  {
    hide Spawned, SentSafe, Readdressed, AddressOf, StartOf, StartStatement;
    if e.Work? {
      AloneIdle(s, e.i);
      assert false;
    }
  }

  lemma {:induction false} SilentRuns(s: State, more: seq<Event>)
    requires Safe(s) && Silent(s) && NoStart(more) && Steps(s, more).Some?
    ensures
      var t := Steps(s, more).value;
      Safe(t) && Silent(t) && t.sent == s.sent && t.workers == s.workers
    decreases |more|
  {
    hide Step, Safe, Silent;
    if more == [] {
    } else {
      var init, e := more[..|more| - 1], more[|more| - 1];
      SilentRuns(s, init);
      StepSafe(Steps(s, init).value, e);
      SilentStep(Steps(s, init).value, e);
    }
  }

  // From there on, whatever happens, nothing is sent and no worker is created until
  // another start packet comes.
  lemma StopSilences(events: seq<Event>, s: State, p: Peer, more: seq<Event>, later: seq<Event>)
    requires Reached(events, s) && s.main.Receiving?
    requires Runs(more) && Steps(Step(s, Receive(StopPacket, p)).value, more).Some?
    requires Steps(Step(s, Receive(StopPacket, p)).value, more).value.main.Receiving?
    requires NoStart(later) && Steps(Steps(Step(s, Receive(StopPacket, p)).value, more).value, later).Some?
    ensures
      var t := Steps(Step(s, Receive(StopPacket, p)).value, more).value;
      var u := Steps(t, later).value;
      u.sent == t.sent && u.workers == t.workers && Alone(u)
  {
    hide Steps, Safe, Proceeded, Worked, Received, Alone;
    ReachedSafe(events, s);
    StopStops(events, s, p, more);
    StopSafely(s, p, more);
    SilentRuns(Steps(Step(s, Receive(StopPacket, p)).value, more).value, later);
  }

  lemma StopSafely(s: State, p: Peer, more: seq<Event>)
    requires Safe(s) && s.main.Receiving? && Runs(more) && Steps(Step(s, Receive(StopPacket, p)).value, more).Some?
    ensures Safe(Steps(Step(s, Receive(StopPacket, p)).value, more).value)
  {
    hide Steps, Safe;
    StepSafe(s, Receive(StopPacket, p));
    StopRuns(Step(s, Receive(StopPacket, p)).value, more);
  }

  // The main thread comes through its wait, the worker taking its last steps.
  lemma {:induction false} WaitOver(s: State, events: seq<Event>, t: State) returns (more: seq<Event>, u: State)
    requires Steps(s, events) == Some(t) && Runs(events) && Safe(t) && Waiting(t) && !t.failed
    ensures Runs(more) && Steps(s, more) == Some(u) && Safe(u) && !u.failed && !u.active
    ensures u.main == t.main && u.from == t.from && u.socket == t.socket
    decreases StillToGo(t)
  {
    hide Steps, Safe, Worked;
    WaitStep(t);
    if !t.active {
      return events, t;
    }
    more, u := OneMore(s, events, t, Work(|t.workers| - 1));
    StepSafe(t, Work(|t.workers| - 1));
    WorkMainKept(t, |t.workers| - 1);
    more, u := WaitOver(s, more, u);
  }

  lemma WorkMainKept(s: State, i: nat)
    requires i < |s.workers| && Worked(s, i).Some?
    ensures var t := Worked(s, i).value;
      && t.main == s.main && t.failed == s.failed && t.from == s.from && t.socket == s.socket && t.enable == s.enable
      && t.addr == s.addr && t.starts == s.starts && t.tcpOpen == s.tcpOpen && |t.workers| == |s.workers|
  {
  }

  // A statement of the main thread that is no wait.
  lemma Onward(s: State, events: seq<Event>, t: State) returns (more: seq<Event>, u: State)
    requires Steps(s, events) == Some(t) && Runs(events) && Safe(t) && Proceeded(t).Some?
    ensures Runs(more) && Steps(s, more) == Some(u) && Safe(u) && Proceeded(t) == Some(u)
  {
    hide Steps, Safe, Proceeded;
    more, u := OneMore(s, events, t, Proceed);
    StepSafe(t, Proceed);
  }

  // After a stop packet the main thread can come back: if a thread has never failed to
  // be created, there is a run in which it does.
  lemma StopEnds(events: seq<Event>, s: State, p: Peer) returns (more: seq<Event>)
    requires Reached(events, s) && s.main.Receiving? && !s.failed
    ensures
      var r := Steps(Step(s, Receive(StopPacket, p)).value, more);
      Runs(more) && r.Some? && r.value.main.Receiving?
  {
    hide Steps, Safe;
    ReachedSafe(events, s);
    var t := Step(s, Receive(StopPacket, p)).value;
    StepSafe(s, Receive(StopPacket, p));
    var u := t;
    more := [];
    assert Steps(t, []) == Some(t) by { NoMore(t); }
    more, u := Onward(t, more, u);
    more, u := WaitOver(t, more, u);
    more, u := Onward(t, more, u);
    more, u := Onward(t, more, u);
    if !u.main.Receiving? {
      more, u := Onward(t, more, u);
    }
  }

  lemma NoMore(s: State)
    ensures Steps(s, []) == Some(s)
  {
  }

  // Where the last packet over UDP came from.
  ghost function LastUdp(events: seq<Event>): Peer {
    if events == [] then Peer(0, 0)
    else
      var init, e := events[..|events| - 1], events[|events| - 1];
      if e.Receive? && Steps(Init(), init).Some? && Steps(Init(), init).value.socket.None? then e.peer
      else LastUdp(init)
  }

  // Where each start packet came from, as far as it can be told.
  ghost function StartPeers(events: seq<Event>): seq<Peer> {
    if events == [] then []
    else
      var init, e := events[..|events| - 1], events[|events| - 1];
      StartPeers(init) + if e.Receive? && e.kind.StartPacket? then [LastUdp(events)] else []
  }

  // The model's record of peers is what has happened.
  lemma {:induction false} HistoryKept(events: seq<Event>, s: State)
    requires Reached(events, s)
    ensures s.from == LastUdp(events) && s.starts == StartPeers(events)
    decreases |events|
  {
    hide Step;
    if events == [] {
    } else {
      var init, e := events[..|events| - 1], events[|events| - 1];
      HistoryKept(init, Steps(Init(), init).value);
      HistoryStep(Steps(Init(), init).value, e);
    }
  }

  lemma HistoryStep(s: State, e: Event)
    requires Step(s, e).Some?
    ensures
      var t := Step(s, e).value;
      && t.from == (if e.Receive? && s.socket.None? then e.peer else s.from)
      && t.starts == s.starts + if e.Receive? && e.kind.StartPacket? then [t.from] else []
  {
    hide Proceeded, Worked;
    match e {
      case Proceed => ProceedPeers(s);
      case Work(i) => WorkMainKept(s, i);
      case _ =>
    }
  }

  lemma ProceedPeers(s: State)
    requires Proceeded(s).Some?
    ensures Proceeded(s).value.from == s.from && Proceeded(s).value.starts == s.starts
  {
    hide StopStatement, StartStatement, DiscoverStatement, DeinitStatement;
    if Starting(s.main) {
      StartPeersKept(s);
    } else {
      OtherPeersKept(s);
    }
  }

  lemma StartPeersKept(s: State)
    requires Starting(s.main)
    ensures StartStatement(s).from == s.from && StartStatement(s).starts == s.starts
  {
  }

  lemma OtherPeersKept(s: State)
    ensures Stopping(s.main) ==> StopStatement(s).from == s.from && StopStatement(s).starts == s.starts
    ensures Discovering(s.main) ==> DiscoverStatement(s).from == s.from && DiscoverStatement(s).starts == s.starts
    ensures Deinit(s.main) ==> DeinitStatement(s).from == s.from && DeinitStatement(s).starts == s.starts
  {
  }

  // The newest worker runs on: it has not been told to leave.
  ghost predicate Serving(s: State) {
    s.workers != [] && var at := s.workers[|s.workers| - 1].at; at.Guard? || at.Filling? || at.Sending?
  }

  // From a start packet on; n workers were created before.
  ghost predicate InStart(s: State, from: Peer, n: nat, socket: Option<nat>) {
    && s.from == from && s.socket == socket && |s.starts| > 0
    && if s.main.Receiving?
       then
         && |s.workers| == n + 1 && Serving(s) && s.enable && s.active && s.addr == AddressOf(from)
         && s.workers[n].start == |s.starts|
       else
         Starting(s.main) && |s.workers| == n && (s.main.SetActive? || s.main.Create? ==> s.enable)
  }

  lemma StartStep(s: State, e: Event, from: Peer, n: nat, socket: Option<nat>)
    requires Safe(s) && InStart(s, from, n, socket) && (e.Proceed? || e.Work?) && Step(s, e).Some?
    ensures InStart(Step(s, e).value, from, n, socket)
  {
    hide Spawned, SentSafe, StartOf, StopStatement, DiscoverStatement, DeinitStatement;
    if e.Work? {
      StartWorks(s, e.i, from, n, socket);
    }
  }

  lemma StartWorks(s: State, i: nat, from: Peer, n: nat, socket: Option<nat>)
    requires Safe(s) && InStart(s, from, n, socket) && i < |s.workers| && Worked(s, i).Some?
    ensures InStart(Worked(s, i).value, from, n, socket)
  {
    hide Spawned, SentSafe, StartOf, Readdressed;
    WorkKeeps(s, i);
    WorkMainKept(s, i);
  }

  lemma {:induction false} StartRuns(s: State, more: seq<Event>, from: Peer, n: nat, socket: Option<nat>)
    requires Safe(s) && InStart(s, from, n, socket) && Runs(more) && Steps(s, more).Some?
    ensures Safe(Steps(s, more).value) && InStart(Steps(s, more).value, from, n, socket)
    decreases |more|
  {
    hide Step, Safe, InStart;
    if more == [] {
    } else {
      var init, e := more[..|more| - 1], more[|more| - 1];
      StartRuns(s, init, from, n, socket);
      StepSafe(Steps(s, init).value, e);
      StartStep(Steps(s, init).value, e, from, n, socket);
    }
  }

  // After a start packet, when the main thread is back to receive the next, a new
  // worker runs, the only one, and sends to where the packet came from: over TCP, to
  // where the last packet over UDP did.
  lemma StartStarts(events: seq<Event>, s: State, p: Peer, more: seq<Event>)
    requires Reached(events, s) && s.main.Receiving?
    requires Runs(more) && Steps(Step(s, Receive(StartPacket, p)).value, more).Some?
    requires Steps(Step(s, Receive(StartPacket, p)).value, more).value.main.Receiving?
    ensures
      var t := Steps(Step(s, Receive(StartPacket, p)).value, more).value;
      var from := if s.socket.Some? then LastUdp(events) else p;
      && |t.workers| == |s.workers| + 1 && Serving(t) && t.enable && t.active
      && (forall i :: 0 <= i < |s.workers| ==> !Live(t.workers[i]))
      && t.addr == Address(AF_INET, from.ip, from.port) && t.socket == s.socket
  {
    hide Steps, Safe, LastUdp;
    ReachedSafe(events, s);
    HistoryKept(events, s);
    var t := Step(s, Receive(StartPacket, p)).value;
    StepSafe(s, Receive(StartPacket, p));
    StartRuns(t, more, t.from, |s.workers|, s.socket);
    OldGone(Steps(t, more).value);
  }

  lemma OldGone(s: State)
    requires Safe(s)
    ensures forall i :: 0 <= i < |s.workers| - 1 ==> !Live(s.workers[i])
  {
    hide Spawned, SentSafe, NewestSafe, MainSafe;
  }

  // And it can come back.
  lemma StartEnds(events: seq<Event>, s: State, p: Peer) returns (more: seq<Event>)
    requires Reached(events, s) && s.main.Receiving? && !s.failed
    ensures
      var r := Steps(Step(s, Receive(StartPacket, p)).value, more);
      Runs(more) && r.Some? && r.value.main.Receiving?
  {
    hide Steps, Safe;
    ReachedSafe(events, s);
    var t := Step(s, Receive(StartPacket, p)).value;
    StepSafe(s, Receive(StartPacket, p));
    var u := t;
    more := [];
    NoMore(t);
    more, u := Onward(t, more, u);
    more, u := WaitOver(t, more, u);
    more, u := Onward(t, more, u);
    more, u := Onward(t, more, u);
    more, u := ThreeOnward(t, more, u);
    more, u := ThreeOnward(t, more, u);
  }

  // From SetFamily to SetEnable, or from there until a worker is created.
  lemma ThreeOnward(s: State, events: seq<Event>, t: State) returns (more: seq<Event>, u: State)
    requires Steps(s, events) == Some(t) && Runs(events) && Safe(t) && (t.main.SetFamily? || t.main.SetEnable?)
    ensures Runs(more) && Steps(s, more) == Some(u) && Safe(u)
    ensures if t.main.SetFamily? then u.main.SetEnable? else u.main.Receiving?
  {
    hide Steps, Safe;
    more, u := Onward(s, events, t);
    more, u := Onward(s, more, u);
    more, u := Onward(s, more, u);
  }

  // While it runs, a worker fills a packet, looks for a TCP socket and sends, and is
  // back where it was: one packet more, to addr, through the socket there is.
  lemma WorkerCycle(events: seq<Event>, s: State)
    requires Reached(events, s) && s.enable && s.workers != [] && s.workers[|s.workers| - 1].at.Guard?
    requires s.main.Receiving?
    ensures
      var n := |s.workers| - 1;
      Steps(s, [Work(n), Work(n), Work(n)])
        == Some(s.(sent := s.sent + [Sent(n, s.addr, s.socket.Some?, true)]))
  {
    hide Steps, Safe, Step;
    ReachedSafe(events, s);
    NoMore(s);
    var n := |s.workers| - 1;
    var w := s.workers[n];
    CycleStep(s);
    var a := s.(workers := s.workers[n := w.(at := Filling)]);
    var b := s.(workers := s.workers[n := w.(at := Sending(s.socket.Some?))]);
    var es, t := OneMore(s, [], s, Work(n));
    es, t := OneMore(s, es, a, Work(n));
    es, t := OneMore(s, es, b, Work(n));
    assert es == [Work(n), Work(n), Work(n)];
    assert s.workers[n := w] == s.workers;
  }

  lemma CycleStep(s: State)
    requires Safe(s) && s.enable && s.workers != [] && s.workers[|s.workers| - 1].at.Guard? && s.main.Receiving?
    ensures
      var n := |s.workers| - 1;
      var w := s.workers[n];
      var a := s.(workers := s.workers[n := w.(at := Filling)]);
      var b := s.(workers := s.workers[n := w.(at := Sending(s.socket.Some?))]);
      && Step(s, Work(n)) == Some(a) && Step(a, Work(n)) == Some(b)
      && Step(b, Work(n)) ==
           Some(s.(workers := s.workers[n := w], sent := s.sent + [Sent(n, s.addr, s.socket.Some?, true)]))
  {
    hide Spawned, SentSafe, NewestSafe, OneAtMost, Readdressed;
    var n := |s.workers| - 1;
    var w := s.workers[n];
    var filling, sending := w.(at := Filling), w.(at := Sending(s.socket.Some?));
    assert s.workers[n := filling][n := sending] == s.workers[n := sending];
    assert s.workers[n := sending][n := w] == s.workers[n := w];
  }

  // Where the main thread is receiving, discovering or leaving, a worker that there is
  // has not been told to leave.
  ghost predicate Enabled(s: State) {
    && (s.main.SetActive? || s.main.Create? ==> s.enable)
    && (s.active && (s.main.Receiving? || Discovering(s.main) || Deinit(s.main)) ==>
          s.enable && (s.failed || Serving(s)))
  }

  lemma EnabledStep(s: State, e: Event)
    requires Safe(s) && Enabled(s) && Step(s, e).Some?
    ensures Enabled(Step(s, e).value)
  {
    hide Spawned, SentSafe, StartOf, StartStatement, StopStatement, DiscoverStatement, DeinitStatement, Worked,
         Readdressed, AddressOf, Enabled;
    match e {
      case Proceed => EnabledProceeds(s);
      case Work(i) => EnabledWorks(s, i);
      case _ => EnabledOther(s, e);
    }
  }

  lemma EnabledOther(s: State, e: Event)
    requires Safe(s) && Enabled(s) && Step(s, e).Some? && !e.Proceed? && !e.Work?
    ensures Enabled(Step(s, e).value)
  {
    hide Spawned, SentSafe, StartOf, NewestSafe, OneAtMost, Readdressed, AddressOf;
  }

  lemma EnabledProceeds(s: State)
    requires Safe(s) && Enabled(s) && Proceeded(s).Some?
    ensures Enabled(Proceeded(s).value)
  {
    hide Spawned, SentSafe, StartOf, NewestSafe, OneAtMost, Readdressed, AddressOf;
  }

  lemma EnabledWorks(s: State, i: nat)
    requires Safe(s) && Enabled(s) && i < |s.workers| && Worked(s, i).Some?
    ensures Enabled(Worked(s, i).value)
  {
    hide Spawned, SentSafe, StartOf, Readdressed, AddressOf;
    WorkKeeps(s, i);
    WorkMainKept(s, i);
  }

  lemma {:induction false} EnabledRuns(events: seq<Event>, s: State)
    requires Reached(events, s)
    ensures Safe(s) && Enabled(s)
    decreases |events|
  {
    hide Step, Safe, Enabled;
    RunSafe(events);
    if events == [] {
      EnabledFirst();
    } else {
      var init, e := events[..|events| - 1], events[|events| - 1];
      EnabledRuns(init, Steps(Init(), init).value);
      EnabledStep(Steps(Init(), init).value, e);
    }
  }

  lemma EnabledFirst()
    ensures Enabled(Init())
  {
  }

  // From a discovery packet on; the TCP socket was socket, and active the flag.
  ghost predicate InDiscovery(s: State, socket: Option<nat>, active: bool, n: nat) {
    var closes := socket.Some? && !active;
    && s.active == active && |s.workers| == n
    && if s.main.Receiving? then s.socket == if closes then None else socket
       else Discovering(s.main) && s.socket == socket && (!s.main.DiscoverTest? ==> closes)
  }

  lemma DiscoveryStep(s: State, e: Event, socket: Option<nat>, active: bool, n: nat)
    requires Safe(s) && Enabled(s) && InDiscovery(s, socket, active, n) && !s.failed
    requires (e.Proceed? || e.Work?) && Step(s, e).Some?
    ensures InDiscovery(Step(s, e).value, socket, active, n) && !Step(s, e).value.failed
  {
    hide Spawned, SentSafe, StartOf, StopStatement, StartStatement, DeinitStatement, Readdressed, AddressOf;
    if e.Work? {
      WorkKeeps(s, e.i);
      WorkMainKept(s, e.i);
    }
  }

  lemma {:induction false} DiscoveryRuns(s: State, more: seq<Event>, socket: Option<nat>, active: bool, n: nat)
    requires Safe(s) && Enabled(s) && InDiscovery(s, socket, active, n) && !s.failed
    requires Runs(more) && Steps(s, more).Some?
    ensures var t := Steps(s, more).value; Safe(t) && Enabled(t) && InDiscovery(t, socket, active, n) && !t.failed
    decreases |more|
  {
    hide Step, Safe, Enabled, InDiscovery;
    if more == [] {
    } else {
      var init, e := more[..|more| - 1], more[|more| - 1];
      DiscoveryRuns(s, init, socket, active, n);
      var t := Steps(s, init).value;
      StepSafe(t, e);
      EnabledStep(t, e);
      DiscoveryStep(t, e, socket, active, n);
    }
  }

  // After a discovery packet, when the main thread is back to receive the next, the
  // TCP socket is closed if no worker is about, and else stays; workers stay too.
  lemma DiscoveryCloses(events: seq<Event>, s: State, p: Peer, more: seq<Event>)
    requires Reached(events, s) && s.main.Receiving? && !s.failed
    requires Runs(more) && Steps(Step(s, Receive(DiscoverPacket, p)).value, more).Some?
    requires Steps(Step(s, Receive(DiscoverPacket, p)).value, more).value.main.Receiving?
    ensures
      var t := Steps(Step(s, Receive(DiscoverPacket, p)).value, more).value;
      && (if Alone(s) then t.socket.None? && !t.tcpOpen else t.socket == s.socket && t.tcpOpen == s.socket.Some?)
      && t.active == s.active && |t.workers| == |s.workers| && (Alone(t) <==> Alone(s))
  {
    hide Steps, Spawned, SentSafe, StartOf, Readdressed, AddressOf, Proceeded, Worked;
    EnabledRuns(events, s);
    var t := Step(s, Receive(DiscoverPacket, p)).value;
    StepSafe(s, Receive(DiscoverPacket, p));
    EnabledStep(s, Receive(DiscoverPacket, p));
    DiscoveryRuns(t, more, s.socket, s.active, |s.workers|);
    BusyOrAlone(s);
    BusyOrAlone(Steps(t, more).value);
  }

  // And it can come back.
  lemma DiscoveryEnds(events: seq<Event>, s: State, p: Peer) returns (more: seq<Event>)
    requires Reached(events, s) && s.main.Receiving?
    ensures
      var r := Steps(Step(s, Receive(DiscoverPacket, p)).value, more);
      Runs(more) && r.Some? && r.value.main.Receiving?
  {
    hide Steps, Safe;
    ReachedSafe(events, s);
    var t := Step(s, Receive(DiscoverPacket, p)).value;
    StepSafe(s, Receive(DiscoverPacket, p));
    var u := t;
    more := [];
    NoMore(t);
    more, u := Onward(t, more, u);
    if u.main.DiscoverClose? {
      more, u := Onward(t, more, u);
    }
    if u.main.DiscoverForget? {
      more, u := Onward(t, more, u);
    }
  }

  // Neither a stop nor a discovery comes.
  predicate KeepsSocket(events: seq<Event>) {
    forall e :: e in events && e.Receive? ==> !e.kind.StopPacket? && !e.kind.DiscoverPacket?
  }

  lemma SocketStep(s: State, e: Event)
    requires Step(s, e).Some? && s.socket.Some? && !Stopping(s.main) && !Discovering(s.main)
    requires e.Receive? ==> !e.kind.StopPacket? && !e.kind.DiscoverPacket?
    ensures var t := Step(s, e).value; t.socket == s.socket && !Stopping(t.main) && !Discovering(t.main)
  {
    hide Worked, Proceeded;
    match e {
      case Work(i) => WorkMainKept(s, i);
      case Proceed => SocketProceeds(s);
      case _ =>
    }
  }

  lemma SocketProceeds(s: State)
    requires Proceeded(s).Some? && !Stopping(s.main) && !Discovering(s.main)
    ensures var t := Proceeded(s).value; t.socket == s.socket && !Stopping(t.main) && !Discovering(t.main)
  {
    hide StopStatement, StartStatement, DiscoverStatement, DeinitStatement;
    if Starting(s.main) {
      StartSocket(s);
    } else {
      DeinitSocket(s);
    }
  }

  lemma StartSocket(s: State)
    requires Starting(s.main)
    ensures var t := StartStatement(s); t.socket == s.socket && !Stopping(t.main) && !Discovering(t.main)
  {
    hide StartStatement;
    StartSameSocket(s);
    StartGoesOn(s);
  }

  lemma StartSameSocket(s: State)
    requires Starting(s.main)
    ensures StartStatement(s).socket == s.socket
  {
  }

  lemma StartGoesOn(s: State)
    requires Starting(s.main)
    ensures var t := StartStatement(s); Starting(t.main) || t.main.Receiving?
  {
  }

  lemma DeinitSocket(s: State)
    requires Deinit(s.main)
    ensures var t := DeinitStatement(s); t.socket == s.socket && !Stopping(t.main) && !Discovering(t.main)
  {
  }

  // A TCP socket, once there, stays the one until a stop or a discovery packet comes.
  lemma {:induction false} SocketStays(s: State, more: seq<Event>)
    requires s.socket.Some? && !Stopping(s.main) && !Discovering(s.main)
    requires KeepsSocket(more) && Steps(s, more).Some?
    ensures var t := Steps(s, more).value; t.socket == s.socket && !Stopping(t.main) && !Discovering(t.main)
    decreases |more|
  {
    hide Step, Stopping, Discovering;
    if more == [] {
    } else {
      var init, e := more[..|more| - 1], more[|more| - 1];
      SocketStays(s, init);
      SocketStep(Steps(s, init).value, e);
    }
  }

  // Where a thread cannot be created, the main thread goes on to receive with
  // active_thread set and no worker to clear it;
  lemma CreationFails(events: seq<Event>, s: State)
    requires Reached(events, s) && s.main.Create?
    ensures
      var t := Step(s, CreateFails);
      && t.Some? && t.value.failed && t.value.main.Receiving?
      && t.value.active && t.value.workers == s.workers && Alone(t.value)
  {
    hide Steps, Spawned, SentSafe, StartOf;
    ReachedSafe(events, s);
    BusyOrAlone(s);
  }

  // and a stop packet is then never done with.
  lemma FailedStopHangs(events: seq<Event>, s: State, p: Peer, more: seq<Event>)
    requires Reached(events, s) && s.main.Receiving? && s.failed
    requires Runs(more) && Steps(Step(s, Receive(StopPacket, p)).value, more).Some?
    ensures !Steps(Step(s, Receive(StopPacket, p)).value, more).value.main.Receiving?
  {
    hide Safe, Step;
    var t := Step(s, Receive(StopPacket, p));
    assert t.Some? by { StopReceived(s, p); }
    var all := events + [Receive(StopPacket, p)];
    assert all[..|events|] == events;
    assert Steps(Init(), all) == t;
    StillFailed(s, p);
    FailureSticks(all, more);
    if Steps(t.value, more).value.main.Receiving? {
      StopStops(events, s, p, more);
      assert false;
    }
  }

  lemma StopReceived(s: State, p: Peer)
    requires s.main.Receiving?
    ensures Step(s, Receive(StopPacket, p)).Some?
  {
  }

  lemma StillFailed(s: State, p: Peer)
    requires s.main.Receiving? && s.failed
    ensures Step(s, Receive(StopPacket, p)).Some? && Step(s, Receive(StopPacket, p)).value.failed
  {
  }

  // Other packets are let by.
  lemma OtherPassed(s: State, p: Peer)
    requires s.main.Receiving?
    ensures
      var t := Step(s, Receive(OtherPacket, p));
      t == Some(if s.socket.Some? then s else s.(from := p))
  {
  }
}
