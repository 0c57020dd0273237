// The start and stop of the EP6 worker thread (hpsdr_network.c, hpsdr_ep6.c):
// the main thread, and as many workers as it has created, one step at a time.
module Handshake {
  import opened Chars

  datatype Peer = Peer(ip: nat, port: nat)

  // A socket address; one that is being rewritten is partly zero.
  datatype Address = Address(family: nat, ip: nat, port: nat)

  const AF_INET := 2

  function AddressOf(p: Peer): Address {
    Address(AF_INET, p.ip, p.port)
  }

  // Where the main thread stands: before the statement of that name.
  datatype MainAt =
    | Receiving
    | StopDisable | StopWait | StopClose | StopForget
    | StartDisable | StartWait | ClearAddr | SetFamily | SetIp | SetPort | SetEnable | SetActive | Create
    | DiscoverTest | DiscoverClose | DiscoverForget
    | DeinitUdp | DeinitTcp | Exiting | Ended

  datatype WorkerAt =
    | Guard                             // while (1) if (!enable_thread)
    | Filling                           // the packet, up to hpsdr_network_send
    | Sending(tcp: bool)                // having looked at sock_TCP_Client
    | Leaving                           // before active_thread = 0
    | Gone

  // The worker that the start-th start packet spawned.
  datatype Worker = Worker(at: WorkerAt, start: nat)

  // A packet handed to a socket, and whether that socket was open then.
  datatype Sent = Sent(worker: nat, to: Address, tcp: bool, open: bool)

  datatype State = State(
    main: MainAt,
    enable: bool, active: bool,         // enable_thread, active_thread
    addr: Address,
    from: Peer,                         // addr_from
    socket: Option<nat>,                // sock_TCP_Client; none is -1
    tcpOpen: bool, udpOpen: bool,       // sock_TCP_Client and sock_udp are open sockets
    workers: seq<Worker>,
    starts: seq<Peer>,                  // where the start packets so far came from
    sent: seq<Sent>,
    failed: bool)                       // a thread could not be created

  datatype Kind = StartPacket | StopPacket | DiscoverPacket | OtherPacket

  datatype Event =
    | Receive(kind: Kind, peer: Peer)
    | Accept(socket: nat)
    | ReceiveFails                      // hpsdr_network_process returns EXIT_FAILURE
    | Proceed                           // the main thread's next statement
    | CreateFails
    | Work(i: nat)                      // worker i's next statement

  function Init(): State {
    State(Receiving, false, false, Address(0, 0, 0), Peer(0, 0), None, false, true, [], [], [], false)
  }

  // A packet over TCP does not tell where it came from.
  function Received(s: State, kind: Kind, peer: Peer): State {
    var from := if s.socket.Some? then s.from else peer;
    var t := s.(from := from);
    match kind
    case StartPacket => t.(main := StartDisable, starts := s.starts + [from])
    case StopPacket => t.(main := StopDisable)
    case DiscoverPacket => t.(main := DiscoverTest)
    case OtherPacket => t
  }

  // A TCP socket, if there is one, is closed.
  function AfterClose(s: State, next: MainAt): State {
    if s.socket.None? then s.(main := Receiving) else s.(tcpOpen := false, main := next)
  }

  predicate Stopping(at: MainAt) {
    at.StopDisable? || at.StopWait? || at.StopClose? || at.StopForget?
  }

  predicate Starting(at: MainAt) {
    || at.StartDisable? || at.StartWait? || at.ClearAddr? || at.SetFamily? || at.SetIp? || at.SetPort?
    || at.SetEnable? || at.SetActive? || at.Create?
  }

  predicate Discovering(at: MainAt) {
    at.DiscoverTest? || at.DiscoverClose? || at.DiscoverForget?
  }

  // hpsdr_network_deinit, once a receive has failed.
  predicate Deinit(at: MainAt) {
    at.DeinitUdp? || at.DeinitTcp? || at.Exiting? || at.Ended?
  }

  function StopStatement(s: State): State
    requires Stopping(s.main)
  {
    match s.main
    case StopDisable => s.(enable := false, main := StopWait)
    case StopWait => if s.active then s else s.(main := StopClose)
    case StopClose => AfterClose(s, StopForget)
    case StopForget => s.(socket := None, main := Receiving)
  }

  function StartStatement(s: State): State
    requires Starting(s.main)
  {
    match s.main
    case StartDisable => s.(enable := false, main := StartWait)
    case StartWait => if s.active then s else s.(main := ClearAddr)
    case ClearAddr => s.(addr := Address(0, 0, 0), main := SetFamily)
    case SetFamily => s.(addr := s.addr.(family := AF_INET), main := SetIp)
    case SetIp => s.(addr := s.addr.(ip := s.from.ip), main := SetPort)
    case SetPort => s.(addr := s.addr.(port := s.from.port), main := SetEnable)
    case SetEnable => s.(enable := true, main := SetActive)
    case SetActive => s.(active := true, main := Create)
    case Create => s.(workers := s.workers + [Worker(Guard, |s.starts|)], main := Receiving)
  }

  function DiscoverStatement(s: State): State
    requires Discovering(s.main)
  {
    match s.main
    case DiscoverTest => s.(main := if s.socket.Some? && !s.active then DiscoverClose else Receiving)
    case DiscoverClose => AfterClose(s, DiscoverForget)
    case DiscoverForget => s.(socket := None, main := Receiving)
  }

  function DeinitStatement(s: State): State
    requires Deinit(s.main)
  {
    match s.main
    case DeinitUdp => s.(udpOpen := false, main := DeinitTcp)
    case DeinitTcp => s.(tcpOpen := false, main := Exiting)
    case Exiting => s.(main := Ended)
    case Ended => s
  }

  function Proceeded(s: State): Option<State> {
    if s.main.Receiving? || s.main.Ended? then None
    else if Stopping(s.main) then Some(StopStatement(s))
    else if Starting(s.main) then Some(StartStatement(s))
    else if Discovering(s.main) then Some(DiscoverStatement(s))
    else Some(DeinitStatement(s))
  }

  function Worked(s: State, i: nat): Option<State>
    requires i < |s.workers|
  {
    var w := s.workers[i];
    match w.at
    case Guard => Some(s.(workers := s.workers[i := w.(at := if s.enable then Filling else Leaving)]))
    case Filling => Some(s.(workers := s.workers[i := w.(at := Sending(s.socket.Some?))]))
    case Sending(tcp) =>
      var open := if tcp then s.tcpOpen else s.udpOpen;
      Some(s.(workers := s.workers[i := w.(at := Guard)], sent := s.sent + [Sent(i, s.addr, tcp, open)]))
    case Leaving => Some(s.(workers := s.workers[i := w.(at := Gone)], active := false))
    case Gone => None
  }

  // The state after e, if e can happen. When main has returned there are no
  // threads any more.
  function Step(s: State, e: Event): Option<State> {
    match e
    case Receive(kind, peer) => if s.main.Receiving? then Some(Received(s, kind, peer)) else None
    case Accept(n) => if s.main.Receiving? && s.socket.None? then Some(s.(socket := Some(n), tcpOpen := true)) else None
    case ReceiveFails => if s.main.Receiving? then Some(s.(main := DeinitUdp)) else None
    case Proceed => Proceeded(s)
    case CreateFails => if s.main.Create? then Some(s.(main := Receiving, failed := true)) else None
    case Work(i) => if i < |s.workers| && !s.main.Ended? then Worked(s, i) else None
  }

  function Steps(s: State, events: seq<Event>): Option<State> {
    if events == [] then Some(s)
    else
      match Steps(s, events[..|events| - 1])
      case None => None
      case Some(t) => Step(t, events[|events| - 1])
  }

  predicate Live(w: Worker) {
    !w.at.Gone?
  }

  // The newest worker has not cleared active_thread yet.
  predicate Busy(s: State) {
    s.workers != [] && Live(s.workers[|s.workers| - 1])
  }

  // The main thread is past its wait for active_thread.
  predicate Past(at: MainAt) {
    || at.ClearAddr? || at.SetFamily? || at.SetIp? || at.SetPort? || at.SetEnable? || at.SetActive?
    || at.StopClose? || at.StopForget? || at.DiscoverClose? || at.DiscoverForget?
  }

  // How much of addr has been rewritten.
  predicate Readdressed(s: State) {
    match s.main
    case SetFamily => s.addr == Address(0, 0, 0)
    case SetIp => s.addr == Address(AF_INET, 0, 0)
    case SetPort => s.addr == Address(AF_INET, s.from.ip, 0)
    case SetEnable => s.addr == AddressOf(s.from)
    case SetActive => s.addr == AddressOf(s.from)
    case Create => s.addr == AddressOf(s.from)
    case _ => true
  }

  // The address of the start packet that spawned worker i.
  function StartOf(s: State, i: nat): Address
    requires i < |s.workers| && 0 < s.workers[i].start <= |s.starts|
  {
    AddressOf(s.starts[s.workers[i].start - 1])
  }

  ghost predicate Spawned(s: State) {
    forall i :: 0 <= i < |s.workers| ==> 0 < s.workers[i].start <= |s.starts|
  }

  // Every worker but the newest has cleared active_thread.
  ghost predicate OneAtMost(s: State) {
    forall i :: 0 <= i < |s.workers| - 1 ==> !Live(s.workers[i])
  }

  // What the newest worker relies on while it lives.
  predicate NewestSafe(s: State) {
    Busy(s) ==>
      var n := |s.workers| - 1;
      var w := s.workers[n];
      && s.active && 0 < w.start <= |s.starts| && s.addr == StartOf(s, n)
      && (w.at == Sending(true) ==> s.socket.Some?)
  }

  predicate TcpClosed(at: MainAt) {
    at.StopForget? || at.DiscoverForget? || at.Exiting? || at.Ended?
  }

  // Which sockets are open, going by where the main thread stands.
  predicate SocketsSafe(s: State) {
    && s.tcpOpen == (s.socket.Some? && !TcpClosed(s.main))
    && s.udpOpen == (!s.main.DeinitTcp? && !s.main.Exiting? && !s.main.Ended?)
  }

  predicate Waiting(s: State) {
    s.main.StopWait? || s.main.StartWait?
  }

  predicate MainSafe(s: State) {
    && (Past(s.main) ==> !s.active)
    && (s.main.Create? ==> s.active && !Busy(s))
    && (Starting(s.main) ==> s.starts != [] && s.from == s.starts[|s.starts| - 1])
    && Readdressed(s)
    && (Waiting(s) ==> !s.enable)
    && (s.active ==> Busy(s) || s.main.Create? || s.failed)
    && (s.failed ==> Stuck(s))
    && SocketsSafe(s)
  }

  // active_thread is set, and there is no worker to clear it.
  predicate Stuck(s: State) {
    s.active && !Busy(s) && !s.main.Create? && !Past(s.main)
  }

  ghost predicate SentSafe(s: State)
    requires Spawned(s)
  {
    forall k :: 0 <= k < |s.sent| ==>
      s.sent[k].worker < |s.workers| && s.sent[k].to == StartOf(s, s.sent[k].worker)
  }

  ghost predicate Safe(s: State) {
    Spawned(s) && OneAtMost(s) && NewestSafe(s) && MainSafe(s) && SentSafe(s)
  }

  lemma InitSafe()
    ensures Safe(Init())
  {
  }

  // A step of the main thread that creates no worker.
  lemma SameWorkers(s: State, t: State)
    requires Safe(s) && t.workers == s.workers && t.sent == s.sent && s.starts <= t.starts
    ensures Spawned(t) && OneAtMost(t) && SentSafe(t)
    ensures forall i :: 0 <= i < |s.workers| ==> StartOf(t, i) == StartOf(s, i)
  {
    hide NewestSafe, MainSafe;
    assert forall n :: 0 <= n < |s.starts| ==> t.starts[n] == s.starts[n];
  }

  lemma WorkKeeps(s: State, i: nat)
    requires Safe(s) && i < |s.workers| && Worked(s, i).Some?
    ensures var t := Worked(s, i).value;
      && i == |s.workers| - 1 && Busy(s)
      && |t.workers| == |s.workers| && t.workers[..i] == s.workers[..i] && t.workers[i].start == s.workers[i].start
      && t.starts == s.starts
  {
    hide NewestSafe, MainSafe, SentSafe;
    assert Live(s.workers[i]);
  }

  lemma WorkSafe(s: State, i: nat)
    requires Safe(s) && i < |s.workers| && Worked(s, i).Some?
    ensures Safe(Worked(s, i).value)
  {
    hide MainSafe, AddressOf;
    var t := Worked(s, i).value;
    WorkKeeps(s, i);
    assert forall j :: 0 <= j < i ==> t.workers[j] == s.workers[j];
    WorkMain(s, i);
    WorkNewest(s, i);
  }

  lemma WorkNewest(s: State, i: nat)
    requires Safe(s) && i < |s.workers| && Worked(s, i).Some?
    ensures NewestSafe(Worked(s, i).value)
  {
    hide MainSafe, SentSafe, OneAtMost;
    WorkKeeps(s, i);
  }

  lemma WorkMain(s: State, i: nat)
    requires Safe(s) && i < |s.workers| && Worked(s, i).Some?
    ensures MainSafe(Worked(s, i).value)
  {
    hide SentSafe, Spawned, OneAtMost, AddressOf, StartOf;
    WorkKeeps(s, i);
  }

  lemma CreateSafe(s: State)
    requires Safe(s) && s.main.Create?
    ensures Safe(Proceeded(s).value)
  {
    hide MainSafe;
    var t := Proceeded(s).value;
    assert forall j :: 0 <= j < |s.workers| ==> t.workers[j] == s.workers[j];
    CreateMain(s);
  }

  lemma CreateMain(s: State)
    requires Safe(s) && s.main.Create?
    ensures MainSafe(Proceeded(s).value) && NewestSafe(Proceeded(s).value) && !Busy(s)
  {
    hide Spawned, OneAtMost, SentSafe;
  }

  lemma StopSafe(s: State)
    requires Safe(s) && Stopping(s.main)
    ensures Safe(StopStatement(s))
  {
    hide Spawned, OneAtMost, SentSafe, AddressOf;
    SameWorkers(s, StopStatement(s));
  }

  lemma DiscoverSafe(s: State)
    requires Safe(s) && Discovering(s.main)
    ensures Safe(DiscoverStatement(s))
  {
    hide Spawned, OneAtMost, SentSafe, AddressOf;
    SameWorkers(s, DiscoverStatement(s));
  }

  lemma DeinitSafe(s: State)
    requires Safe(s) && Deinit(s.main)
    ensures Safe(DeinitStatement(s))
  {
    hide Spawned, OneAtMost, SentSafe, AddressOf;
    SameWorkers(s, DeinitStatement(s));
  }

  lemma StartSafe(s: State)
    requires Safe(s) && Starting(s.main) && !s.main.Create?
    ensures Safe(StartStatement(s))
  {
    hide Spawned, OneAtMost, SentSafe;
    SameWorkers(s, StartStatement(s));
  }

  lemma ProceedSafe(s: State)
    requires Safe(s) && Proceeded(s).Some?
    ensures Safe(Proceeded(s).value)
  {
    hide Safe, StopStatement, StartStatement, DiscoverStatement, DeinitStatement;
    if Stopping(s.main) {
      StopSafe(s);
    } else if s.main.Create? {
      CreateSafe(s);
    } else if Starting(s.main) {
      StartSafe(s);
    } else if Discovering(s.main) {
      DiscoverSafe(s);
    } else {
      DeinitSafe(s);
    }
  }

  lemma SameNewest(s: State, t: State)
    requires Safe(s) && t.workers == s.workers && s.starts <= t.starts
    requires t.active == s.active && t.addr == s.addr && t.socket == s.socket
    ensures NewestSafe(t)
  {
    hide MainSafe, SentSafe, OneAtMost;
    assert forall n :: 0 <= n < |s.starts| ==> t.starts[n] == s.starts[n];
  }

  lemma ReceiveSafe(s: State, kind: Kind, peer: Peer)
    requires Safe(s) && s.main.Receiving?
    ensures Safe(Received(s, kind, peer))
  {
    hide Spawned, OneAtMost, SentSafe, NewestSafe, AddressOf, StartOf;
    SameWorkers(s, Received(s, kind, peer));
    SameNewest(s, Received(s, kind, peer));
  }

  lemma OtherSafe(s: State, e: Event)
    requires Safe(s) && Step(s, e).Some? && (e.Accept? || e.CreateFails? || e.ReceiveFails?)
    ensures Safe(Step(s, e).value)
  {
    hide Spawned, OneAtMost, SentSafe, Proceeded, Worked, Received;
    SameWorkers(s, Step(s, e).value);
  }

  lemma StepSafe(s: State, e: Event)
    requires Safe(s) && Step(s, e).Some?
    ensures Safe(Step(s, e).value)
  {
    hide Proceeded, Worked, Received, Safe;
    match e {
      case Receive(kind, peer) => ReceiveSafe(s, kind, peer);
      case Accept(_) => OtherSafe(s, e);
      case Proceed => ProceedSafe(s);
      case ReceiveFails => OtherSafe(s, e);
      case CreateFails => OtherSafe(s, e);
      case Work(i) => WorkSafe(s, i);
    }
  }

  lemma {:induction false} RunSafe(events: seq<Event>)
    requires Steps(Init(), events).Some?
    ensures Safe(Steps(Init(), events).value)
  {
    hide Step, Safe;
    if events == [] {
      InitSafe();
    } else {
      RunSafe(events[..|events| - 1]);
      StepSafe(Steps(Init(), events[..|events| - 1]).value, events[|events| - 1]);
    }
  }

  // In every interleaving at most one worker lies between its creation and its
  // clearing of active_thread.
  lemma OneWorker(events: seq<Event>, i: nat, j: nat)
    requires Steps(Init(), events).Some?
    requires var s := Steps(Init(), events).value;
      i < |s.workers| && j < |s.workers| && Live(s.workers[i]) && Live(s.workers[j])
    ensures i == j
  {
    hide Steps;
    RunSafe(events);
  }

  // addr is rewritten only while there is no worker.
  lemma AddrOnlyAlone(events: seq<Event>, e: Event)
    requires Steps(Init(), events).Some? && Step(Steps(Init(), events).value, e).Some?
    ensures
      var s := Steps(Init(), events).value;
      Step(s, e).value.addr != s.addr ==> Alone(s)
  {
    hide Steps, Step, Safe, Alone, Past;
    var s := Steps(Init(), events).value;
    RunSafe(events);
    if Step(s, e).value.addr != s.addr {
      AddrStep(s, e);
      PastAlone(s);
    }
  }

  lemma AddrStep(s: State, e: Event)
    requires Step(s, e).Some? && Step(s, e).value.addr != s.addr
    ensures Past(s.main)
  {
    hide StopStatement, StartStatement, DiscoverStatement, DeinitStatement;
    if e.Proceed? {
      if Starting(s.main) {
        StartAddr(s);
      } else {
        OtherAddr(s);
      }
    }
  }

  lemma StartAddr(s: State)
    requires Starting(s.main)
    ensures StartStatement(s).addr != s.addr ==> Past(s.main)
  {
  }

  lemma OtherAddr(s: State)
    ensures Stopping(s.main) ==> StopStatement(s).addr == s.addr
    ensures Discovering(s.main) ==> DiscoverStatement(s).addr == s.addr
    ensures Deinit(s.main) ==> DeinitStatement(s).addr == s.addr
  {
  }

  lemma PastAlone(s: State)
    requires Safe(s) && Past(s.main)
    ensures Alone(s)
  {
    hide Spawned, SentSafe;
  }

  ghost predicate Alone(s: State) {
    forall i :: 0 <= i < |s.workers| ==> !Live(s.workers[i])
  }

  // A TCP socket is closed with no worker about exactly when it is not closed by
  // hpsdr_network_deinit, or active_thread is not set then, or is set because a
  // thread could not be created.
  lemma ClosedAlone(events: seq<Event>, e: Event)
    requires Steps(Init(), events).Some? && Step(Steps(Init(), events).value, e).Some?
    requires Steps(Init(), events).value.tcpOpen && !Step(Steps(Init(), events).value, e).value.tcpOpen
    ensures
      var s := Steps(Init(), events).value;
      Alone(s) <==> !s.main.DeinitTcp? || !s.active || s.failed
  {
    hide Steps;
    RunSafe(events);
    BusyOrAlone(Steps(Init(), events).value);
  }

  lemma BusyOrAlone(s: State)
    requires OneAtMost(s)
    ensures Alone(s) <==> !Busy(s)
  {
  }

  // So every packet goes to where the start that spawned its worker came from.
  lemma SentToStart(events: seq<Event>, k: nat)
    requires Steps(Init(), events).Some?
    requires k < |Steps(Init(), events).value.sent|
    ensures
      var s := Steps(Init(), events).value;
      var p := s.sent[k];
      p.worker < |s.workers| && 0 < s.workers[p.worker].start <= |s.starts| && p.to == StartOf(s, p.worker)
  {
    hide Steps;
    RunSafe(events);
  }

  // What a worker sends goes through a socket that is still open exactly until
  // hpsdr_network_deinit has closed that socket.
  lemma SentWhileOpen(events: seq<Event>, i: nat)
    requires Steps(Init(), events).Some?
    requires var s := Steps(Init(), events).value;
      i < |s.workers| && s.workers[i].at.Sending? && Step(s, Work(i)).Some?
    ensures
      var s := Steps(Init(), events).value;
      var t := Step(s, Work(i)).value;
      && |t.sent| == |s.sent| + 1 && t.sent[..|s.sent|] == s.sent
      && (t.sent[|s.sent|].open <==> !s.main.Exiting? && (s.workers[i].at.tcp || !s.main.DeinitTcp?))
  {
    hide Steps;
    RunSafe(events);
    assert Live(Steps(Init(), events).value.workers[i]);
  }

  // So all packets so far went through open sockets, if no receive has failed.
  lemma {:induction false} AllSentOpen(events: seq<Event>)
    requires Steps(Init(), events).Some? && ReceiveFails !in events
    ensures
      var s := Steps(Init(), events).value;
      && !Deinit(s.main)
      && forall k :: 0 <= k < |s.sent| ==> s.sent[k].open
    decreases |events|
  {
    hide Step;
    if events == [] {
      assert Init().sent == [];
    } else {
      var init, e := events[..|events| - 1], events[|events| - 1];
      AllSentOpen(init);
      RunSafe(init);
      OpenStep(Steps(Init(), init).value, e);
    }
  }

  lemma OpenStep(s: State, e: Event)
    requires Safe(s) && Step(s, e).Some? && e != ReceiveFails
    requires !Deinit(s.main)
    requires forall k :: 0 <= k < |s.sent| ==> s.sent[k].open
    ensures
      var t := Step(s, e).value;
      && !Deinit(t.main)
      && forall k :: 0 <= k < |t.sent| ==> t.sent[k].open
  {
    hide Safe, Proceeded, Worked, Received;
    match e {
      case Receive(kind, peer) => OpenReceives(s, kind, peer);
      case Proceed => OpenProceeds(s);
      case Work(i) => OpenWorks(s, i);
      case _ =>
    }
  }

  lemma OpenReceives(s: State, kind: Kind, peer: Peer)
    ensures var t := Received(s, kind, peer); t.sent == s.sent && (!Deinit(s.main) ==> !Deinit(t.main))
  {
  }

  lemma OpenProceeds(s: State)
    requires Proceeded(s).Some? && !Deinit(s.main)
    ensures Proceeded(s).value.sent == s.sent && !Deinit(Proceeded(s).value.main)
  {
    hide StopStatement, StartStatement, DiscoverStatement, DeinitStatement;
    if Stopping(s.main) {
      StopOpen(s);
    } else if Starting(s.main) {
      StartOpen(s);
    } else {
      DiscoverOpen(s);
    }
  }

  lemma StopOpen(s: State)
    requires Stopping(s.main)
    ensures StopStatement(s).sent == s.sent && !Deinit(StopStatement(s).main)
  {
  }

  lemma StartOpen(s: State)
    requires Starting(s.main)
    ensures StartStatement(s).sent == s.sent && !Deinit(StartStatement(s).main)
  {
  }

  lemma DiscoverOpen(s: State)
    requires Discovering(s.main)
    ensures DiscoverStatement(s).sent == s.sent && !Deinit(DiscoverStatement(s).main)
  {
  }

  lemma OpenWorks(s: State, i: nat)
    requires Safe(s) && i < |s.workers| && Worked(s, i).Some? && !Deinit(s.main)
    ensures var t := Worked(s, i).value;
      && t.main == s.main
      && (t.sent == s.sent || (|t.sent| == |s.sent| + 1 && t.sent[..|s.sent|] == s.sent && t.sent[|s.sent|].open))
  {
    hide SentSafe, Spawned, Readdressed, Starting;
    WorkKeeps(s, i);
  }

  // Over TCP: a start, the worker about to send, then a failing receive.
  const STARTED: seq<Event> :=
    [Accept(5), Receive(StartPacket, Peer(1, 2)), Proceed, Proceed, Proceed, Proceed, Proceed, Proceed, Proceed,
     Proceed, Proceed]
  const RESET: seq<Event> := [Work(0), Work(0), ReceiveFails, Proceed, Proceed, Work(0)]

  // The socket is closed under the worker, and the worker sends.
  lemma ResetClosesSocket()
    ensures Steps(Init(), STARTED + RESET).Some?
    ensures
      var s := Steps(Init(), STARTED + RESET).value;
      && !Alone(s) && s.socket == Some(5) && !s.tcpOpen
      && s.sent == [Sent(0, s.addr, true, false)]
  {
    hide Steps;
    var s := StartsOverTcp();
    var es := STARTED;
    es, s := Then(es, s, Work(0));
    es, s := Then(es, s, Work(0));
    es, s := Then(es, s, ReceiveFails);
    es, s := Then(es, s, Proceed);
    es, s := Then(es, s, Proceed);
    es, s := Then(es, s, Work(0));
    assert es == STARTED + RESET;
    assert s.workers == [Worker(Guard, 1)] && Live(s.workers[0]);
  }

  lemma StartsOverTcp() returns (s: State)
    ensures Steps(Init(), STARTED) == Some(s)
    ensures s.main.Receiving? && s.enable && s.socket == Some(5) && s.tcpOpen && s.workers == [Worker(Guard, 1)]
    ensures s.sent == []
  {
    hide Steps;
    NoSteps();
    var es := [];
    s := Init();
    es, s := Then(es, s, Accept(5));
    es, s := Then(es, s, Receive(StartPacket, Peer(1, 2)));
    es, s := Then(es, s, Proceed);
    es, s := Then(es, s, Proceed);
    assert s == Init().(main := ClearAddr, socket := Some(5), tcpOpen := true, starts := [Peer(0, 0)]);
    es, s := Then(es, s, Proceed);
    es, s := ThreeStatements(es, s);
    es, s := ThreeStatements(es, s);
    assert es == STARTED;
  }

  // From SetFamily to SetEnable, or from there until a worker is created.
  lemma ThreeStatements(events: seq<Event>, s: State) returns (more: seq<Event>, t: State)
    requires Steps(Init(), events) == Some(s) && (s.main.SetFamily? || s.main.SetEnable?)
    ensures more == events + [Proceed, Proceed, Proceed] && Steps(Init(), more) == Some(t)
    ensures t ==
      if s.main.SetFamily? then s.(addr := AddressOf(s.from), main := SetEnable)
      else s.(enable := true, active := true, workers := s.workers + [Worker(Guard, |s.starts|)], main := Receiving)
  {
    hide Steps;
    more, t := Then(events, s, Proceed);
    more, t := Then(more, t, Proceed);
    more, t := Then(more, t, Proceed);
  }

  lemma NoSteps()
    ensures Steps(Init(), []) == Some(Init())
  {
  }

  // One more event after a run.
  lemma Then(events: seq<Event>, s: State, e: Event) returns (more: seq<Event>, t: State)
    requires Steps(Init(), events) == Some(s) && Step(s, e).Some?
    ensures more == events + [e] && Steps(Init(), more) == Some(t) && Step(s, e) == Some(t)
  {
    hide Step;
    more, t := events + [e], Step(s, e).value;
    assert more[..|events|] == events;
  }

  // How many steps a worker has left once enable_thread is cleared.
  function StepsLeft(w: Worker): nat {
    match w.at
    case Filling => 4
    case Sending(_) => 3
    case Guard => 2
    case Leaving => 1
    case Gone => 0
  }

  function StillToGo(s: State): nat {
    if s.workers == [] then 0 else StepsLeft(s.workers[|s.workers| - 1])
  }

  // The wait ends, if threads can be created: while it lasts the newest worker
  // has a step to take, each takes it nearer to its end, and then the main
  // thread goes on.
  lemma WaitEnds(events: seq<Event>)
    requires Steps(Init(), events).Some? && Waiting(Steps(Init(), events).value)
    requires !Steps(Init(), events).value.failed
    ensures
      var s := Steps(Init(), events).value;
      && (s.active <==> StillToGo(s) > 0)
      && (s.active ==> Step(s, Work(|s.workers| - 1)).Some?)
      && (forall i :: Step(s, Work(i)).Some? ==> StillToGo(Step(s, Work(i)).value) == StillToGo(s) - 1)
      && (!s.active ==> Step(s, Proceed).value.main != s.main)
  {
    hide Steps, Step, Safe, StillToGo;
    RunSafe(events);
    WaitStep(Steps(Init(), events).value);
  }

  lemma WaitStep(s: State)
    requires Safe(s) && Waiting(s) && !s.failed
    ensures s.active <==> StillToGo(s) > 0
    ensures s.active ==> Step(s, Work(|s.workers| - 1)).Some?
    ensures forall i :: Step(s, Work(i)).Some? ==> StillToGo(Step(s, Work(i)).value) == StillToGo(s) - 1
    ensures !s.active ==> Step(s, Proceed).value.main != s.main
  {
    hide Readdressed, SentSafe, Spawned, SocketsSafe, Past, AddressOf;
  }

  function PacketsLeft(s: State): nat {
    if StillToGo(s) >= 3 then 1 else 0
  }

  // The worker sends at most the one packet it was filling when enable_thread
  // was cleared. (Sleeping, the main thread changes nothing.)
  lemma {:induction false} LastPacket(events: seq<Event>, more: seq<Event>)
    requires Steps(Init(), events).Some? && Waiting(Steps(Init(), events).value)
    requires Steps(Steps(Init(), events).value, more).Some? && forall e :: e in more ==> e.Work?
    ensures
      var s := Steps(Init(), events).value;
      var t := Steps(s, more).value;
      Safe(t) && Waiting(t) && |t.sent| + PacketsLeft(t) == |s.sent| + PacketsLeft(s)
    decreases |more|
  {
    hide Step, Safe;
    RunSafe(events);
    if more == [] {
    } else {
      LastPacket(events, more[..|more| - 1]);
      OnePacket(Steps(Steps(Init(), events).value, more[..|more| - 1]).value, more[|more| - 1]);
    }
  }

  lemma OnePacket(s: State, e: Event)
    requires Safe(s) && Waiting(s) && e.Work? && Step(s, e).Some?
    ensures var t := Step(s, e).value;
      Safe(t) && Waiting(t) && |t.sent| + PacketsLeft(t) == |s.sent| + PacketsLeft(s)
  {
    hide SentSafe, Spawned, NewestSafe, Readdressed, Past, Starting, OneAtMost;
    StepSafe(s, e);
    WorkKeeps(s, e.i);
  }

  // The wait ends only if threads can be created: the check of pthread_create's
  // result lets a failure pass, and after one nothing is ever started, stopped or
  // sent again.
  lemma {:induction false} FailureSticks(events: seq<Event>, more: seq<Event>)
    requires Steps(Init(), events).Some? && Steps(Init(), events).value.failed
    requires Steps(Steps(Init(), events).value, more).Some?
    ensures
      var s := Steps(Init(), events).value;
      var t := Steps(s, more).value;
      && Safe(t) && t.failed && t.workers == s.workers && t.sent == s.sent
      && t.active && !Past(t.main) && !t.main.Create?
    decreases |more|
  {
    hide Step, Safe, Past;
    RunSafe(events);
    if more == [] {
      FailedStuck(Steps(Init(), events).value);
    } else {
      FailureSticks(events, more[..|more| - 1]);
      var t, e := Steps(Steps(Init(), events).value, more[..|more| - 1]).value, more[|more| - 1];
      StepSafe(t, e);
      FailedStep(t, e);
      FailedStuck(Step(t, e).value);
    }
  }

  lemma FailedStuck(s: State)
    requires Safe(s) && s.failed
    ensures s.active && !Past(s.main) && !s.main.Create?
  {
    hide Spawned, OneAtMost, SentSafe;
  }

  lemma FailedStep(s: State, e: Event)
    requires Safe(s) && s.failed && Step(s, e).Some?
    ensures var t := Step(s, e).value; t.failed && t.workers == s.workers && t.sent == s.sent
  {
    hide Spawned, SentSafe, NewestSafe, Readdressed, StartOf, Proceeded, Worked, Received, Safe;
    match e {
      case Proceed => FailedProceeds(s);
      case Work(i) => FailedIdle(s, i);
      case Receive(kind, peer) => FailedReceives(s, kind, peer);
      case _ =>
    }
  }

  lemma FailedProceeds(s: State)
    requires Safe(s) && s.failed && Proceeded(s).Some?
    ensures var t := Proceeded(s).value; t.failed && t.workers == s.workers && t.sent == s.sent
  {
    hide Safe;
    FailedStuck(s);
  }

  lemma FailedReceives(s: State, kind: Kind, peer: Peer)
    requires s.failed
    ensures var t := Received(s, kind, peer); t.failed && t.workers == s.workers && t.sent == s.sent
  {
  }

  lemma FailedIdle(s: State, i: nat)
    requires Safe(s) && s.failed && i < |s.workers|
    ensures Worked(s, i).None?
  {
    hide Spawned, SentSafe, NewestSafe, Readdressed;
  }
}
