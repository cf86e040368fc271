/** The peering service of peering/peering.go as a state machine.

Goroutines, network notifications and the halves of a handler's critical sections are
separate steps: between a handler's check of the connection and what it does about it,
the network may change.  A timer is modelled by its presence in the handler only. */
module Peering {
  import opened Backoff
  import Runs

  type Pid = nat
  type Hid = nat

  /** Who holds a handler's mutex: nobody, or a call that has made its check. */
  datatype Mutex = Free | Starting | Stopping

  datatype Handler = Handler(peer: Pid, timer: bool, cancelled: bool, mu: Mutex, delay: int)

  /** Work that has been spawned or notified and not yet begun. */
  datatype Task =
    | StartIfDisconnected(h: Hid)
    | StopIfConnected(h: Hid)
    | ConnectedNote(p: Pid)
    | DisconnectedNote(p: Pid)

  datatype Phase = Init | Running | Stopped

  datatype Service = Service(
    phase: Phase,
    stopBegun: bool,                // some call of Stop has unregistered the notifee
    notify: bool,                   // the notifee is registered
    stopping: bool,                 // Stop holds the service's mutex, with ...
    unstopped: set<Pid>,            // ... these handlers still to stop
    peers: map<Pid, Hid>,
    protected: set<Pid>)            // by the connection manager

  datatype State = State(
    svc: Service,
    handlers: map<Hid, Handler>,    // every handler ever made
    conns: map<Pid, nat>,           // open connections
    tasks: multiset<Task>)

  ghost predicate InitState(s: State)
  {
    s.svc == Service(Init, false, false, false, {}, map[], {}) && s.handlers == map[] && s.tasks == multiset{}
  }

  function Conns(s: State, p: Pid): (n: nat) { if p in s.conns then s.conns[p] else 0 }

  datatype Action =
    | Start
    | StopBegin                     // StopNotify
    | StopLock                      // take the mutex
    | StopOne(p: Pid)               // stop one handler
    | StopUnlock
    | AddPeer(p: Pid, h: Hid)       // h: the handler made if the peer is new
    | RemovePeer(p: Pid)
    | Connect(p: Pid)
    | Disconnect(p: Pid)
    | DeliverConnected(p: Pid)
    | DeliverDisconnected(p: Pid)
    | StartCheck(h: Hid)            // startIfDisconnected up to its check, then ...
    | StartFinish(h: Hid, next: int)
    | StopCheck(h: Hid)             // stopIfConnected likewise
    | StopFinish(h: Hid)
    | ReconnectFailed(h: Hid, next: int)
    | ReconnectDone(h: Hid)         // the end of reconnect: call stopIfConnected

  /** `next` is a delay that nextBackoff may return. */
  ghost predicate Follows(delay: int, next: int)
  {
    exists grow, jitter :: LegalDraws(delay, grow, jitter) && next == NextDelay(delay, grow, jitter)
  }

  ghost predicate Idle(s: State, h: Hid) { h in s.handlers && s.handlers[h].mu == Free }

  ghost predicate Enabled(s: State, a: Action)
  {
    match a
    case Start => !s.svc.stopping
    case StopBegin => true
    case StopLock => s.svc.stopBegun && !s.svc.stopping
    case StopOne(p) => s.svc.stopping && p in s.svc.unstopped && p in s.svc.peers && Idle(s, s.svc.peers[p])
    case StopUnlock => s.svc.stopping && s.svc.unstopped == {}
    case AddPeer(p, h) => !s.svc.stopping && (p !in s.svc.peers ==> h !in s.handlers)
    case RemovePeer(p) => !s.svc.stopping && (p in s.svc.peers ==> Idle(s, s.svc.peers[p]))
    case Connect(p) => true
    case Disconnect(p) => Conns(s, p) > 0
    case DeliverConnected(p) => !s.svc.stopping && ConnectedNote(p) in s.tasks
    case DeliverDisconnected(p) => !s.svc.stopping && DisconnectedNote(p) in s.tasks
    case StartCheck(h) => Idle(s, h) && StartIfDisconnected(h) in s.tasks
    case StartFinish(h, next) => h in s.handlers && s.handlers[h].mu == Starting && Follows(s.handlers[h].delay, next)
    case StopCheck(h) => Idle(s, h) && StopIfConnected(h) in s.tasks
    case StopFinish(h) => h in s.handlers && s.handlers[h].mu == Stopping
    case ReconnectFailed(h, next) => Idle(s, h) && Follows(s.handlers[h].delay, next)
    case ReconnectDone(h) => h in s.handlers
  }

  ghost function Spawn(s: State, t: Task): (s': State) { s.(tasks := s.tasks + multiset{t}) }
  ghost function Begin(s: State, t: Task): (s': State) { s.(tasks := s.tasks - multiset{t}) }
  ghost function Put(s: State, h: Hid, x: Handler): (s': State) { s.(handlers := s.handlers[h := x]) }

  /** peerHandler.stop. */
  ghost function StoppedHandler(x: Handler): (r: Handler) { x.(cancelled := true, timer := false) }

  ghost function StartTasks(s: State): (r: set<Task>)
  {
    set p | p in s.svc.peers :: StartIfDisconnected(s.svc.peers[p])
  }

  ghost function Do(s: State, a: Action): (s': State)
    requires Enabled(s, a)
  {
    match a
    case Start =>
      if s.svc.phase == Init
      then s.(svc := s.svc.(phase := Running, notify := true), tasks := s.tasks + multiset(StartTasks(s)))
      else s
    case StopBegin => s.(svc := s.svc.(stopBegun := true, notify := false))
    case StopLock =>
      if s.svc.phase == Stopped then s else s.(svc := s.svc.(stopping := true, unstopped := s.svc.peers.Keys))
    case StopOne(p) =>
      var h := s.svc.peers[p];
      Put(s, h, StoppedHandler(s.handlers[h])).(svc := s.svc.(unstopped := s.svc.unstopped - {p}))
    case StopUnlock => s.(svc := s.svc.(stopping := false, phase := Stopped))
    case AddPeer(p, h) =>
      if p in s.svc.peers then s
      else
        var svc := s.svc.(peers := s.svc.peers[p := h], protected := s.svc.protected + {p});
        var t := Put(s, h, Handler(p, false, s.svc.phase == Stopped, Free, INITIAL_DELAY)).(svc := svc);
        if s.svc.phase == Running then Spawn(t, StartIfDisconnected(h)) else t
    case RemovePeer(p) =>
      if p !in s.svc.peers then s
      else
        var h := s.svc.peers[p];
        var svc := s.svc.(peers := s.svc.peers - {p}, protected := s.svc.protected - {p});
        Put(s, h, StoppedHandler(s.handlers[h])).(svc := svc)
    case Connect(p) =>
      var t := s.(conns := s.conns[p := Conns(s, p) + 1]);
      if s.svc.notify then Spawn(t, ConnectedNote(p)) else t
    case Disconnect(p) =>
      var t := s.(conns := s.conns[p := Conns(s, p) - 1]);
      if s.svc.notify then Spawn(t, DisconnectedNote(p)) else t
    case DeliverConnected(p) =>
      var t := Begin(s, ConnectedNote(p));
      if p in s.svc.peers then Spawn(t, StopIfConnected(s.svc.peers[p])) else t
    case DeliverDisconnected(p) =>
      var t := Begin(s, DisconnectedNote(p));
      if p in s.svc.peers then Spawn(t, StartIfDisconnected(s.svc.peers[p])) else t
    case StartCheck(h) =>
      var t, x := Begin(s, StartIfDisconnected(h)), s.handlers[h];
      if !x.timer && Conns(s, x.peer) == 0 then Put(t, h, x.(mu := Starting)) else t
    case StartFinish(h, next) => Put(s, h, s.handlers[h].(mu := Free, timer := true, delay := next))
    case StopCheck(h) =>
      var t, x := Begin(s, StopIfConnected(h)), s.handlers[h];
      if x.timer && Conns(s, x.peer) > 0 then Put(t, h, x.(mu := Stopping)) else t
    case StopFinish(h) =>
      Put(s, h, s.handlers[h].(mu := Free, timer := false, delay := INITIAL_DELAY))
    case ReconnectFailed(h, next) =>
      if s.handlers[h].timer then Put(s, h, s.handlers[h].(delay := next)) else s
    case ReconnectDone(h) => Spawn(s, StopIfConnected(h))
  }

  // ------------------------------------------------------------------ the invariant

  /** A disconnected peer's handler has its timer, or something pending will see to it. */
  ghost predicate WillReconnect(s: State, p: Pid, h: Hid)
    requires h in s.handlers
  {
    Conns(s, p) == 0 ==>
      || StartIfDisconnected(h) in s.tasks
      || DisconnectedNote(p) in s.tasks
      || s.handlers[h].mu == Starting
      || (s.handlers[h].timer && s.handlers[h].mu != Stopping)
  }

  /** A connected peer's handler has no timer, or something pending will remove it. */
  ghost predicate WillRelax(s: State, p: Pid, h: Hid)
    requires h in s.handlers
  {
    Conns(s, p) > 0 && (s.handlers[h].timer || s.handlers[h].mu == Starting) ==>
      || StopIfConnected(h) in s.tasks
      || ConnectedNote(p) in s.tasks
      || s.handlers[h].mu == Stopping
  }

  ghost predicate Registered(s: State, p: Pid)
    requires p in s.svc.peers
  {
    var h := s.svc.peers[p];
    && h in s.handlers && s.handlers[h].peer == p
    && (s.svc.phase == Stopped ==> s.handlers[h].cancelled)
    && (s.svc.stopping && p !in s.svc.unstopped ==> s.handlers[h].cancelled)
    && (s.svc.phase == Init ==> !s.handlers[h].timer && s.handlers[h].mu == Free)
    && (s.svc.phase == Running && !s.svc.stopBegun ==> WillReconnect(s, p, h) && WillRelax(s, p, h))
  }

  /** The parts that are not about one registered peer. */
  ghost predicate ServiceInv(v: Service)
  {
    && v.protected == v.peers.Keys
    && (v.phase == Running && !v.stopBegun ==> v.notify)
    && (v.phase == Init ==> !v.notify)
    && (v.stopping ==> v.stopBegun && v.unstopped <= v.peers.Keys)
  }

  ghost predicate DelaysInv(handlers: map<Hid, Handler>)
  {
    forall h :: h in handlers ==> InRange(handlers[h].delay)
  }

  /** Before the start nothing asks for a reconnect. */
  ghost predicate TasksInv(phase: Phase, tasks: multiset<Task>)
  {
    phase == Init ==> forall t :: t in tasks ==> !t.StartIfDisconnected? && !t.DisconnectedNote?
  }

  ghost predicate Global(s: State)
  {
    ServiceInv(s.svc) && DelaysInv(s.handlers) && TasksInv(s.svc.phase, s.tasks)
  }

  ghost predicate Inv(s: State)
  {
    Global(s) && forall p :: p in s.svc.peers ==> Registered(s, p)
  }

  lemma FollowsInRange(delay: int, next: int)
    requires InRange(delay) && Follows(delay, next)
    ensures InRange(next)
  {
  }

  /** The steps of the service's own calls, and those of a handler. */
  ghost predicate ServiceStep(a: Action)
  {
    a.Start? || a.StopBegin? || a.StopLock? || a.StopOne? || a.StopUnlock? || a.AddPeer? || a.RemovePeer?
  }

  ghost predicate NetworkStep(a: Action)
  {
    a.Connect? || a.Disconnect? || a.DeliverConnected? || a.DeliverDisconnected? || a.ReconnectDone?
  }

  lemma NetworkKeepsHandlers(s: State, a: Action)
    requires Enabled(s, a) && NetworkStep(a)
    ensures Do(s, a).handlers == s.handlers
  {
    if a.Connect? || a.Disconnect? { ConnectionsKeepHandlers(s, a); } else { NotesKeepHandlers(s, a); }
  }

  lemma ConnectionsKeepHandlers(s: State, a: Action)
    requires Enabled(s, a) && (a.Connect? || a.Disconnect?)
    ensures Do(s, a).handlers == s.handlers
  {
  }

  lemma NotesKeepHandlers(s: State, a: Action)
    requires Enabled(s, a) && (a.DeliverConnected? || a.DeliverDisconnected? || a.ReconnectDone?)
    ensures Do(s, a).handlers == s.handlers
  {
  }

  /** A handler's delay after a step: its own, the initial one, or one that follows it. */
  ghost predicate DelayFrom(s: State, h: Hid, next: int)
  {
    next == INITIAL_DELAY
    || (h in s.handlers && (next == s.handlers[h].delay || Follows(s.handlers[h].delay, next)))
  }

  lemma DelayAfterStep(s: State, a: Action, h: Hid)
    requires Enabled(s, a) && h in Do(s, a).handlers
    ensures DelayFrom(s, h, Do(s, a).handlers[h].delay)
  {
    if NetworkStep(a) {
      NetworkKeepsHandlers(s, a);
    } else if ServiceStep(a) {
      DelayAfterService(s, a, h);
    } else {
      DelayAfterHandler(s, a, h);
    }
  }

  lemma DelayAfterService(s: State, a: Action, h: Hid)
    requires Enabled(s, a) && ServiceStep(a) && h in Do(s, a).handlers
    ensures DelayFrom(s, h, Do(s, a).handlers[h].delay)
  {
    if a.AddPeer? || a.RemovePeer? || a.StopOne? {
      DelayAfterPeers(s, a, h);
    } else {
      assert Do(s, a).handlers == s.handlers;
    }
  }

  lemma DelayAfterPeers(s: State, a: Action, h: Hid)
    requires Enabled(s, a) && (a.AddPeer? || a.RemovePeer? || a.StopOne?) && h in Do(s, a).handlers
    ensures DelayFrom(s, h, Do(s, a).handlers[h].delay)
  {
  }

  lemma DelayAfterHandler(s: State, a: Action, h: Hid)
    requires Enabled(s, a) && !ServiceStep(a) && !NetworkStep(a) && h in Do(s, a).handlers
    ensures DelayFrom(s, h, Do(s, a).handlers[h].delay)
  {
    if a.StartCheck? || a.StopCheck? { DelayAfterCheck(s, a, h); } else { DelayAfterFinish(s, a, h); }
  }

  lemma DelayAfterCheck(s: State, a: Action, h: Hid)
    requires Enabled(s, a) && (a.StartCheck? || a.StopCheck?) && h in Do(s, a).handlers
    ensures DelayFrom(s, h, Do(s, a).handlers[h].delay)
  {
  }

  lemma DelayAfterFinish(s: State, a: Action, h: Hid)
    requires Enabled(s, a) && (a.StartFinish? || a.StopFinish? || a.ReconnectFailed?) && h in Do(s, a).handlers
    ensures DelayFrom(s, h, Do(s, a).handlers[h].delay)
  {
  }

  lemma DelaysPreserved(s: State, a: Action)
    requires DelaysInv(s.handlers) && Enabled(s, a)
    ensures DelaysInv(Do(s, a).handlers)
  {
    forall h | h in Do(s, a).handlers ensures InRange(Do(s, a).handlers[h].delay) {
      DelayAfterStep(s, a, h);
      var next := Do(s, a).handlers[h].delay;
      if h in s.handlers && Follows(s.handlers[h].delay, next) { FollowsInRange(s.handlers[h].delay, next); }
    }
  }

  lemma ServicePreserved(s: State, a: Action)
    requires ServiceInv(s.svc) && Enabled(s, a)
    ensures ServiceInv(Do(s, a).svc)
  {
  }

  lemma TasksPreserved(s: State, a: Action)
    requires Global(s) && Enabled(s, a)
    ensures TasksInv(Do(s, a).svc.phase, Do(s, a).tasks)
  {
  }

  /** What one registered peer's part of the invariant looks at. */
  ghost predicate Untouched(s: State, s': State, p: Pid)
    requires p in s.svc.peers
  {
    var h := s.svc.peers[p];
    && p in s'.svc.peers && s'.svc.peers[p] == h
    && h in s.handlers && h in s'.handlers && s'.handlers[h] == s.handlers[h]
    && Conns(s', p) == Conns(s, p)
    && (StartIfDisconnected(h) in s.tasks ==> StartIfDisconnected(h) in s'.tasks)
    && (StopIfConnected(h) in s.tasks ==> StopIfConnected(h) in s'.tasks)
    && (ConnectedNote(p) in s.tasks ==> ConnectedNote(p) in s'.tasks)
    && (DisconnectedNote(p) in s.tasks ==> DisconnectedNote(p) in s'.tasks)
  }

  lemma Frame(s: State, s': State, p: Pid)
    requires p in s.svc.peers && Registered(s, p) && Untouched(s, s', p)
    requires s'.svc.phase == s.svc.phase && s'.svc.stopBegun == s.svc.stopBegun && s'.svc.stopping == s.svc.stopping
    requires p in s'.svc.unstopped <==> p in s.svc.unstopped
    ensures Registered(s', p)
  {
  }

  lemma StartKeeps(s: State, p: Pid)
    requires Global(s) && Enabled(s, Start) && p in s.svc.peers && Registered(s, p)
    ensures Registered(Do(s, Start), p)
  {
    if s.svc.phase == Init { assert StartIfDisconnected(s.svc.peers[p]) in StartTasks(s); }
  }

  lemma StopLockKeeps(s: State, p: Pid)
    requires Global(s) && Enabled(s, StopLock) && p in s.svc.peers && Registered(s, p)
    ensures Registered(Do(s, StopLock), p)
  {
  }

  lemma StopUnlockKeeps(s: State, p: Pid)
    requires Global(s) && Enabled(s, StopUnlock) && p in s.svc.peers && Registered(s, p)
    ensures Registered(Do(s, StopUnlock), p)
  {
  }

  lemma AddKeeps(s: State, q: Pid, h: Hid, p: Pid)
    requires Global(s) && Enabled(s, AddPeer(q, h)) && p in s.svc.peers && Registered(s, p)
    ensures Registered(Do(s, AddPeer(q, h)), p)
  {
    Frame(s, Do(s, AddPeer(q, h)), p);
  }

  lemma AddMakes(s: State, p: Pid, h: Hid)
    requires Global(s) && Enabled(s, AddPeer(p, h)) && p !in s.svc.peers
    ensures Registered(Do(s, AddPeer(p, h)), p)
  {
  }

  lemma RemoveKeeps(s: State, q: Pid, p: Pid)
    requires Global(s) && Enabled(s, RemovePeer(q)) && p in s.svc.peers && Registered(s, p) && p != q
    requires q in s.svc.peers ==> Registered(s, q)
    ensures Registered(Do(s, RemovePeer(q)), p)
  {
    Frame(s, Do(s, RemovePeer(q)), p);
  }

  lemma StopOneKeeps(s: State, q: Pid, p: Pid)
    requires Global(s) && Enabled(s, StopOne(q)) && p in s.svc.peers && Registered(s, p) && Registered(s, q)
    ensures Registered(Do(s, StopOne(q)), p)
  {
    if p != q { Frame(s, Do(s, StopOne(q)), p); }
  }

  lemma ConnectKeeps(s: State, q: Pid, p: Pid)
    requires Global(s) && Enabled(s, Connect(q)) && p in s.svc.peers && Registered(s, p)
    ensures Registered(Do(s, Connect(q)), p)
  {
    if p != q { Frame(s, Do(s, Connect(q)), p); }
  }

  lemma DisconnectKeeps(s: State, q: Pid, p: Pid)
    requires Global(s) && Enabled(s, Disconnect(q)) && p in s.svc.peers && Registered(s, p)
    ensures Registered(Do(s, Disconnect(q)), p)
  {
    if p != q { Frame(s, Do(s, Disconnect(q)), p); }
  }

  lemma DeliverConnectedKeeps(s: State, q: Pid, p: Pid)
    requires Global(s) && Enabled(s, DeliverConnected(q)) && p in s.svc.peers && Registered(s, p)
    ensures Registered(Do(s, DeliverConnected(q)), p)
  {
    if p != q { Frame(s, Do(s, DeliverConnected(q)), p); }
  }

  lemma DeliverDisconnectedKeeps(s: State, q: Pid, p: Pid)
    requires Global(s) && Enabled(s, DeliverDisconnected(q)) && p in s.svc.peers && Registered(s, p)
    ensures Registered(Do(s, DeliverDisconnected(q)), p)
  {
    if p != q { Frame(s, Do(s, DeliverDisconnected(q)), p); }
  }

  lemma StartCheckKeeps(s: State, h: Hid, p: Pid)
    requires Global(s) && Enabled(s, StartCheck(h)) && p in s.svc.peers && Registered(s, p)
    ensures Registered(Do(s, StartCheck(h)), p)
  {
    if s.svc.peers[p] != h { Frame(s, Do(s, StartCheck(h)), p); }
  }

  lemma StopCheckKeeps(s: State, h: Hid, p: Pid)
    requires Global(s) && Enabled(s, StopCheck(h)) && p in s.svc.peers && Registered(s, p)
    ensures Registered(Do(s, StopCheck(h)), p)
  {
    if s.svc.peers[p] != h { Frame(s, Do(s, StopCheck(h)), p); } else { StopCheckOwn(s, h, p); }
  }

  lemma StopCheckOwn(s: State, h: Hid, p: Pid)
    requires Enabled(s, StopCheck(h)) && p in s.svc.peers && s.svc.peers[p] == h && Registered(s, p)
    ensures Registered(Do(s, StopCheck(h)), p)
  {
    var s' := Do(s, StopCheck(h));
    assert s'.svc == s.svc && s'.conns == s.conns && s'.tasks == s.tasks - multiset{StopIfConnected(h)};
    assert s'.handlers[h] == s.handlers[h] || s'.handlers[h] == s.handlers[h].(mu := Stopping);
  }

  lemma StopFinishKeeps(s: State, h: Hid, p: Pid)
    requires Global(s) && Enabled(s, StopFinish(h)) && p in s.svc.peers && Registered(s, p)
    ensures Registered(Do(s, StopFinish(h)), p)
  {
    if s.svc.peers[p] != h { Frame(s, Do(s, StopFinish(h)), p); }
  }

  lemma ReconnectDoneKeeps(s: State, h: Hid, p: Pid)
    requires Global(s) && Enabled(s, ReconnectDone(h)) && p in s.svc.peers && Registered(s, p)
    ensures Registered(Do(s, ReconnectDone(h)), p)
  {
    if s.svc.peers[p] != h { Frame(s, Do(s, ReconnectDone(h)), p); }
  }

  lemma StartFinishKeeps(s: State, h: Hid, next: int, p: Pid)
    requires Global(s) && Enabled(s, StartFinish(h, next)) && p in s.svc.peers && Registered(s, p)
    ensures Registered(Do(s, StartFinish(h, next)), p)
  {
    if s.svc.peers[p] != h { Frame(s, Do(s, StartFinish(h, next)), p); }
  }

  lemma ReconnectFailedKeeps(s: State, h: Hid, next: int, p: Pid)
    requires Global(s) && Enabled(s, ReconnectFailed(h, next)) && p in s.svc.peers && Registered(s, p)
    ensures Registered(Do(s, ReconnectFailed(h, next)), p)
  {
    if s.svc.peers[p] != h { Frame(s, Do(s, ReconnectFailed(h, next)), p); }
  }

  lemma RegisteredPreserved(s: State, a: Action, p: Pid)
    requires Inv(s) && Enabled(s, a) && p in s.svc.peers && a != RemovePeer(p)
    ensures Registered(Do(s, a), p)
  {
    assert Registered(s, p);
    match a
    case Start => StartKeeps(s, p);
    case StopBegin =>
    case StopLock => StopLockKeeps(s, p);
    case StopUnlock => StopUnlockKeeps(s, p);
    case AddPeer(q, h) => AddKeeps(s, q, h, p);
    case RemovePeer(q) => RemoveKeeps(s, q, p);
    case StopOne(q) => StopOneKeeps(s, q, p);
    case Connect(q) => ConnectKeeps(s, q, p);
    case Disconnect(q) => DisconnectKeeps(s, q, p);
    case DeliverConnected(q) => DeliverConnectedKeeps(s, q, p);
    case DeliverDisconnected(q) => DeliverDisconnectedKeeps(s, q, p);
    case StartCheck(h) => StartCheckKeeps(s, h, p);
    case StopCheck(h) => StopCheckKeeps(s, h, p);
    case StartFinish(h, next) => StartFinishKeeps(s, h, next, p);
    case ReconnectFailed(h, next) => ReconnectFailedKeeps(s, h, next, p);
    case StopFinish(h) => StopFinishKeeps(s, h, p);
    case ReconnectDone(h) => ReconnectDoneKeeps(s, h, p);
  }

  lemma PeersOf(s: State, a: Action, p: Pid)
    requires Enabled(s, a) && p in Do(s, a).svc.peers
    ensures (p in s.svc.peers && a != RemovePeer(p)) || (p !in s.svc.peers && a.AddPeer? && a.p == p)
  {
  }

  lemma Preserved(s: State, a: Action)
    requires Inv(s) && Enabled(s, a)
    ensures Inv(Do(s, a))
  {
    assert Global(Do(s, a)) by { ServicePreserved(s, a); DelaysPreserved(s, a); TasksPreserved(s, a); }
    forall p | p in Do(s, a).svc.peers ensures Registered(Do(s, a), p) {
      PeersOf(s, a, p);
      if p in s.svc.peers { RegisteredPreserved(s, a, p); } else { AddMakes(s, p, a.h); }
    }
  }

  // ------------------------------------------------------------------ over every run

  ghost predicate Next(s: State, a: Action, s': State) { Enabled(s, a) && s' == Do(s, a) }

  ghost predicate Run(ss: seq<State>, acts: seq<Action>)
  {
    Runs.Steps(Next, ss, acts) && InitState(ss[0])
  }

  ghost predicate Reachable(s: State) { exists ss, acts :: Run(ss, acts) && ss[|acts|] == s }

  lemma {:induction false} RunInv(ss: seq<State>, acts: seq<Action>, i: nat)
    requires Run(ss, acts) && i < |ss|
    ensures Inv(ss[i])
  {
    if i > 0 {
      RunInv(ss, acts, i - 1);
      Preserved(ss[i - 1], acts[i - 1]);
    }
  }

  lemma ReachableInv(s: State)
    requires Reachable(s)
    ensures Inv(s)
  {
    var ss, acts :| Run(ss, acts) && ss[|acts|] == s;
    RunInv(ss, acts, |acts|);
  }

  lemma ReachableStep(s: State, a: Action)
    requires Reachable(s) && Enabled(s, a)
    ensures Reachable(Do(s, a))
  {
    var ss, acts :| Run(ss, acts) && ss[|acts|] == s;
    Runs.Append(Next, ss, acts, a, Do(s, a));
    assert Run(ss + [Do(s, a)], acts + [a]);
  }

  /** While the service runs and no Stop has begun, no registered peer is forgotten: a
      disconnected one has its timer or pending work that will look at it.  The protected
      peers are always the registered ones, every delay is legal, and once stopped every
      registered handler is cancelled. */
  lemma NeverForgotten(s: State, p: Pid)
    requires Reachable(s)
    ensures s.svc.protected == s.svc.peers.Keys
    ensures forall h :: h in s.handlers ==> InRange(s.handlers[h].delay)
    ensures p in s.svc.peers ==>
              var h := s.svc.peers[p];
              && h in s.handlers && s.handlers[h].peer == p
              && (s.svc.phase == Stopped ==> s.handlers[h].cancelled)
              && (s.svc.phase == Running && !s.svc.stopBegun && Conns(s, p) == 0 ==>
                    s.handlers[h].timer || s.handlers[h].mu == Starting
                    || StartIfDisconnected(h) in s.tasks || DisconnectedNote(p) in s.tasks)
  {
    ReachableInv(s);
    if p in s.svc.peers { assert Registered(s, p); }
  }

  /** Nothing pending for the peer, and its handler's mutex free. */
  ghost predicate Quiet(s: State, p: Pid, h: Hid)
    requires h in s.handlers
  {
    && s.handlers[h].mu == Free
    && StartIfDisconnected(h) !in s.tasks && StopIfConnected(h) !in s.tasks
    && ConnectedNote(p) !in s.tasks && DisconnectedNote(p) !in s.tasks
  }

  /** So whenever the dust settles, the timer is there exactly for the disconnected. */
  lemma TimerIffDisconnected(s: State, p: Pid)
    requires Reachable(s) && p in s.svc.peers && s.svc.phase == Running && !s.svc.stopBegun
    ensures var h := s.svc.peers[p];
            h in s.handlers && (Quiet(s, p, h) ==> (s.handlers[h].timer <==> Conns(s, p) == 0))
  {
    ReachableInv(s);
    assert Registered(s, p);
  }

  // ------------------------------------------------------------------ removed handlers

  ghost predicate IsRegistered(s: State, h: Hid) { exists p :: p in s.svc.peers && s.svc.peers[p] == h }

  /** A handler that is out of service for good: unregistered, with no timer and nothing
      that could set one. */
  ghost predicate Retired(s: State, h: Hid)
  {
    && h in s.handlers && !IsRegistered(s, h)
    && !s.handlers[h].timer && s.handlers[h].mu != Starting && StartIfDisconnected(h) !in s.tasks
  }

  lemma RetiredTasks(s: State, a: Action, h: Hid)
    requires Enabled(s, a) && Retired(s, h)
    ensures StartIfDisconnected(h) !in Do(s, a).tasks
  {
    match a
    case Start => assert StartIfDisconnected(h) !in StartTasks(s);
    case DeliverDisconnected(p) => assert p in s.svc.peers ==> s.svc.peers[p] != h;
    case _ =>
  }

  lemma RetiredHandler(s: State, a: Action, h: Hid)
    requires Enabled(s, a) && Retired(s, h)
    ensures h in Do(s, a).handlers && !Do(s, a).handlers[h].timer && Do(s, a).handlers[h].mu != Starting
  {
    if NetworkStep(a) { NetworkKeepsHandlers(s, a); }
  }

  lemma RetiredUnregistered(s: State, a: Action, h: Hid)
    requires Enabled(s, a) && h in s.handlers && !IsRegistered(s, h)
    ensures !IsRegistered(Do(s, a), h)
  {
  }

  /** Without a pending start, a removed handler stays retired through every step. */
  lemma RetiredStays(s: State, a: Action, h: Hid)
    requires Enabled(s, a) && Retired(s, h)
    ensures Retired(Do(s, a), h)
  {
    RetiredTasks(s, a, h);
    RetiredHandler(s, a, h);
    RetiredUnregistered(s, a, h);
  }

  /** RemovePeer retires its handler when no startIfDisconnected is pending for it. */
  lemma RemoveRetires(s: State, p: Pid)
    requires Inv(s) && p in s.svc.peers && Enabled(s, RemovePeer(p))
    ensures var h := s.svc.peers[p];
            Retired(Do(s, RemovePeer(p)), h) <==> StartIfDisconnected(h) !in s.tasks
  {
    var s', h := Do(s, RemovePeer(p)), s.svc.peers[p];
    forall q | q in s'.svc.peers ensures s'.svc.peers[q] != h {
      assert Registered(s, q) && Registered(s, p);
    }
  }

  /** A pending check arms the timer of a handler, removed or not, when it runs while the
      peer is disconnected. */
  lemma PendingStartRearms(s: State, h: Hid, next: int)
    requires Enabled(s, StartCheck(h)) && !s.handlers[h].timer && Conns(s, s.handlers[h].peer) == 0
    requires Follows(s.handlers[h].delay, next)
    ensures var t := Do(s, StartCheck(h));
            Enabled(t, StartFinish(h, next)) && Do(t, StartFinish(h, next)).handlers[h].timer
            && Do(t, StartFinish(h, next)).handlers[h].cancelled == s.handlers[h].cancelled
            && Do(t, StartFinish(h, next)).svc == s.svc
  {
  }

  /** A run that goes on from a state. */
  ghost predicate RunsFrom(s: State, ss: seq<State>, acts: seq<Action>)
  {
    Runs.Steps(Next, ss, acts) && ss[0] == s
  }

  ghost predicate Armed(s: State, h: Hid) { h in s.handlers && s.handlers[h].timer }

  /** Some run from here leads to the handler's timer being set. */
  ghost predicate MayArm(s: State, h: Hid)
  {
    exists ss, acts :: RunsFrom(s, ss, acts) && Armed(ss[|acts|], h)
  }

  lemma {:induction false} RetiredForGood(s: State, ss: seq<State>, acts: seq<Action>, h: Hid, i: nat)
    requires RunsFrom(s, ss, acts) && Retired(s, h) && i < |ss|
    ensures Retired(ss[i], h)
  {
    if i > 0 {
      RetiredForGood(s, ss, acts, h, i - 1);
      RetiredStays(ss[i - 1], acts[i - 1], h);
    }
  }

  lemma ArmLater(s: State, a: Action, h: Hid)
    requires Enabled(s, a) && MayArm(Do(s, a), h)
    ensures MayArm(s, h)
  {
    var ss, acts :| RunsFrom(Do(s, a), ss, acts) && Armed(ss[|acts|], h);
    Runs.Prepend(Next, s, a, ss, acts);
    assert RunsFrom(s, [s] + ss, [a] + acts);
  }

  lemma ArmNow(s: State, h: Hid)
    requires Armed(s, h)
    ensures MayArm(s, h)
  {
    var none: seq<Action> := [];
    assert RunsFrom(s, [s], none) && [s][|none|] == s;
  }

  /** A pending start can always arm the timer: let the peer's connections go first. */
  lemma {:induction false} PendingStartMayArm(s: State, h: Hid)
    requires Idle(s, h) && StartIfDisconnected(h) in s.tasks && InRange(s.handlers[h].delay)
    ensures MayArm(s, h)
    decreases Conns(s, s.handlers[h].peer)
  {
    var x := s.handlers[h];
    if x.timer {
      ArmNow(s, h);
    } else if Conns(s, x.peer) > 0 {
      PendingStartMayArm(Do(s, Disconnect(x.peer)), h);
      ArmLater(s, Disconnect(x.peer), h);
    } else {
      var next := NextDelay(x.delay, 0, 0);
      assert Follows(x.delay, next) by { assert LegalDraws(x.delay, 0, 0); }
      PendingStartRearms(s, h, next);
      var t := Do(s, StartCheck(h));
      ArmNow(Do(t, StartFinish(h, next)), h);
      ArmLater(t, StartFinish(h, next), h);
      ArmLater(s, StartCheck(h), h);
    }
  }

  /** Removal is final, over every run that follows, iff no startIfDisconnected was pending
      for the handler. */
  lemma RemovalIsFinal(s: State, p: Pid)
    requires Inv(s) && p in s.svc.peers && Enabled(s, RemovePeer(p))
    ensures var h := s.svc.peers[p];
            MayArm(Do(s, RemovePeer(p)), h) <==> StartIfDisconnected(h) in s.tasks
  {
    var s', h := Do(s, RemovePeer(p)), s.svc.peers[p];
    if StartIfDisconnected(h) in s.tasks {
      PendingStartMayArm(s', h);
    } else {
      RemoveRetires(s, p);
      if MayArm(s', h) {
        var ss, acts :| RunsFrom(s', ss, acts) && Armed(ss[|acts|], h);
        RetiredForGood(s', ss, acts, h, |acts|);
      }
    }
  }

  /** A service that runs, with no peers yet. */
  ghost function Fresh(): (s: State)
  {
    State(Service(Running, false, true, false, {}, map[], {}), map[], map[], multiset{})
  }

  lemma FreshReachable()
    ensures Reachable(Fresh())
  {
    var s := State(Service(Init, false, false, false, {}, map[], {}), map[], map[], multiset{});
    var none: seq<Action> := [];
    assert Run([s], none) && [s][|none|] == s;
    ReachableStep(s, Start);
    assert StartTasks(s) == {};
    assert Do(s, Start) == Fresh();
  }

  /** A peer added and removed again before the spawned check has run. */
  ghost function Removed(): (s: State)
  {
    Fresh().(handlers := map[0 := Handler(0, false, true, Free, INITIAL_DELAY)],
             tasks := multiset{StartIfDisconnected(0)})
  }

  lemma RemovedReachable()
    ensures Reachable(Removed())
  {
    FreshReachable();
    var x := Handler(0, false, false, Free, INITIAL_DELAY);
    var s := Fresh().(svc := Fresh().svc.(peers := map[0 := 0], protected := {0}),
                      handlers := map[0 := x], tasks := multiset{StartIfDisconnected(0)});
    assert Do(Fresh(), AddPeer(0, 0)) == s;
    ReachableStep(Fresh(), AddPeer(0, 0));
    assert Do(s, RemovePeer(0)) == Removed() by {
      assert map[0 := 0] - {0} == map[];
      assert (map[0 := x])[0 := StoppedHandler(x)] == map[0 := StoppedHandler(x)];
    }
    ReachableStep(s, RemovePeer(0));
  }

  /** Its handler does arm its timer. */
  lemma RemovedHandlerRearms()
    ensures exists s: State, h: Hid ::
              Reachable(s) && h in s.handlers && !IsRegistered(s, h) && s.handlers[h].timer && s.handlers[h].cancelled
  {
    RemovedReachable();
    var s3 := Removed();
    var next := NextDelay(INITIAL_DELAY, 0, 0);
    assert Follows(INITIAL_DELAY, next) by { assert LegalDraws(INITIAL_DELAY, 0, 0); }
    PendingStartRearms(s3, 0, next);
    var s4 := Do(s3, StartCheck(0));
    ReachableStep(s3, StartCheck(0));
    ReachableStep(s4, StartFinish(0, next));
    var s5 := Do(s4, StartFinish(0, next));
    assert Reachable(s5) && 0 in s5.handlers && !IsRegistered(s5, 0);
  }

  // ------------------------------------------------------------------ stopping

  /** Once stopped the service stays stopped: no start, no peer added and no peer removed
      brings it back. */
  lemma StoppedStays(s: State, a: Action)
    requires Enabled(s, a) && s.svc.phase == Stopped
    ensures Do(s, a).svc.phase == Stopped
  {
  }

  /** A stop leaves the service stopped, with all its handlers cancelled. */
  lemma StopCompletes(s: State)
    requires Reachable(s) && Enabled(s, StopUnlock)
    ensures var s' := Do(s, StopUnlock);
            && s'.svc.phase == Stopped && !s'.svc.stopping
            && forall p :: p in s'.svc.peers ==>
                 s'.svc.peers[p] in s'.handlers && s'.handlers[s'.svc.peers[p]].cancelled
  {
    var s' := Do(s, StopUnlock);
    ReachableStep(s, StopUnlock);
    ReachableInv(s');
    forall p | p in s'.svc.peers ensures s'.svc.peers[p] in s'.handlers && s'.handlers[s'.svc.peers[p]].cancelled {
      assert Registered(s', p);
    }
  }

  /** Stopping a handler takes its timer, and cancels it. */
  lemma StopOneStops(s: State, p: Pid)
    requires Enabled(s, StopOne(p))
    ensures var x := Do(s, StopOne(p)).handlers[s.svc.peers[p]];
            x.cancelled && !x.timer && p !in Do(s, StopOne(p)).svc.unstopped
  {
  }

  /** A stop goes over all the peers there are. */
  lemma StopTakesAll(s: State)
    requires Enabled(s, StopLock) && s.svc.phase != Stopped
    ensures Do(s, StopLock).svc.stopping && Do(s, StopLock).svc.unstopped == s.svc.peers.Keys
  {
  }

  /** The pending notes of a peer's connections. */
  ghost predicate Noted(s: State, p: Pid) { ConnectedNote(p) in s.tasks || DisconnectedNote(p) in s.tasks }

  lemma QuietStep(s: State, a: Action, p: Pid)
    requires Enabled(s, a) && !s.svc.notify && a != Start
    ensures !Do(s, a).svc.notify && (Noted(Do(s, a), p) ==> Noted(s, p))
  {
    if a.StopOne? || a.AddPeer? || a.RemovePeer? {
      QuietPeers(s, a, p);
    } else if a.DeliverConnected? || a.DeliverDisconnected? {
      QuietDeliveries(s, a, p);
    } else if a.StartCheck? || a.StopCheck? || a.ReconnectDone? {
      QuietChecks(s, a, p);
    }
  }

  lemma QuietDeliveries(s: State, a: Action, p: Pid)
    requires Enabled(s, a) && !s.svc.notify && (a.DeliverConnected? || a.DeliverDisconnected?)
    ensures !Do(s, a).svc.notify && (Noted(Do(s, a), p) ==> Noted(s, p))
  {
  }

  lemma QuietChecks(s: State, a: Action, p: Pid)
    requires Enabled(s, a) && !s.svc.notify && (a.StartCheck? || a.StopCheck? || a.ReconnectDone?)
    ensures !Do(s, a).svc.notify && (Noted(Do(s, a), p) ==> Noted(s, p))
  {
  }

  lemma QuietPeers(s: State, a: Action, p: Pid)
    requires Enabled(s, a) && !s.svc.notify && (a.StopOne? || a.AddPeer? || a.RemovePeer?)
    ensures !Do(s, a).svc.notify && (Noted(Do(s, a), p) ==> Noted(s, p))
  {
  }

  /** Over every run, from when a stop has begun until a start, a connection that comes or goes
      asks for nothing. */
  lemma {:induction false} QuietAfterStop(ss: seq<State>, acts: seq<Action>, p: Pid, i: nat, j: nat)
    requires Run(ss, acts) && i <= j < |ss| && !ss[i].svc.notify && forall k :: i <= k < j ==> acts[k] != Start
    ensures !ss[j].svc.notify && (Noted(ss[j], p) ==> Noted(ss[i], p))
    decreases j
  {
    if i < j {
      QuietAfterStop(ss, acts, p, i, j - 1);
      QuietStep(ss[j - 1], acts[j - 1], p);
    }
  }

  lemma StopBegins(s: State)
    ensures !Do(s, StopBegin).svc.notify && Do(s, StopBegin).svc.stopBegun
  {
  }

  /** A handler's own reconnect clears its timer once the peer is connected, notifee or not,
      registered or not. */
  lemma ReconnectRelaxes(s: State, h: Hid)
    requires Idle(s, h) && s.handlers[h].timer && Conns(s, s.handlers[h].peer) > 0
    ensures Enabled(s, ReconnectDone(h))
    ensures var s1 := Do(s, ReconnectDone(h));
            Enabled(s1, StopCheck(h)) &&
            var s2 := Do(s1, StopCheck(h));
            Enabled(s2, StopFinish(h)) &&
            var x := Do(s2, StopFinish(h)).handlers[h];
            !x.timer && x.delay == INITIAL_DELAY && x.mu == Free
  {
  }

  /** A service that starts looks at all its peers, and is told of what happens to them. */
  lemma StartLooks(s: State, p: Pid)
    requires Enabled(s, Start) && s.svc.phase == Init && p in s.svc.peers
    ensures Do(s, Start).svc.phase == Running && Do(s, Start).svc.notify
    ensures StartIfDisconnected(s.svc.peers[p]) in Do(s, Start).tasks
  {
    assert StartIfDisconnected(s.svc.peers[p]) in StartTasks(s);
  }

  /** Adding a peer again changes nothing, and removing one that is not there neither. */
  lemma PeersIdempotent(s: State, p: Pid, h: Hid)
    requires Enabled(s, AddPeer(p, h)) && Enabled(s, RemovePeer(p))
    ensures p in s.svc.peers ==> Do(s, AddPeer(p, h)) == s
    ensures p !in s.svc.peers ==> Do(s, RemovePeer(p)) == s
    ensures p in Do(s, AddPeer(p, h)).svc.peers && p !in Do(s, RemovePeer(p)).svc.peers
  {
  }
}
