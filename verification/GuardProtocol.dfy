/**
 * The protocol between a container object on the host
 * (libs/lxcpp/container-impl.cpp) and its guard process
 * (libs/lxcpp/guard/guard.cpp), over one FIFO channel each way.
 */
module GuardProtocol {
  import opened Options

  datatype State = STOPPED | STOPPING | STARTING | RUNNING | CONNECTING

  /** The part of ContainerConfig the protocol reads and writes. */
  datatype Config = Config(state: State, initPid: int)

  /** Calls made by the host. */
  datatype ToGuard = SetConfig(cfg: Config) | Start | Stop

  /** Calls made by the guard, and its replies to the host's calls. */
  datatype ToHost =
    | GuardReady
    | GuardConnected(cfg: Config)
    | ConfigSet(ok: bool)
    | Started(pid: int)
    | StartFailed
    | StopDone
    | InitStopped(status: int)

  /** How Guard::onStart ends: clone(2) either throws or gives a pid, and what follows it may throw too. */
  datatype Launch = Cloned(pid: int) | NotCloned | Abandoned(pid: int)

  // ---------------------------------------------------------------- the two sides

  datatype Host = Host(cfg: Config, exitStatus: int) {

    /** start(): refused unless STOPPED; the result says whether a guard is to be spawned. */
    function Start(configOk: bool): (Host, bool) {
      if cfg.state != STOPPED then (this, false)
      else (this.(cfg := cfg.(state := STARTING)), configOk)
    }

    /** stop(): refused unless RUNNING. */
    function Stop(): (Host, seq<ToGuard>) {
      if cfg.state != RUNNING then (this, []) else (this.(cfg := cfg.(state := STOPPING)), [ToGuard.Stop])
    }

    function OnMessage(m: ToHost): (Host, seq<ToGuard>) {
      match m
      case GuardReady => (this, [SetConfig(cfg), ToGuard.Start])
      case GuardConnected(c) => (this.(cfg := c), [])
      case Started(pid) =>
        (this.(cfg := Config(if pid <= 0 then cfg.state else RUNNING, pid)), [])
      case InitStopped(status) => (Host(cfg.(state := STOPPED), status), [])
      case ConfigSet(_) => (this, [])
      case StartFailed => (this, [])
      case StopDone => (this, [])
    }
  }

  /** `faulted` records a handler that dereferenced a config nobody had set. */
  datatype Guard = Guard(serving: bool, connected: bool, config: Option<Config>, initAlive: bool, faulted: bool) {

    function OnConnection(): (Guard, seq<ToHost>) {
      (this.(connected := true), [if config.None? then GuardReady else GuardConnected(config.value)])
    }

    /** `setOk` is false if UID 0 is not mapped or the logger cannot be set up; the config is kept all the same. */
    function OnMessage(m: ToGuard, setOk: bool, launch: Launch): (Guard, seq<ToHost>) {
      match m
      case SetConfig(c) => (this.(config := Some(c)), [ConfigSet(setOk)])
      case Start =>
        if config.None? then (this.(faulted := true), [])
        else (match launch
              case Cloned(pid) => (this.(config := Some(Config(RUNNING, pid)), initAlive := true), [Started(pid)])
              case NotCloned => (this.(config := Some(config.value.(state := STARTING))), [StartFailed])
              case Abandoned(pid) => (this.(config := Some(Config(STARTING, pid)), initAlive := true), [StartFailed]))
      case Stop =>
        if config.None? then (this.(faulted := true), [])
        else (this.(config := Some(config.value.(state := STOPPING))), [StopDone])
    }

    /** SIGCHLD of init: the notice goes to the peer, if there is one, and the service stops. */
    function OnInitExit(status: int): (Guard, seq<ToHost>) {
      if config.None? then (this.(faulted := true), [])
      else
        (this.(config := Some(config.value.(state := STOPPED)), initAlive := false, serving := false),
         if connected then [InitStopped(status)] else [])
    }
  }

  const FRESH_GUARD := Guard(true, false, None, false, false)

  // ---------------------------------------------------------------- interleavings

  datatype System = System(host: Host, guard: Option<Guard>, toGuard: seq<ToGuard>, toHost: seq<ToHost>)

  /** One step of one side: a user call, a delivery, a connection, a signal. */
  datatype Event =
    | HostStart(configOk: bool)
    | HostStop
    | Connect
    | DeliverToGuard(setOk: bool, launch: Launch)
    | DeliverToHost
    | InitExit(status: int)

  predicate Serving(s: System) {
    s.guard.Some? && s.guard.value.serving
  }

  predicate Enabled(s: System, e: Event) {
    match e
    case HostStart(_) => true
    case HostStop => true
    case Connect => Serving(s) && !s.guard.value.connected
    case DeliverToGuard(_, launch) =>
      Serving(s) && s.toGuard != [] && (launch.NotCloned? || launch.pid > 0)
    case DeliverToHost => s.toHost != []
    case InitExit(_) => Serving(s) && s.guard.value.initAlive
  }

  function Step(s: System, e: Event): System
    requires Enabled(s, e)
  {
    match e
    case HostStart(ok) =>
      var (h, spawn) := s.host.Start(ok);
      if h == s.host then s
      else System(h, if spawn then Some(FRESH_GUARD) else None, [], [])
    case HostStop =>
      var (h, sent) := s.host.Stop();
      s.(host := h, toGuard := s.toGuard + sent)
    case Connect =>
      var (g, sent) := s.guard.value.OnConnection();
      s.(guard := Some(g), toHost := s.toHost + sent)
    case DeliverToGuard(setOk, launch) =>
      var (g, sent) := s.guard.value.OnMessage(s.toGuard[0], setOk, launch);
      s.(guard := Some(g), toGuard := s.toGuard[1..], toHost := s.toHost + sent)
    case DeliverToHost =>
      var (h, sent) := s.host.OnMessage(s.toHost[0]);
      s.(host := h, toHost := s.toHost[1..], toGuard := s.toGuard + sent)
    case InitExit(status) =>
      var (g, sent) := s.guard.value.OnInitExit(status);
      s.(guard := Some(g), toHost := s.toHost + sent)
  }

  /** A new host object: alone, or connecting to the guard an earlier one left with a live init. */
  predicate Initial(s: System) {
    && s.toGuard == [] && s.toHost == []
    && (|| (s.guard.None? && s.host.cfg.state == STOPPED)
        || Adopting(s))
  }

  predicate Adopting(s: System) {
    && Serving(s) && s.host.cfg.state == CONNECTING && s.toGuard == [] && s.toHost == []
    && !s.guard.value.connected && s.guard.value.initAlive && !s.guard.value.faulted
    && s.guard.value.config.Some? && LiveConfig(s.guard.value.config.value)
  }

  predicate LiveConfig(c: Config) {
    c.initPid > 0 && (c.state == RUNNING || c.state == STOPPING)
  }

  /** A run takes enabled steps. */
  predicate Run(s: System, es: seq<Event>)
    decreases es
  {
    es == [] || (Enabled(s, es[0]) && Run(Step(s, es[0]), es[1..]))
  }

  function After(s: System, es: seq<Event>): System
    requires Run(s, es)
    decreases es
  {
    if es == [] then s else After(Step(s, es[0]), es[1..])
  }

  // ---------------------------------------------------------------- the invariant, by stage

  /** No guard is serving and nothing is on its way to the host. */
  predicate Quiet(s: System) {
    && !Serving(s) && s.toHost == [] && s.host.cfg.state != RUNNING && s.host.cfg.state != STOPPING
    && (s.guard.Some? ==> (s.host.cfg.state == STOPPED <==> s.guard.value.connected))
  }

  /** From the spawn to the delivery of START. */
  predicate Preparing(s: System) {
    && Serving(s) && s.host.cfg.state == STARTING && !s.guard.value.initAlive
    && var g := s.guard.value;
       if g.config.Some? then
         g.connected && s.toGuard == [ToGuard.Start] && forall m :: m in s.toHost ==> m.ConfigSet?
       else if !g.connected then s.toGuard == [] && s.toHost == []
       else || (s.toHost == [GuardReady] && s.toGuard == [])
            || (s.toHost == [] && |s.toGuard| == 2 && s.toGuard[0].SetConfig? && s.toGuard[1].Start?)
  }

  predicate Activates(m: ToHost) {
    m.Started? || m.StartFailed? || m.GuardConnected?
  }

  /** After START was handled, or a running guard was found: what may still be on its way to the host. */
  predicate Live(s: System) {
    && s.guard.Some? && s.guard.value.connected && s.guard.value.config.Some? && s.host.cfg.state != STOPPED
    && (forall m :: m in s.toGuard ==> m.Stop?)
    && var q, pid := s.toHost, s.guard.value.config.value.initPid;
       && (forall i :: 0 <= i < |q| ==>
             && !q[i].GuardReady?
             && (q[i].Started? ==> q[i].pid == pid > 0)
             && (q[i].GuardConnected? ==> q[i].cfg.initPid == pid && LiveConfig(q[i].cfg))
             && (q[i].InitStopped? ==> i == |q| - 1 && !s.guard.value.serving)
             && (Activates(q[i]) ==> s.host.cfg.state == STARTING || s.host.cfg.state == CONNECTING))
       && (forall i, j :: 0 <= i < j < |q| ==> !(Activates(q[i]) && Activates(q[j])))
       && (!s.guard.value.serving ==> q != [] && q[|q| - 1].InitStopped?)
       && (s.host.cfg.state == RUNNING || s.host.cfg.state == STOPPING ==> s.host.cfg.initPid == pid > 0)
  }

  predicate Inv(s: System) {
    && (s.guard.Some? ==> !s.guard.value.faulted)
    && (Quiet(s) || Preparing(s) || Adopting(s) || Live(s))
  }

  lemma UserStepKeeps(s: System, e: Event)
    requires Inv(s) && (e.HostStart? || e.HostStop?)
    ensures Inv(Step(s, e))
  {
  }

  lemma ConnectKeeps(s: System)
    requires Inv(s) && Enabled(s, Connect)
    ensures Inv(Step(s, Connect))
  {
  }

  lemma DeliverToGuardKeeps(s: System, e: Event)
    requires Inv(s) && Enabled(s, e) && e.DeliverToGuard?
    ensures Inv(Step(s, e))
  {
    var t := Step(s, e);
    assert forall m :: m in t.toGuard ==> m in s.toGuard;
    if Preparing(s) {
      if s.guard.value.config.None? {
        assert t.toGuard == [s.toGuard[1]];
        assert Preparing(t);
      } else {
        assert forall i :: 0 <= i < |s.toHost| ==> s.toHost[i] in s.toHost;
        assert Live(t);
      }
    } else {
      assert s.toGuard[0] in s.toGuard;
      assert Live(t);
    }
  }

  lemma DeliverToHostKeeps(s: System)
    requires Inv(s) && Enabled(s, DeliverToHost)
    ensures Inv(Step(s, DeliverToHost))
  {
    var t := Step(s, DeliverToHost);
    if Preparing(s) {
      assert s.toHost[0] in s.toHost && forall m :: m in t.toHost ==> m in s.toHost;
      assert Preparing(t);
    } else if s.toHost[0].InitStopped? {
      assert Quiet(t);
    } else {
      DeliverLive(s);
    }
  }

  lemma DeliverLive(s: System)
    requires Live(s) && Enabled(s, DeliverToHost) && !s.toHost[0].InitStopped?
    ensures Live(Step(s, DeliverToHost))
  {
    var t := Step(s, DeliverToHost);
    assert t.toGuard == s.toGuard;
    assert forall i :: 0 <= i < |t.toHost| ==> t.toHost[i] == s.toHost[i + 1];
    if Activates(s.toHost[0]) {
      assert forall i :: 0 <= i < |t.toHost| ==> !Activates(t.toHost[i]);
    }
  }

  lemma InitExitKeeps(s: System, e: Event)
    requires Inv(s) && Enabled(s, e) && e.InitExit?
    ensures Inv(Step(s, e))
  {
  }

  lemma StepKeeps(s: System, e: Event)
    requires Inv(s) && Enabled(s, e)
    ensures Inv(Step(s, e))
  {
    hide Step, Inv;
    match e {
      case HostStart(_) => UserStepKeeps(s, e);
      case HostStop => UserStepKeeps(s, e);
      case Connect => ConnectKeeps(s);
      case DeliverToGuard(_, _) => DeliverToGuardKeeps(s, e);
      case DeliverToHost => DeliverToHostKeeps(s);
      case InitExit(_) => InitExitKeeps(s, e);
    }
  }

  lemma {:induction false} RunKeeps(s: System, es: seq<Event>)
    requires Inv(s) && Run(s, es)
    ensures Inv(After(s, es))
    decreases es
  {
    if es != [] {
      StepKeeps(s, es[0]);
      RunKeeps(Step(s, es[0]), es[1..]);
    }
  }

  // ---------------------------------------------------------------- what every run guarantees

  /** START, STOP and SIGCHLD never find the guard without a config. */
  lemma GuardNeverFaults(s: System, es: seq<Event>)
    requires Initial(s) && Run(s, es)
    ensures After(s, es).guard.Some? ==> !After(s, es).guard.value.faulted
    ensures var t := After(s, es);
            Serving(t) && t.toGuard != [] && !t.toGuard[0].SetConfig? ==> t.guard.value.config.Some?
  {
    RunKeeps(s, es);
  }

  /** A RUNNING host knows the guard's positive init pid, and the exit notice is still to come. */
  lemma RunningMeansInitKnown(s: System, es: seq<Event>)
    requires Initial(s) && Run(s, es)
    requires After(s, es).host.cfg.state == RUNNING
    ensures var t := After(s, es);
            && t.guard.Some? && t.guard.value.config.Some?
            && t.host.cfg.initPid == t.guard.value.config.value.initPid > 0
            && (Serving(t) || (t.toHost != [] && t.toHost[|t.toHost| - 1].InitStopped?))
  {
    RunKeeps(s, es);
  }

  /** Once the host is STOPPED, nothing is left to be delivered to it and no guard serves it. */
  lemma StoppedIsFinal(s: System, es: seq<Event>)
    requires Initial(s) && Run(s, es)
    requires After(s, es).host.cfg.state == STOPPED
    ensures After(s, es).toHost == [] && !Serving(After(s, es))
  {
    RunKeeps(s, es);
  }

  /** Only a call of start() takes a stopped host anywhere else. */
  lemma OnlyStartLeavesStopped(s: System, es: seq<Event>, e: Event)
    requires Initial(s) && Run(s, es)
    requires After(s, es).host.cfg.state == STOPPED && Enabled(After(s, es), e) && !e.HostStart?
    ensures Step(After(s, es), e).host == After(s, es).host
  {
    StoppedIsFinal(s, es);
  }

  /** The answer to START leaves before the exit notice, which is the last thing the guard sends. */
  lemma ExitNoticeIsLast(s: System, es: seq<Event>, i: nat)
    requires Initial(s) && Run(s, es)
    requires i < |After(s, es).toHost| && After(s, es).toHost[i].InitStopped?
    ensures i == |After(s, es).toHost| - 1 && !Serving(After(s, es))
  {
    RunKeeps(s, es);
    assert After(s, es).toHost[i] in After(s, es).toHost;
  }

  /** When init has exited and everything is delivered, the host is STOPPED exactly if the guard had a peer to tell. */
  lemma DrainedMeansStopped(s: System, es: seq<Event>)
    requires Initial(s) && Run(s, es)
    requires var t := After(s, es); t.guard.Some? && !Serving(t) && t.toHost == []
    ensures After(s, es).host.cfg.state == STOPPED <==> After(s, es).guard.value.connected
  {
    RunKeeps(s, es);
  }

  function Deliveries(n: nat): seq<Event> {
    if n == 0 then [] else [DeliverToHost] + Deliveries(n - 1)
  }

  /** Draining works: delivering what is queued, and nothing else, ends in STOPPED. */
  lemma {:induction false} DrainingStops(s: System)
    requires Inv(s) && s.guard.Some? && !Serving(s) && s.guard.value.connected
    ensures Run(s, Deliveries(|s.toHost|))
    ensures After(s, Deliveries(|s.toHost|)).host.cfg.state == STOPPED
    decreases |s.toHost|
  {
    if s.toHost != [] {
      StepKeeps(s, DeliverToHost);
      DrainingStops(Step(s, DeliverToHost));
      assert Deliveries(|s.toHost|)[1..] == Deliveries(|s.toHost| - 1);
    }
  }

  // ---------------------------------------------------------------- what each step does

  /** What a delivery to the host does, message by message. */
  lemma DeliveryEffect(s: System)
    requires Enabled(s, DeliverToHost)
    ensures var m, h, t := s.toHost[0], s.host, Step(s, DeliverToHost);
            && t.toHost == s.toHost[1..] && t.guard == s.guard
            && (m.Started? && m.pid > 0 ==> t.host.cfg.state == RUNNING && t.host.cfg.initPid == m.pid)
            && (m.Started? && m.pid <= 0 ==> t.host.cfg.state == h.cfg.state && t.host.cfg.initPid == m.pid)
            && (m.InitStopped? ==> t.host.cfg.state == STOPPED && t.host.exitStatus == m.status)
            && (m.GuardConnected? ==> t.host.cfg == m.cfg)
            && (m.GuardReady? ==> t.toGuard == s.toGuard + [SetConfig(h.cfg), ToGuard.Start])
            && (!m.GuardReady? ==> t.toGuard == s.toGuard)
            && (m.GuardReady? || m.ConfigSet? || m.StartFailed? || m.StopDone? ==> t.host == h)
  {
    assert s.toGuard + [] == s.toGuard;
  }

  /** What the user's calls do: a start of a stopped host, a stop of a running one; all others are refused. */
  lemma CallEffect(s: System, configOk: bool)
    ensures var t := Step(s, HostStart(configOk));
            if s.host.cfg.state == STOPPED
            then t.host.cfg.state == STARTING && t.host.cfg.initPid == s.host.cfg.initPid && t.toGuard == [] && t.toHost == []
                 && t.guard == if configOk then Some(FRESH_GUARD) else None
            else t == s
    ensures var t := Step(s, HostStop);
            if s.host.cfg.state == RUNNING
            then t.host.cfg.state == STOPPING && t.host.cfg.initPid == s.host.cfg.initPid && t.toGuard == s.toGuard + [ToGuard.Stop]
                 && t.toHost == s.toHost && t.guard == s.guard
            else t == s
  {
    assert s.toGuard + [] == s.toGuard;
  }

  /** What a delivery to the guard does, message by message. */
  lemma GuardEffect(s: System, setOk: bool, launch: Launch)
    requires Enabled(s, DeliverToGuard(setOk, launch))
    ensures var m, g, t := s.toGuard[0], s.guard.value, Step(s, DeliverToGuard(setOk, launch));
            && t.host == s.host && t.toGuard == s.toGuard[1..] && t.guard.Some?
            && var u := t.guard.value;
               && u.serving && u.connected == g.connected
               && (m.SetConfig? ==> u.config == Some(m.cfg) && t.toHost == s.toHost + [ConfigSet(setOk)])
               && (m.Start? && g.config.Some? ==>
                     && u.config.Some?
                     && u.config.value.state == (if launch.Cloned? then RUNNING else STARTING)
                     && u.config.value.initPid == (if launch.NotCloned? then g.config.value.initPid else launch.pid)
                     && u.initAlive == (g.initAlive || !launch.NotCloned?)
                     && t.toHost == s.toHost + [if launch.Cloned? then Started(launch.pid) else StartFailed])
               && (m.Stop? && g.config.Some? ==>
                     && u.config.Some?
                     && u.config.value.state == STOPPING && u.config.value.initPid == g.config.value.initPid
                     && t.toHost == s.toHost + [StopDone])
  {
  }

  /** What a connection and init's exit do to the guard, and what they tell the host. */
  lemma PeerEffect(s: System, status: int)
    ensures Enabled(s, Connect) ==> var t := Step(s, Connect); var c := s.guard.value.config;
              t.host == s.host && t.guard == Some(s.guard.value.(connected := true))
              && t.toHost == s.toHost + [if c.None? then GuardReady else GuardConnected(c.value)]
    ensures Enabled(s, InitExit(status)) && s.guard.value.config.Some? ==> var t := Step(s, InitExit(status));
              t.host == s.host && !Serving(t) && t.guard.Some?
              && t.guard.value.config == Some(s.guard.value.config.value.(state := STOPPED))
              && t.toHost == s.toHost + if s.guard.value.connected then [InitStopped(status)] else []
  {
  }

  // ---------------------------------------------------------------- a start reaches RUNNING

  /** The six moves of a start: connect, GUARD_READY, SET_CONFIG, START and the two replies. */
  predicate IsMove(e: Event, pid: int) {
    e.Connect? || e.DeliverToHost? || (e.DeliverToGuard? && e.launch == Cloned(pid))
  }

  /** Where a start that will give `pid` is: how many moves are left; none once the host runs. */
  predicate OnTheWay(s: System, pid: int, left: nat) {
    && pid > 0 && Serving(s) && left <= 6
    && var g, q, h := s.guard.value, s.toHost, s.host.cfg;
       && (left == 6 <==> !g.connected)
       && (left > 0 ==> h.state == STARTING)
       && (left == 6 ==> s.toGuard == [] && q == [])
       && (left == 5 ==> s.toGuard == [] && q == [GuardReady])
       && (left == 4 ==> |s.toGuard| == 2 && s.toGuard[0].SetConfig? && s.toGuard[1].Start? && q == [])
       && (left >= 4 ==> g.config.None?)
       && (left < 4 ==> g.config.Some?)
       && (left == 3 ==> s.toGuard == [ToGuard.Start] && |q| == 1 && q[0].ConfigSet?)
       && (left == 2 ==> || (s.toGuard == [ToGuard.Start] && q == [])
                         || (s.toGuard == [] && |q| == 2 && q[0].ConfigSet? && q[1] == Started(pid)))
       && (left == 1 ==> s.toGuard == [] && q == [Started(pid)])
       && (left == 0 ==> s.toGuard == [] && q == [] && h == Config(RUNNING, pid))
  }

  lemma MoveComesNearer(s: System, pid: int, left: nat, e: Event)
    requires OnTheWay(s, pid, left) && Enabled(s, e) && IsMove(e, pid)
    ensures left > 0 && OnTheWay(Step(s, e), pid, left - 1)
  {
    var t := Step(s, e);
    if left == 4 { assert t.toGuard == [s.toGuard[1]]; }
    if left == 2 && e.DeliverToHost? { assert t.toHost == [s.toHost[1]]; }
  }

  /** As long as moves are left, one is possible. */
  lemma SomeMoveIsPossible(s: System, pid: int, left: nat)
    requires OnTheWay(s, pid, left) && left > 0
    ensures Enabled(s, Connect) || Enabled(s, DeliverToHost) || Enabled(s, DeliverToGuard(true, Cloned(pid)))
  {
  }

  predicate IsCall(e: Event) {
    e.HostStart? || e.HostStop?
  }

  function CountMoves(es: seq<Event>): nat {
    if es == [] then 0 else (if IsCall(es[0]) then 0 else 1) + CountMoves(es[1..])
  }

  /** Moves and the user's calls in any order, without init's exit; a stop only while moves are left. */
  predicate Interleaved(es: seq<Event>, pid: int, left: int) {
    es != [] ==>
      if IsCall(es[0]) then (es[0].HostStop? ==> left > 0) && Interleaved(es[1..], pid, left)
      else IsMove(es[0], pid) && Interleaved(es[1..], pid, left - 1)
  }

  lemma {:induction false} MovesComeNearer(s: System, pid: int, left: nat, es: seq<Event>)
    requires OnTheWay(s, pid, left) && Run(s, es) && Interleaved(es, pid, left)
    ensures CountMoves(es) <= left && OnTheWay(After(s, es), pid, left - CountMoves(es))
    decreases es
  {
    hide Step, OnTheWay;
    if es != [] {
      var e := es[0];
      if IsCall(e) {
        CallRefused(s, pid, left, e);
        MovesComeNearer(s, pid, left, es[1..]);
      } else {
        MoveComesNearer(s, pid, left, e);
        MovesComeNearer(Step(s, e), pid, left - 1, es[1..]);
      }
    }
  }

  /** A host on the way is neither STOPPED nor, while moves are left, RUNNING: the calls are refused. */
  lemma CallRefused(s: System, pid: int, left: nat, e: Event)
    requires OnTheWay(s, pid, left) && IsCall(e) && (e.HostStop? ==> left > 0)
    ensures Step(s, e) == s
  {
    CallEffect(s, e.HostStart? && e.configOk);
  }

  /**
   * From a stopped fresh host: an accepted start, with a clone that gives `pid` and without init's
   * exit, reaches RUNNING with that pid after exactly six moves, however they are interleaved
   * with each other and with the user's calls, and gets stuck at none of them.
   */
  lemma {:induction false} StartReachesRunning(s: System, es: seq<Event>, pid: int)
    requires Initial(s) && s.guard.None? && pid > 0 && Run(Step(s, HostStart(true)), es)
    requires Interleaved(es, pid, 6)
    ensures var t := After(Step(s, HostStart(true)), es);
            && CountMoves(es) <= 6
            && (CountMoves(es) == 6 ==> t.host.cfg.state == RUNNING && t.host.cfg.initPid == pid)
            && (CountMoves(es) < 6 ==>
                  && t.host.cfg.state == STARTING
                  && (Enabled(t, Connect) || Enabled(t, DeliverToHost) || Enabled(t, DeliverToGuard(true, Cloned(pid)))))
  {
    var u := Step(s, HostStart(true));
    assert OnTheWay(u, pid, 6);
    MovesComeNearer(u, pid, 6, es);
    if CountMoves(es) < 6 {
      SomeMoveIsPossible(After(u, es), pid, 6 - CountMoves(es));
    }
  }

  /** A stop of that running host: STOPPING on both sides once STOP, the one message under way, is handled. */
  lemma StopReachesGuard(s: System, pid: int)
    requires OnTheWay(s, pid, 0)
    ensures var t := Step(s, HostStop);
            && t.host.cfg.state == STOPPING && t.toGuard == [ToGuard.Stop]
            && Enabled(t, DeliverToGuard(true, NotCloned))
            && var u := Step(t, DeliverToGuard(true, NotCloned));
               u.guard.Some? && u.guard.value.config.Some? && u.guard.value.config.value.state == STOPPING && u.toHost == [StopDone]
  {
    CallEffect(s, true);
    var t := Step(s, HostStop);
    assert t.toGuard == [ToGuard.Stop];
    GuardEffect(t, true, NotCloned);
  }

  // ---------------------------------------------------------------- fresh host objects

  /** What holds besides the invariant when the host spawned every guard itself: a guard that stopped had its peer. */
  predicate FreshInv(s: System) {
    Inv(s) && !Adopting(s) && (s.guard.Some? && !s.guard.value.serving ==> s.guard.value.connected)
  }

  lemma FreshStepKeeps(s: System, e: Event)
    requires FreshInv(s) && Enabled(s, e)
    ensures FreshInv(Step(s, e))
  {
    StepKeeps(s, e);
  }

  lemma {:induction false} FreshRunKeeps(s: System, es: seq<Event>)
    requires FreshInv(s) && Run(s, es)
    ensures FreshInv(After(s, es))
    decreases es
  {
    hide FreshInv, Step;
    if es != [] {
      FreshStepKeeps(s, es[0]);
      FreshRunKeeps(Step(s, es[0]), es[1..]);
    }
  }

  /** For a fresh host object: once init has exited and the channel is drained, the host is STOPPED. */
  lemma {:induction false} FreshDrainedMeansStopped(s: System, es: seq<Event>)
    requires Initial(s) && s.guard.None? && Run(s, es)
    requires var t := After(s, es); t.guard.Some? && !Serving(t) && t.toHost == []
    ensures After(s, es).host.cfg.state == STOPPED
  {
    FreshRunKeeps(s, es);
  }

  /** And draining is always possible: delivering what is queued ends in STOPPED. */
  lemma {:induction false} FreshDrainingStops(s: System, es: seq<Event>)
    requires Initial(s) && s.guard.None? && Run(s, es)
    requires After(s, es).guard.Some? && !Serving(After(s, es))
    ensures var t := After(s, es);
            Run(t, Deliveries(|t.toHost|)) && After(t, Deliveries(|t.toHost|)).host.cfg.state == STOPPED
  {
    FreshRunKeeps(s, es);
    DrainingStops(After(s, es));
  }

  /** A host that is connecting to an old guard may miss the exit: init dies before the connection is handled. */
  lemma AdoptedExitIsMissed()
    ensures var c := Config(RUNNING, 1);
            var s := System(Host(Config(CONNECTING, 0), 0), Some(Guard(true, false, Some(c), true, false)), [], []);
            var es := [InitExit(0)];
            && Initial(s) && Run(s, es)
            && var t := After(s, es);
               t.guard.Some? && !Serving(t) && t.toHost == [] && t.host.cfg.state == CONNECTING
  {
    var c := Config(RUNNING, 1);
    var s := System(Host(Config(CONNECTING, 0), 0), Some(Guard(true, false, Some(c), true, false)), [], []);
    assert [InitExit(0)][1..] == [];
    assert Run(Step(s, InitExit(0)), []);
  }

  // ---------------------------------------------------------------- leaving STARTING

  /** Some continuation takes the host out of STARTING. */
  ghost predicate CanLeave(s: System) {
    exists es :: Run(s, es) && After(s, es).host.cfg.state != STARTING
  }

  /** The message takes a starting host somewhere else. */
  predicate Leaves(m: ToHost) {
    m.InitStopped? || m.GuardConnected? || (m.Started? && m.pid > 0)
  }

  /** The start is still on its way, init is alive, or the message that ends the wait is queued. */
  predicate Hopeful(s: System) {
    Preparing(s) || (Serving(s) && s.guard.value.initAlive) || exists m :: m in s.toHost && Leaves(m)
  }

  lemma LeaveLater(s: System, e: Event)
    requires Enabled(s, e) && CanLeave(Step(s, e))
    ensures CanLeave(s)
  {
    hide Step, Enabled;
    var es :| Run(Step(s, e), es) && After(Step(s, e), es).host.cfg.state != STARTING;
    assert ([e] + es)[0] == e && ([e] + es)[1..] == es;
    assert Run(s, [e] + es) && After(s, [e] + es) == After(Step(s, e), es);
  }

  lemma LeftAlready(s: System)
    requires s.host.cfg.state != STARTING
    ensures CanLeave(s)
  {
    assert Run(s, []) && After(s, []) == s;
  }

  /** Deliveries get to a message that ends the wait. */
  lemma {:induction false} QueuedLeaves(s: System, k: nat)
    requires Inv(s) && s.host.cfg.state == STARTING && k < |s.toHost| && Leaves(s.toHost[k])
    ensures CanLeave(s)
    decreases k
  {
    hide CanLeave;
    var t := Step(s, DeliverToHost);
    StepKeeps(s, DeliverToHost);
    if t.host.cfg.state != STARTING {
      LeftAlready(t);
    } else {
      FirstDoesNotLeave(s);
      assert t.toHost[k - 1] == s.toHost[k];
      QueuedLeaves(t, k - 1);
    }
    LeaveLater(s, DeliverToHost);
  }

  lemma FirstDoesNotLeave(s: System)
    requires Inv(s) && s.host.cfg.state == STARTING && s.toHost != []
    requires Step(s, DeliverToHost).host.cfg.state == STARTING
    ensures !Leaves(s.toHost[0])
  {
    assert s.toHost[0] in s.toHost;
  }

  lemma AliveLeaves(s: System)
    requires Inv(s) && s.host.cfg.state == STARTING && Serving(s) && s.guard.value.initAlive
    ensures CanLeave(s)
  {
    hide CanLeave;
    var e := InitExit(0);
    StepKeeps(s, e);
    var t := Step(s, e);
    assert t.toHost == s.toHost + [InitStopped(0)];
    QueuedLeaves(t, |s.toHost|);
    LeaveLater(s, e);
  }

  /** Connect, GUARD_READY, SET_CONFIG and START lead from the spawn to a live init. */
  lemma {:induction false} PreparingLeaves(s: System)
    requires Inv(s) && Preparing(s)
    ensures CanLeave(s)
    decreases Remaining(s)
  {
    hide CanLeave;
    var e := NextMove(s);
    var t := Step(s, e);
    StepKeeps(s, e);
    MoveAdvances(s);
    if Preparing(t) {
      PreparingLeaves(t);
    } else {
      AliveLeaves(t);
    }
    LeaveLater(s, e);
  }

  function NextMove(s: System): Event
    requires Serving(s)
  {
    if !s.guard.value.connected then Connect
    else if s.toGuard == [] then DeliverToHost
    else DeliverToGuard(true, Cloned(1))
  }

  /** How many moves a start in preparation is from a live init. */
  function Remaining(s: System): nat
    requires Serving(s)
  {
    if !s.guard.value.connected then 4 else if s.toGuard == [] then 3 else if s.guard.value.config.None? then 2 else 1
  }

  lemma MoveAdvances(s: System)
    requires Inv(s) && Preparing(s)
    ensures Enabled(s, NextMove(s))
    ensures var t := Step(s, NextMove(s));
            && t.host.cfg.state == STARTING && Serving(t)
            && if Preparing(t) then Remaining(t) < Remaining(s) else t.guard.value.initAlive
  {
  }

  /** Without hope nothing happens: every step leaves the host STARTING and without hope. */
  lemma HopelessStays(s: System, e: Event)
    requires Inv(s) && s.host.cfg.state == STARTING && !Hopeful(s) && Enabled(s, e)
    ensures Step(s, e).host == s.host && !Hopeful(Step(s, e))
  {
    var t := Step(s, e);
    if e.DeliverToGuard? {
      assert s.toGuard[0] in s.toGuard;
      assert t.toHost == s.toHost + [StopDone];
      assert t.toGuard != [] ==> t.toGuard[0] in s.toGuard;
    }
    if e.DeliverToHost? {
      assert s.toHost[0] in s.toHost && forall m :: m in t.toHost ==> m in s.toHost;
      assert t.toGuard != [] ==> t.toGuard[0] in t.toGuard;
    }
  }

  lemma {:induction false} HopelessForEver(s: System, es: seq<Event>)
    requires Inv(s) && s.host.cfg.state == STARTING && !Hopeful(s) && Run(s, es)
    ensures After(s, es).host == s.host
    decreases es
  {
    hide Step, Inv, Hopeful;
    if es != [] {
      StepKeeps(s, es[0]);
      HopelessStays(s, es[0]);
      HopelessForEver(Step(s, es[0]), es[1..]);
    }
  }

  /** A STARTING host can get anywhere else exactly while there is hope. */
  lemma LeavesExactly(s: System)
    requires Inv(s) && s.host.cfg.state == STARTING
    ensures CanLeave(s) <==> Hopeful(s)
  {
    if Preparing(s) {
      PreparingLeaves(s);
    } else if Serving(s) && s.guard.value.initAlive {
      AliveLeaves(s);
    } else if exists m :: m in s.toHost && Leaves(m) {
      var k :| 0 <= k < |s.toHost| && Leaves(s.toHost[k]);
      QueuedLeaves(s, k);
    } else if CanLeave(s) {
      var es :| Run(s, es) && After(s, es).host.cfg.state != STARTING;
      HopelessForEver(s, es);
    }
  }

  /** A start() of a stopped object can lead anywhere exactly if its configuration is accepted. */
  lemma StartLeavesExactly(s: System, configOk: bool)
    requires Inv(s) && s.host.cfg.state == STOPPED
    ensures CanLeave(Step(s, HostStart(configOk))) <==> configOk
  {
    hide CanLeave;
    StepKeeps(s, HostStart(configOk));
    LeavesExactly(Step(s, HostStart(configOk)));
  }

  const STOPPED_ALONE := System(Host(Config(STOPPED, 0), 0), None, [], [])

  /** A start() whose configuration is rejected leaves the object STARTING for ever: there is no guard to end it. */
  lemma {:induction false} RejectedStartSticks(s: System, es: seq<Event>)
    requires s.host.cfg.state == STARTING && s.guard.None? && s.toHost == [] && Run(s, es)
    ensures After(s, es).host == s.host
    decreases es
  {
    if es != [] {
      assert Step(s, es[0]).host == s.host && Step(s, es[0]).toGuard == s.toGuard + [];
      RejectedStartSticks(Step(s, es[0]), es[1..]);
    }
  }

  lemma RejectedStartWitness()
    ensures var t := Step(STOPPED_ALONE, HostStart(false)); t.host.cfg.state == STARTING && !CanLeave(t)
  {
    hide CanLeave;
    StartLeavesExactly(STOPPED_ALONE, false);
  }

  /** An accepted start whose clone fails sticks too, once its replies are under way. */
  lemma FailedCloneSticks(es: seq<Event>)
    ensures Run(STOPPED_ALONE, FailedClone())
    ensures var t := After(STOPPED_ALONE, FailedClone());
            && t.host.cfg.state == STARTING && !CanLeave(t)
            && (Run(t, es) ==> After(t, es).host.cfg.state == STARTING)
  {
    hide CanLeave;
    var t := System(
      Host(Config(STARTING, 0), 0), Some(Guard(true, true, Some(Config(STARTING, 0)), false, false)), [],
      [ConfigSet(true), StartFailed]);
    FailedCloneReached(t);
    assert Live(t);
    LeavesExactly(t);
    if Run(t, es) { HopelessForEver(t, es); }
  }

  function FailedClone(): seq<Event> {
    [HostStart(true), Connect, DeliverToHost, DeliverToGuard(true, NotCloned), DeliverToGuard(true, NotCloned)]
  }

  lemma FailedCloneReached(t: System)
    requires t == System(
      Host(Config(STARTING, 0), 0), Some(Guard(true, true, Some(Config(STARTING, 0)), false, false)), [],
      [ConfigSet(true), StartFailed])
    ensures Run(STOPPED_ALONE, FailedClone()) && After(STOPPED_ALONE, FailedClone()) == t
  {
    var e := DeliverToGuard(true, NotCloned);
    var h := Host(Config(STARTING, 0), 0);
    var s1 := System(h, Some(FRESH_GUARD), [], []);
    var s2 := System(h, Some(FRESH_GUARD.(connected := true)), [], [GuardReady]);
    var s3 := System(h, s2.guard, [SetConfig(h.cfg), ToGuard.Start], []);
    var s4 := System(h, Some(s2.guard.value.(config := Some(h.cfg))), [ToGuard.Start], [ConfigSet(true)]);
    assert Step(STOPPED_ALONE, HostStart(true)) == s1;
    assert Step(s1, Connect) == s2;
    assert Step(s2, DeliverToHost) == s3;
    assert Step(s3, e) == s4;
    assert Step(s4, e) == t;
    hide Step;
    OneStep(s4, e, [], t);
    OneStep(s3, e, [e], t);
    OneStep(s2, DeliverToHost, [e, e], t);
    OneStep(s1, Connect, [DeliverToHost, e, e], t);
    OneStep(STOPPED_ALONE, HostStart(true), [Connect, DeliverToHost, e, e], t);
  }

  lemma OneStep(s: System, e: Event, es: seq<Event>, t: System)
    requires Enabled(s, e) && Run(Step(s, e), es) && After(Step(s, e), es) == t
    ensures Run(s, [e] + es) && After(s, [e] + es) == t
  {
    hide Step, Enabled;
    assert ([e] + es)[0] == e && ([e] + es)[1..] == es;
  }

  // ---------------------------------------------------------------- the objects

  /** ContainerImpl; mOutbox is what it has called asynchronously, in order. */
  class ContainerImpl {
    var mConfig: Config
    var mExitStatus: int
    var mOutbox: seq<ToGuard>

    ghost function State(): Host
      reads this
    {
      Host(mConfig, mExitStatus)
    }

    /** `configOk`: the ID maps, the root path and the terminals pass the checks. */
    method Start(configOk: bool) returns (spawn: bool)
      modifies this`mConfig
      ensures (State(), spawn) == old(State()).Start(configOk)
    {
      if mConfig.state != STOPPED {
        return false;
      }
      SetState(STARTING);
      return configOk;
    }

    method Stop()
      modifies this`mConfig, this`mOutbox
      ensures State() == old(State()).Stop().0 && mOutbox == old(mOutbox) + old(State()).Stop().1
    {
      if mConfig.state == RUNNING {
        SetState(STOPPING);
        mOutbox := mOutbox + [ToGuard.Stop];
      }
    }

    method SetState(state: State)
      modifies this`mConfig
      ensures mConfig == old(mConfig).(state := state)
    {
      mConfig := mConfig.(state := state);
    }

    method OnGuardReady()
      modifies this`mOutbox
      ensures mOutbox == old(mOutbox) + State().OnMessage(GuardReady).1
    {
      mOutbox := mOutbox + [SetConfig(mConfig)];
      mOutbox := mOutbox + [ToGuard.Start];
    }

    method OnGuardConnected(data: Config)
      modifies this`mConfig
      ensures State() == old(State()).OnMessage(GuardConnected(data)).0
    {
      mConfig := data;
    }

    method OnInitStarted(pid: int)
      modifies this`mConfig
      ensures State() == old(State()).OnMessage(Started(pid)).0
      ensures mConfig == Config(if pid > 0 then RUNNING else old(mConfig.state), pid)
    {
      mConfig := mConfig.(initPid := pid);
      if mConfig.initPid <= 0 {
        return;
      }
      SetState(RUNNING);
    }

    method OnInitStopped(status: int)
      modifies this`mConfig, this`mExitStatus
      ensures State() == old(State()).OnMessage(InitStopped(status)).0
    {
      mExitStatus := status;
      SetState(STOPPED);
    }
  }

  /** The guard's service; mReplies is what it has sent, in order. */
  class GuardService {
    var mConfig: Option<Config>
    var mHasPeer: bool
    var mStarted: bool
    var mInitAlive: bool
    var mReplies: seq<ToHost>

    ghost function State(): Guard
      reads this
    {
      Guard(mStarted, mHasPeer, mConfig, mInitAlive, false)
    }

    method OnConnection()
      modifies this`mHasPeer, this`mReplies
      ensures State() == old(State()).OnConnection().0
      ensures mReplies == old(mReplies) + old(State()).OnConnection().1
    {
      mHasPeer := true;
      if mConfig.None? {
        mReplies := mReplies + [GuardReady];
      } else {
        mReplies := mReplies + [GuardConnected(mConfig.value)];
      }
    }

    method OnSetConfig(data: Config, setOk: bool)
      modifies this`mConfig, this`mReplies
      ensures State() == old(State()).OnMessage(SetConfig(data), setOk, NotCloned).0
      ensures mReplies == old(mReplies) + old(State()).OnMessage(SetConfig(data), setOk, NotCloned).1
    {
      mConfig := Some(data);
      mReplies := mReplies + [ConfigSet(setOk)];
    }

    /** The config is dereferenced: GuardNeverFaults shows that START never comes without it. */
    method OnStart(launch: Launch)
      requires mConfig.Some?
      modifies this`mConfig, this`mInitAlive, this`mReplies
      ensures State() == old(State()).OnMessage(ToGuard.Start, true, launch).0
      ensures mReplies == old(mReplies) + old(State()).OnMessage(ToGuard.Start, true, launch).1
    {
      mConfig := Some(mConfig.value.(state := STARTING));
      if launch.NotCloned? {
        mReplies := mReplies + [StartFailed];
        return;
      }
      mConfig := Some(mConfig.value.(initPid := launch.pid));
      mInitAlive := true;
      if launch.Abandoned? {
        mReplies := mReplies + [StartFailed];
        return;
      }
      mConfig := Some(mConfig.value.(state := RUNNING));
      mReplies := mReplies + [Started(mConfig.value.initPid)];
    }

    method OnStop()
      requires mConfig.Some?
      modifies this`mConfig, this`mReplies
      ensures State() == old(State()).OnMessage(ToGuard.Stop, true, NotCloned).0
      ensures mReplies == old(mReplies) + old(State()).OnMessage(ToGuard.Stop, true, NotCloned).1
    {
      mConfig := Some(mConfig.value.(state := STOPPING));
      mReplies := mReplies + [StopDone];
    }

    /** SIGCHLD: children other than init are ignored. */
    method OnInitExit(pid: int, status: int)
      requires mConfig.Some?
      modifies this
      ensures pid != old(mConfig.value.initPid) ==> State() == old(State()) && mReplies == old(mReplies)
      ensures pid == old(mConfig.value.initPid) ==>
                State() == old(State()).OnInitExit(status).0
                && mReplies == old(mReplies) + old(State()).OnInitExit(status).1
    {
      if mConfig.value.initPid != pid {
        return;
      }
      mInitAlive := false;
      mConfig := Some(mConfig.value.(state := STOPPED));
      if mHasPeer {
        mReplies := mReplies + [InitStopped(status)];
      }
      mStarted := false;
    }
  }
}
