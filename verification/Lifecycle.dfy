/** The daemon state machine of internal/daemon/state.go and the goroutine
    protocol of Run in internal/daemon/daemon.go, as an interleaving of four
    program counters: main, signal handler, watcher and cleanup. */
module Lifecycle {
  import opened Strings

  datatype State = Starting | Running | ShuttingDown | Stopped | Failed

  function ValidTransitions(from: State): seq<State> {
    match from
    case Starting => [Running, Failed]
    case Running => [ShuttingDown]
    case ShuttingDown => [Stopped]
    case Failed => [Stopped]
    case Stopped => []
  }

  /** The transitions, all of them. */
  lemma TransitionTable(from: State, to: State)
    ensures to in ValidTransitions(from) <==>
      (from, to) in {(Starting, Running), (Starting, Failed), (Running, ShuttingDown),
                     (ShuttingDown, Stopped), (Failed, Stopped)}
  {
  }

  method CanTransitionTo(from: State, to: State) returns (allowed: bool)
    ensures allowed == (to in ValidTransitions(from))
  {
    var targets := ValidTransitions(from);
    for i := 0 to |targets|
      invariant to !in targets[..i]
    {
      if targets[i] == to {
        return true;
      }
    }
    return false;
  }

  /** The state after asking for a transition: refused ones change nothing. */
  function Move(from: State, to: State): State {
    if to in ValidTransitions(from) then to else from
  }

  class StateMachine {
    var current: State

    constructor ()
      ensures current == Starting
    {
      current := Starting;
    }

    method TransitionTo(to: State) returns (ok: bool)
      modifies this
      ensures ok == (to in ValidTransitions(old(current)))
      ensures current == Move(old(current), to)
    {
      var allowed := CanTransitionTo(current, to);
      if !allowed {
        return false;
      }
      current := to;
      return true;
    }
  }

  function Rank(s: State): nat {
    match s
    case Starting => 0
    case Running => 1
    case ShuttingDown => 2
    case Failed => 2
    case Stopped => 3
  }

  /** Over any sequence of requests the state only moves forward, and nothing
      leaves Stopped. */
  lemma {:induction false} NeverBackwards(s: State, requests: seq<State>)
    ensures Rank(s) <= Rank(After(s, requests))
    ensures s == Stopped ==> After(s, requests) == Stopped
    ensures After(s, requests) == ShuttingDown && s != ShuttingDown ==> Running in [s] + requests
    decreases requests
  {
    if requests != [] {
      NeverBackwards(Move(s, requests[0]), requests[1..]);
    }
  }

  function After(s: State, requests: seq<State>): State
    decreases requests
  {
    if requests == [] then s else After(Move(s, requests[0]), requests[1..])
  }

  /** Requests take effect one after the other, and lead to Stopped both ways. */
  lemma {:induction false} AfterPush(s: State, requests: seq<State>, to: State)
    ensures After(s, requests + [to]) == Move(After(s, requests), to)
    ensures After(Starting, [Running, ShuttingDown, Stopped]) == Stopped
    ensures After(Starting, [Failed, Stopped]) == Stopped
    decreases requests
  {
    assert After(Running, [ShuttingDown, Stopped]) == After(ShuttingDown, [Stopped]) == Stopped by {
      assert [ShuttingDown, Stopped][1..] == [Stopped] && [Stopped][1..] == [];
    }
    assert [Running, ShuttingDown, Stopped][1..] == [ShuttingDown, Stopped];
    assert [Failed, Stopped][1..] == [Stopped];
    if requests == [] {
      assert requests + [to] == [to] && [to][1..] == [];
    } else {
      assert (requests + [to])[1..] == requests[1..] + [to];
      AfterPush(Move(s, requests[0]), requests[1..], to);
    }
  }

  datatype Config = Config(preLocked: bool, hasWatcher: bool, runsCleanup: bool)

  /** Where the goroutine executing Run is. */
  datatype MainPc =
    | Locking | Spawning | EnterRunning | PublishReady | LaunchWatcher | OpenGate | Waiting
    | ClearReady | EnterShutdown | CancelWatcher | AwaitWatcher | BeginCleanup | AwaitCleanup
    | EnterStopped | Returned

  function Line(pc: MainPc): nat {
    match pc
    case Locking => 0
    case Spawning => 1
    case EnterRunning => 2
    case PublishReady => 3
    case LaunchWatcher => 4
    case OpenGate => 5
    case Waiting => 6
    case ClearReady => 7
    case EnterShutdown => 8
    case CancelWatcher => 9
    case AwaitWatcher => 10
    case BeginCleanup => 11
    case AwaitCleanup => 12
    case EnterStopped => 13
    case Returned => 14
  }

  datatype HandlerPc =
    | Unborn | Listening | GotSignal | GotContext | Finished
    | EarlyNotReady | EarlyShutdown | EarlyCleanup | EarlyAwait | EarlyStopped

  /** Calling is the daemon's callback up to its own check of the context,
      Regenerating what it does after that. */
  datatype WatcherPc =
    | NotStarted | Checking | Baselining | Idle | Probing | Deciding | Calling | Regenerating | Closing | Gone

  /** A refresh callback is running. */
  predicate InCallback(pc: WatcherPc) {
    pc == Calling || pc == Regenerating
  }

  /** How the bounded wait for the watcher ended. */
  datatype Wait = Pending | SawDone | TimedOut

  /** The state machine, its observer's log, the readiness flag and the PID lock. */
  datatype Daemon = Daemon(state: State, observed: seq<State>, ready: bool, pidLocked: bool)

  /** How often each coordination channel has been closed. */
  datatype Closes = Closes(gate: nat, received: nat, done: nat)

  /** A signal is pending in the one-slot channel; one has ever arrived; the
      parent context and the watcher's derived context are done. */
  datatype Inputs = Inputs(pending: bool, signalled: bool, ctxDone: bool, watcherCtxDone: bool)

  /** How the bounded wait for the watcher ended, the daemon state at each start
      of a cleanup, and the cleanups still running. */
  datatype Teardown = Teardown(wait: Wait, starts: seq<State>, active: nat)

  datatype System = System(
    main: MainPc, handler: HandlerPc, watcher: WatcherPc,
    daemon: Daemon, closes: Closes, inputs: Inputs, teardown: Teardown,
    early: bool, exited: bool)

  function Init(cfg: Config): System {
    System(Locking, Unborn, NotStarted, Daemon(Starting, [Starting], false, cfg.preLocked),
           Closes(0, 0, 0), Inputs(false, false, false, false), Teardown(Pending, [], 0), false, false)
  }

  /** setState: the callback observes accepted transitions only. */
  function SetState(d: Daemon, to: State): Daemon {
    if to in ValidTransitions(d.state) then d.(state := to, observed := d.observed + [to]) else d
  }

  function BeginOn(s: System): Teardown {
    s.teardown.(starts := s.teardown.starts + [s.daemon.state], active := s.teardown.active + 1)
  }

  datatype MainStep =
    | LockOk | LockFails | Spawn | GoRunning | GoReady | StartWatcher | CloseGate
    | WakeBySignal | WakeByContext | NotReady | GoShuttingDown | StopWatcher
    | SeeWatcherDone | WatcherTimeout | SpawnCleanup | SkipCleanup | SeeCleanupDone | CleanupTimeout | GoStopped

  datatype HandlerStep =
    | TakeSignal | TakeContext | Forward | DropContext | TooEarly
    | EarlyClearReady | EarlyGoShuttingDown | EarlySpawnCleanup | EarlySkipCleanup | EarlyCleanupOver | EarlyGoStopped

  datatype WatcherStep =
    | WatchBegin | WatchBaseline | WatchRefuse | WatchTick | WatchQuit
    | WatchProbed | WatchSkip | WatchCall | WatchRecheck | WatchRegenerated | WatchClose

  datatype OtherStep = SignalArrives | ContextCancelled | CleanupFinishes

  datatype Label = Main(m: MainStep) | Handler(h: HandlerStep) | Watch(w: WatcherStep) | Other(o: OtherStep)

  /** The line of Run a step of main is taken from. */
  function At(m: MainStep): MainPc {
    match m
    case LockOk => Locking
    case LockFails => Locking
    case Spawn => Spawning
    case GoRunning => EnterRunning
    case GoReady => PublishReady
    case StartWatcher => LaunchWatcher
    case CloseGate => OpenGate
    case WakeBySignal => Waiting
    case WakeByContext => Waiting
    case NotReady => ClearReady
    case GoShuttingDown => EnterShutdown
    case StopWatcher => CancelWatcher
    case SeeWatcherDone => AwaitWatcher
    case WatcherTimeout => AwaitWatcher
    case SpawnCleanup => BeginCleanup
    case SkipCleanup => BeginCleanup
    case SeeCleanupDone => AwaitCleanup
    case CleanupTimeout => AwaitCleanup
    case GoStopped => EnterStopped
  }

  predicate MainEnabled(cfg: Config, s: System, m: MainStep) {
    s.main == At(m) &&
    match m
    case LockFails => !s.daemon.pidLocked
    case WakeBySignal => s.closes.received > 0
    case WakeByContext => s.inputs.ctxDone
    case SeeWatcherDone => s.closes.done > 0
    case SpawnCleanup => cfg.runsCleanup
    case SkipCleanup => !cfg.runsCleanup
    case SeeCleanupDone => s.teardown.active == 0
    case _ => true
  }

  function MainApply(cfg: Config, s: System, m: MainStep): System {
    match m
    case LockOk => s.(main := Spawning, daemon := s.daemon.(pidLocked := true))
    case LockFails => s.(main := Returned, daemon := SetState(s.daemon, Failed))
    case Spawn => s.(main := EnterRunning, handler := Listening)
    case GoRunning => s.(main := PublishReady, daemon := SetState(s.daemon, Running))
    case GoReady => s.(main := LaunchWatcher, daemon := s.daemon.(ready := true))
    case StartWatcher =>
      if cfg.hasWatcher then s.(main := OpenGate, watcher := Checking)
      else s.(main := OpenGate, closes := s.closes.(done := s.closes.done + 1))
    case CloseGate => s.(main := Waiting, closes := s.closes.(gate := s.closes.gate + 1))
    case WakeBySignal => s.(main := ClearReady)
    case WakeByContext => s.(main := ClearReady)
    case NotReady => s.(main := EnterShutdown, daemon := s.daemon.(ready := false))
    case GoShuttingDown => s.(main := CancelWatcher, daemon := SetState(s.daemon, ShuttingDown))
    case StopWatcher => s.(main := AwaitWatcher, inputs := s.inputs.(watcherCtxDone := true))
    case SeeWatcherDone => s.(main := BeginCleanup, teardown := s.teardown.(wait := SawDone))
    case WatcherTimeout => s.(main := BeginCleanup, teardown := s.teardown.(wait := TimedOut))
    case SpawnCleanup => s.(main := AwaitCleanup, teardown := BeginOn(s))
    case SkipCleanup => s.(main := EnterStopped)
    case SeeCleanupDone => s.(main := EnterStopped)
    case CleanupTimeout => s.(main := EnterStopped)
    case GoStopped => s.(main := Returned, daemon := SetState(s.daemon, Stopped).(pidLocked := false))
  }

  predicate HandlerEnabled(cfg: Config, s: System, h: HandlerStep) {
    match h
    case TakeSignal => s.handler == Listening && s.inputs.pending
    case TakeContext => s.handler == Listening && s.inputs.ctxDone
    case Forward => (s.handler == GotSignal || s.handler == GotContext) && s.closes.gate > 0
    case DropContext => s.handler == GotContext && s.closes.gate == 0
    case TooEarly => s.handler == GotSignal && s.closes.gate == 0
    case EarlyClearReady => s.handler == EarlyNotReady
    case EarlyGoShuttingDown => s.handler == EarlyShutdown
    case EarlySpawnCleanup => s.handler == EarlyCleanup && cfg.runsCleanup
    case EarlySkipCleanup => s.handler == EarlyCleanup && !cfg.runsCleanup
    case EarlyCleanupOver => s.handler == EarlyAwait
    case EarlyGoStopped => s.handler == EarlyStopped
  }

  function HandlerApply(s: System, h: HandlerStep): System {
    match h
    case TakeSignal => s.(handler := GotSignal, inputs := s.inputs.(pending := false))
    case TakeContext => s.(handler := GotContext)
    case Forward => s.(handler := Finished, closes := s.closes.(received := s.closes.received + 1))
    case DropContext => s.(handler := Finished)
    case TooEarly => s.(handler := EarlyNotReady, early := true)
    case EarlyClearReady => s.(handler := EarlyShutdown, daemon := s.daemon.(ready := false))
    case EarlyGoShuttingDown => s.(handler := EarlyCleanup, daemon := SetState(s.daemon, ShuttingDown))
    case EarlySpawnCleanup => s.(handler := EarlyAwait, teardown := BeginOn(s))
    case EarlySkipCleanup => s.(handler := EarlyStopped)
    case EarlyCleanupOver => s.(handler := EarlyStopped)
    case EarlyGoStopped => s.(handler := Finished, daemon := SetState(s.daemon, Stopped), exited := true)
  }

  predicate WatcherEnabled(s: System, w: WatcherStep) {
    match w
    case WatchBegin => s.watcher == Checking && !s.inputs.watcherCtxDone
    case WatchBaseline => s.watcher == Baselining
    case WatchRefuse => s.watcher == Checking && s.inputs.watcherCtxDone
    case WatchTick => s.watcher == Idle && !s.inputs.watcherCtxDone
    case WatchQuit => s.watcher == Idle && s.inputs.watcherCtxDone
    case WatchProbed => s.watcher == Probing
    case WatchSkip => s.watcher == Deciding
    case WatchCall => s.watcher == Deciding
    case WatchRecheck => s.watcher == Calling
    case WatchRegenerated => s.watcher == Regenerating
    case WatchClose => s.watcher == Closing
  }

  function WatcherApply(s: System, w: WatcherStep): System {
    match w
    case WatchBegin => s.(watcher := Baselining)
    case WatchBaseline => s.(watcher := Idle)
    case WatchRefuse => s.(watcher := Closing)
    case WatchTick => s.(watcher := Probing)
    case WatchQuit => s.(watcher := Closing)
    case WatchProbed => s.(watcher := if s.inputs.watcherCtxDone then Idle else Deciding)
    case WatchSkip => s.(watcher := Idle)
    case WatchCall => s.(watcher := Calling)
    case WatchRecheck => s.(watcher := if s.inputs.watcherCtxDone then Idle else Regenerating)
    case WatchRegenerated => s.(watcher := Idle)
    case WatchClose => s.(watcher := Gone, closes := s.closes.(done := s.closes.done + 1))
  }

  predicate OtherEnabled(s: System, o: OtherStep) {
    match o
    case SignalArrives => s.handler != Unborn
    case ContextCancelled => true
    case CleanupFinishes => s.teardown.active > 0
  }

  function OtherApply(s: System, o: OtherStep): System
    requires OtherEnabled(s, o)
  {
    match o
    case SignalArrives => s.(inputs := s.inputs.(pending := true, signalled := true))
    case ContextCancelled => s.(inputs := s.inputs.(ctxDone := true, watcherCtxDone := true))
    case CleanupFinishes => s.(teardown := s.teardown.(active := s.teardown.active - 1))
  }

  predicate Enabled(cfg: Config, s: System, l: Label) {
    !s.exited &&
    match l
    case Main(m) => MainEnabled(cfg, s, m)
    case Handler(h) => HandlerEnabled(cfg, s, h)
    case Watch(w) => WatcherEnabled(s, w)
    case Other(o) => OtherEnabled(s, o)
  }

  function Apply(cfg: Config, s: System, l: Label): System
    requires Enabled(cfg, s, l)
  {
    match l
    case Main(m) => MainApply(cfg, s, m)
    case Handler(h) => HandlerApply(s, h)
    case Watch(w) => WatcherApply(s, w)
    case Other(o) => OtherApply(s, o)
  }

  /** The system after an interleaving, None if some step is not enabled. */
  function Steps(cfg: Config, s: System, labels: seq<Label>): Option<System>
    decreases labels
  {
    if labels == [] then Some(s)
    else if Enabled(cfg, s, labels[0]) then Steps(cfg, Apply(cfg, s, labels[0]), labels[1..])
    else None
  }

  predicate Reached(cfg: Config, labels: seq<Label>, s: System) {
    Steps(cfg, Init(cfg), labels) == Some(s)
  }

  /** The handler goroutine exists from the moment main has spawned it. */
  predicate HandlerBorn(s: System) {
    && (Line(s.main) <= Line(Spawning) ==> s.handler == Unborn)
    && (Line(Spawning) < Line(s.main) < Line(Returned) ==> s.handler != Unborn)
  }

  /** Each channel is closed at most once, by the one goroutine entitled to it. */
  ghost predicate Channels(cfg: Config, s: System) {
    && s.closes.gate == (if Line(s.main) >= Line(Waiting) && s.handler != Unborn then 1 else 0)
    && s.closes.received <= s.closes.gate && (s.closes.received == 1 ==> s.handler == Finished)
    && (if cfg.hasWatcher then
          && s.closes.done == (if s.watcher == Gone then 1 else 0)
          && (Line(s.main) <= Line(LaunchWatcher) ==> s.watcher == NotStarted)
        else
          && s.watcher == NotStarted
          && s.closes.done == (if Line(s.main) > Line(LaunchWatcher) && !LockedOut(s) then 1 else 0))
    && HandlerBorn(s)
    && (s.teardown.wait == SawDone ==> Line(s.main) >= Line(BeginCleanup) && (cfg.hasWatcher ==> s.watcher == Gone))
  }

  predicate InEarlyBranch(pc: HandlerPc) {
    pc == EarlyNotReady || pc == EarlyShutdown || pc == EarlyCleanup || pc == EarlyAwait || pc == EarlyStopped
  }

  function ExpectedObserved(pc: MainPc): seq<State> {
    if Line(pc) <= Line(EnterRunning) then [Starting]
    else if Line(pc) <= Line(EnterShutdown) then [Starting, Running]
    else if Line(pc) <= Line(EnterStopped) then [Starting, Running, ShuttingDown]
    else [Starting, Running, ShuttingDown, Stopped]
  }

  function ExpectedState(pc: MainPc): State {
    if Line(pc) <= Line(EnterRunning) then Starting
    else if Line(pc) <= Line(EnterShutdown) then Running
    else if Line(pc) <= Line(EnterStopped) then ShuttingDown
    else Stopped
  }

  /** Main gave up because another instance holds the PID lock. */
  predicate LockedOut(s: System) {
    s.main == Returned && s.handler == Unborn
  }

  function ExpectedDaemon(cfg: Config, pc: MainPc): Daemon {
    Daemon(ExpectedState(pc), ExpectedObserved(pc),
           Line(LaunchWatcher) <= Line(pc) <= Line(ClearReady),
           if pc == Locking then cfg.preLocked else pc != Returned)
  }

  /** While the handler keeps out of its early-exit branch, main's position
      determines the state, its history, readiness and the lock ... */
  ghost predicate OrderlyDaemon(cfg: Config, s: System) {
    && !InEarlyBranch(s.handler) && !s.exited
    && s.daemon ==
       if LockedOut(s) then Daemon(Failed, [Starting, Failed], false, false) else ExpectedDaemon(cfg, s.main)
  }

  /** ... and the cleanups. */
  ghost predicate OrderlyTeardown(cfg: Config, s: System) {
    && s.teardown.starts ==
       (if cfg.runsCleanup && Line(s.main) > Line(BeginCleanup) && !LockedOut(s) then [ShuttingDown] else [])
    && (Line(s.main) >= Line(BeginCleanup) && !LockedOut(s) ==> s.teardown.wait != Pending)
  }

  ghost predicate Orderly(cfg: Config, s: System) {
    OrderlyDaemon(cfg, s) && OrderlyTeardown(cfg, s)
  }

  /** No signal is lost: a signal that arrived is still pending, being handled,
      has been forwarded, or the context is done anyway. */
  ghost predicate NoLostSignal(s: System) {
    && (s.inputs.signalled && s.handler == Listening ==> s.inputs.pending)
    && (s.handler == GotContext ==> s.inputs.ctxDone)
    && (s.handler == Finished && !s.early ==> s.closes.received == 1 || s.inputs.ctxDone)
    && (s.inputs.signalled ==> s.handler != Unborn)
    && (InEarlyBranch(s.handler) ==> s.early)
  }

  lemma ChannelsMain(cfg: Config, s: System, m: MainStep)
    requires Channels(cfg, s) && MainEnabled(cfg, s, m)
    ensures Channels(cfg, MainApply(cfg, s, m))
  {
    hide SetState;
  }

  lemma ChannelsHandler(cfg: Config, s: System, h: HandlerStep)
    requires Channels(cfg, s) && HandlerEnabled(cfg, s, h)
    ensures Channels(cfg, HandlerApply(s, h))
  {
  }

  lemma ChannelsWatcher(cfg: Config, s: System, w: WatcherStep)
    requires Channels(cfg, s) && WatcherEnabled(s, w)
    ensures Channels(cfg, WatcherApply(s, w))
  {
  }

  lemma ChannelsStep(cfg: Config, s: System, l: Label)
    requires Channels(cfg, s) && Enabled(cfg, s, l)
    ensures Channels(cfg, Apply(cfg, s, l))
  {
    hide MainEnabled, MainApply, HandlerEnabled, HandlerApply, WatcherEnabled, WatcherApply;
    match l
    case Main(m) => ChannelsMain(cfg, s, m);
    case Handler(h) => ChannelsHandler(cfg, s, h);
    case Watch(w) => ChannelsWatcher(cfg, s, w);
    case Other(o) =>
  }

  predicate Transitions(m: MainStep) {
    m == LockFails || m == GoRunning || m == GoShuttingDown || m == GoStopped
  }

  lemma DaemonLockedOut(cfg: Config, s: System)
    requires OrderlyDaemon(cfg, s) && MainEnabled(cfg, s, LockFails) && HandlerBorn(s)
    ensures OrderlyDaemon(cfg, MainApply(cfg, s, LockFails))
  {
    hide BeginOn;
  }

  lemma DaemonTransition(cfg: Config, s: System, m: MainStep)
    requires OrderlyDaemon(cfg, s) && MainEnabled(cfg, s, m) && HandlerBorn(s)
    requires m == GoRunning || m == GoShuttingDown || m == GoStopped
    ensures OrderlyDaemon(cfg, MainApply(cfg, s, m))
  {
    hide BeginOn;
  }

  lemma DaemonMain(cfg: Config, s: System, m: MainStep)
    requires OrderlyDaemon(cfg, s) && MainEnabled(cfg, s, m) && HandlerBorn(s)
    ensures OrderlyDaemon(cfg, MainApply(cfg, s, m))
  {
    hide MainEnabled, MainApply, OrderlyDaemon;
    if m == LockFails {
      DaemonLockedOut(cfg, s);
    } else if Transitions(m) {
      DaemonTransition(cfg, s, m);
    } else {
      DaemonFrame(cfg, s, m);
    }
  }

  lemma DaemonFrame(cfg: Config, s: System, m: MainStep)
    requires OrderlyDaemon(cfg, s) && MainEnabled(cfg, s, m) && HandlerBorn(s) && !Transitions(m)
    ensures OrderlyDaemon(cfg, MainApply(cfg, s, m))
  {
    hide BeginOn, SetState, ExpectedObserved, MainEnabled;
    assert s.main == At(m) by {
      MainIsAt(cfg, s, m);
    }
    ObservedOnlyByTransitions(m);
  }

  lemma MainIsAt(cfg: Config, s: System, m: MainStep)
    requires MainEnabled(cfg, s, m)
    ensures s.main == At(m)
  {
  }

  lemma ObservedOnlyByTransitions(m: MainStep)
    requires !Transitions(m)
    ensures forall pc :: Line(pc) == Line(At(m)) + 1 || (m == SkipCleanup && pc == EnterStopped) ==>
      ExpectedObserved(pc) == ExpectedObserved(At(m))
  {
  }

  lemma TeardownMain(cfg: Config, s: System, m: MainStep)
    requires OrderlyTeardown(cfg, s) && MainEnabled(cfg, s, m)
    requires s.main == BeginCleanup ==> s.daemon.state == ShuttingDown
    requires HandlerBorn(s)
    ensures OrderlyTeardown(cfg, MainApply(cfg, s, m))
  {
    hide SetState;
  }

  lemma OrderlyMain(cfg: Config, s: System, m: MainStep)
    requires Orderly(cfg, s) && Channels(cfg, s) && MainEnabled(cfg, s, m)
    ensures Orderly(cfg, MainApply(cfg, s, m))
  {
    hide MainEnabled, MainApply;
    DaemonMain(cfg, s, m);
    TeardownMain(cfg, s, m);
  }

  lemma OrderlyHandler(cfg: Config, s: System, h: HandlerStep)
    requires Orderly(cfg, s) && HandlerEnabled(cfg, s, h) && h != TooEarly
    ensures Orderly(cfg, HandlerApply(s, h))
  {
  }

  lemma OrderlyStep(cfg: Config, s: System, l: Label)
    requires Orderly(cfg, s) && Channels(cfg, s) && Enabled(cfg, s, l) && l != Handler(TooEarly)
    ensures Orderly(cfg, Apply(cfg, s, l))
  {
    hide MainEnabled, MainApply, HandlerEnabled, HandlerApply, Channels, ExpectedDaemon;
    match l
    case Main(m) => OrderlyMain(cfg, s, m);
    case Handler(h) => OrderlyHandler(cfg, s, h);
    case Watch(w) =>
    case Other(o) =>
  }

  lemma NoLostSignalHandler(cfg: Config, s: System, h: HandlerStep)
    requires NoLostSignal(s) && Channels(cfg, s) && HandlerEnabled(cfg, s, h)
    ensures NoLostSignal(HandlerApply(s, h))
  {
  }

  lemma NoLostSignalMain(cfg: Config, s: System, m: MainStep)
    requires NoLostSignal(s) && Channels(cfg, s) && MainEnabled(cfg, s, m)
    ensures NoLostSignal(MainApply(cfg, s, m))
  {
  }

  lemma NoLostSignalStep(cfg: Config, s: System, l: Label)
    requires NoLostSignal(s) && Channels(cfg, s) && Enabled(cfg, s, l)
    ensures NoLostSignal(Apply(cfg, s, l))
  {
    hide MainEnabled, MainApply, HandlerEnabled, HandlerApply, Channels;
    match l
    case Main(m) => NoLostSignalMain(cfg, s, m);
    case Handler(h) => NoLostSignalHandler(cfg, s, h);
    case Watch(w) =>
    case Other(o) =>
  }

  lemma EarlySticks(cfg: Config, s: System, l: Label)
    requires Enabled(cfg, s, l)
    ensures Apply(cfg, s, l).early <==> s.early || l == Handler(TooEarly)
  {
  }

  lemma InvariantsStart(cfg: Config)
    ensures Channels(cfg, Init(cfg)) && NoLostSignal(Init(cfg)) && Orderly(cfg, Init(cfg))
  {
  }

  ghost predicate Inv(cfg: Config, s: System) {
    Channels(cfg, s) && NoLostSignal(s) && (!s.early ==> Orderly(cfg, s))
  }

  lemma InvStep(cfg: Config, s: System, l: Label)
    requires Inv(cfg, s) && Enabled(cfg, s, l)
    ensures Inv(cfg, Apply(cfg, s, l))
  {
    hide Channels, NoLostSignal, Orderly, Enabled, Apply;
    ChannelsStep(cfg, s, l);
    NoLostSignalStep(cfg, s, l);
    EarlySticks(cfg, s, l);
    if !Apply(cfg, s, l).early {
      OrderlyStep(cfg, s, l);
    }
  }

  lemma {:induction false} InvSteps(cfg: Config, s: System, labels: seq<Label>)
    requires Inv(cfg, s) && Steps(cfg, s, labels).Some?
    ensures Inv(cfg, Steps(cfg, s, labels).value)
    decreases labels
  {
    hide Inv, Enabled, Apply;
    if labels != [] {
      InvStep(cfg, s, labels[0]);
      InvSteps(cfg, Apply(cfg, s, labels[0]), labels[1..]);
    }
  }

  lemma Invariants(cfg: Config, labels: seq<Label>, s: System)
    requires Reached(cfg, labels, s)
    ensures Inv(cfg, s)
  {
    InvariantsStart(cfg);
    InvSteps(cfg, Init(cfg), labels);
  }

  /** In every interleaving, early exits included, no channel is closed twice. */
  lemma ClosedAtMostOnce(cfg: Config, labels: seq<Label>, s: System)
    requires Reached(cfg, labels, s)
    ensures s.closes.gate <= 1 && s.closes.received <= 1 && s.closes.done <= 1
  {
    Invariants(cfg, labels, s);
  }

  /** When each channel is closed: the gate once main waits, the signal only after
      that, and the watcher's end once it is gone or there is none to wait for. */
  lemma ClosedWhen(cfg: Config, labels: seq<Label>, s: System)
    requires Reached(cfg, labels, s)
    ensures s.closes.gate == (if Line(s.main) >= Line(Waiting) && !LockedOut(s) then 1 else 0)
    ensures s.closes.received == 1 ==> s.closes.gate == 1 && s.handler == Finished
    ensures s.closes.done == 1 <==>
      if cfg.hasWatcher then s.watcher == Gone else Line(s.main) > Line(LaunchWatcher) && !LockedOut(s)
  {
    Invariants(cfg, labels, s);
  }

  /** In every interleaving without an early exit: readiness is published only
      while Running; the observed states are a prefix of the one lifecycle (or
      the failure to lock); cleanup starts at most once, in ShuttingDown, under
      the PID lock. */
  lemma OrderlyRuns(cfg: Config, labels: seq<Label>, s: System)
    requires Reached(cfg, labels, s) && !s.early
    ensures s.daemon.ready ==> s.daemon.state == Running
    ensures s.daemon.observed <= [Starting, Running, ShuttingDown, Stopped] || s.daemon.observed == [Starting, Failed]
    ensures s.teardown.starts == [] || (cfg.runsCleanup && s.teardown.starts == [ShuttingDown])
    ensures s.main == AwaitCleanup ==> s.daemon.pidLocked && s.daemon.state == ShuttingDown
  {
    Invariants(cfg, labels, s);
  }

  lemma WaitSticks(cfg: Config, s: System, l: Label)
    requires Inv(cfg, s) && Enabled(cfg, s, l) && s.teardown.wait == SawDone
    ensures Apply(cfg, s, l).teardown.wait == SawDone
    ensures l != Watch(WatchCall)
  {
    hide NoLostSignal, Orderly, SetState, MainApply, HandlerEnabled, HandlerBorn;
    if l.Main? {
      MainKeepsWait(cfg, s, l.m);
    }
  }

  lemma MainKeepsWait(cfg: Config, s: System, m: MainStep)
    requires MainEnabled(cfg, s, m) && s.teardown.wait == SawDone && Line(s.main) >= Line(BeginCleanup)
    ensures MainApply(cfg, s, m).teardown.wait == SawDone
  {
    hide SetState;
  }

  /** Once main has seen the watcher finish, no continuation of the run starts a
      refresh callback, and none is in progress. */
  lemma {:induction false} NoCallbackAfterDone(cfg: Config, s: System, labels: seq<Label>)
    requires Inv(cfg, s) && s.teardown.wait == SawDone && Steps(cfg, s, labels).Some?
    ensures Watch(WatchCall) !in labels
    ensures !InCallback(Steps(cfg, s, labels).value.watcher)
    decreases labels
  {
    if labels == [] {
      assert Channels(cfg, s);
    } else {
      hide Inv, Enabled, Apply;
      WaitSticks(cfg, s, labels[0]);
      InvStep(cfg, s, labels[0]);
      NoCallbackAfterDone(cfg, Apply(cfg, s, labels[0]), labels[1..]);
      assert labels == [labels[0]] + labels[1..];
    }
  }

  lemma {:induction false} SawDoneSticks(cfg: Config, s: System, labels: seq<Label>)
    requires Inv(cfg, s) && s.teardown.wait == SawDone && Steps(cfg, s, labels).Some?
    ensures Steps(cfg, s, labels).value.teardown.wait == SawDone
    decreases labels
  {
    hide Inv, Enabled, Apply;
    if labels != [] {
      WaitSticks(cfg, s, labels[0]);
      InvStep(cfg, s, labels[0]);
      SawDoneSticks(cfg, Apply(cfg, s, labels[0]), labels[1..]);
    }
  }

  lemma SeeingDoneIsNoted(cfg: Config, s: System)
    requires Enabled(cfg, s, Main(SeeWatcherDone))
    ensures Apply(cfg, s, Main(SeeWatcherDone)).teardown.wait == SawDone
  {
  }

  /** A wait that ended because the watcher was done is known to have. */
  lemma {:induction false} WaitIsNoted(cfg: Config, s: System, labels: seq<Label>)
    requires Inv(cfg, s) && Steps(cfg, s, labels).Some? && Main(SeeWatcherDone) in labels
    ensures Steps(cfg, s, labels).value.teardown.wait == SawDone
    decreases labels
  {
    hide Inv, Enabled, Apply;
    InvStep(cfg, s, labels[0]);
    if labels[0] == Main(SeeWatcherDone) {
      SeeingDoneIsNoted(cfg, s);
      SawDoneSticks(cfg, Apply(cfg, s, labels[0]), labels[1..]);
    } else {
      assert labels == [labels[0]] + labels[1..];
      WaitIsNoted(cfg, Apply(cfg, s, labels[0]), labels[1..]);
    }
  }

  /** A cleanup main starts after the watcher was seen to finish overlaps no
      refresh callback and is followed by none, however the run goes on. */
  lemma CleanupFollowsCallbacks(cfg: Config, before: seq<Label>, s: System, after: seq<Label>)
    requires Reached(cfg, before, s) && s.main == BeginCleanup && Main(SeeWatcherDone) in before
    requires Steps(cfg, s, after).Some?
    ensures !InCallback(s.watcher)
    ensures Watch(WatchCall) !in after && !InCallback(Steps(cfg, s, after).value.watcher)
  {
    Invariants(cfg, before, s);
    InvariantsStart(cfg);
    WaitIsNoted(cfg, Init(cfg), before);
    NoCallbackAfterDone(cfg, s, after);
    NoCallbackAfterDone(cfg, s, []);
  }
}
