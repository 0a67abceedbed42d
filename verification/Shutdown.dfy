/** Where the order proved in Lifecycle ends, and that shutdown makes progress:
    exact conditions and bounds over all continuations of a run of the daemon. */
module Shutdown {
  import opened Strings
  import opened Lifecycle

  /** Some run leads from `s` to `t`. */
  ghost predicate Leads(cfg: Config, s: System, t: System) {
    exists labels :: Steps(cfg, s, labels) == Some(t)
  }

  lemma LeadsNowhere(cfg: Config, s: System)
    ensures Leads(cfg, s, s)
  {
    assert Steps(cfg, s, []) == Some(s);
  }

  lemma {:induction false} StepsPush(cfg: Config, s: System, labels: seq<Label>, t: System, l: Label)
    requires Steps(cfg, s, labels) == Some(t) && Enabled(cfg, t, l)
    ensures Steps(cfg, s, labels + [l]) == Some(Apply(cfg, t, l))
    decreases labels
  {
    hide Enabled, Apply;
    if labels == [] {
      assert labels + [l] == [l] && [l][1..] == [];
      assert Steps(cfg, Apply(cfg, t, l), []) == Some(Apply(cfg, t, l));
    } else {
      assert (labels + [l])[1..] == labels[1..] + [l];
      StepsPush(cfg, Apply(cfg, s, labels[0]), labels[1..], t, l);
    }
  }

  /** Extends a run by one step. */
  lemma Go(cfg: Config, s: System, t: System, l: Label) returns (u: System)
    requires Leads(cfg, s, t) && Enabled(cfg, t, l)
    ensures Leads(cfg, s, u) && u == Apply(cfg, t, l)
  {
    hide Enabled, Apply;
    var labels :| Steps(cfg, s, labels) == Some(t);
    u := Apply(cfg, t, l);
    StepsPush(cfg, s, labels, t, l);
    assert Steps(cfg, s, labels + [l]) == Some(u);
  }

  lemma ReachedLeads(cfg: Config, t: System)
    requires Leads(cfg, Init(cfg), t)
    ensures Inv(cfg, t) && Marks(cfg, t)
  {
    hide Inv, Marks;
    var labels :| Steps(cfg, Init(cfg), labels) == Some(t);
    Invariants(cfg, labels, t);
    MarksStart(cfg);
    MarksSteps(cfg, Init(cfg), labels);
  }

  lemma MarksStart(cfg: Config)
    ensures Marks(cfg, Init(cfg))
  {
  }

  /** The watcher's context stays cancelled once main has cancelled it, cleanups
      running have been started, and only the early branch leaves the process. */
  ghost predicate Marks(cfg: Config, s: System) {
    && (Line(CancelWatcher) < Line(s.main) < Line(Returned) ==> s.inputs.watcherCtxDone)
    && s.teardown.active <= |s.teardown.starts| && (s.teardown.starts != [] ==> cfg.runsCleanup)
    && (s.exited ==> s.early)
    && (InEarlyBranch(s.handler) ==> s.early)
  }

  lemma MarksMain(cfg: Config, s: System, m: MainStep)
    requires Marks(cfg, s) && MainEnabled(cfg, s, m)
    ensures Marks(cfg, MainApply(cfg, s, m))
  {
    hide SetState;
  }

  lemma MarksStep(cfg: Config, s: System, l: Label)
    requires Marks(cfg, s) && Enabled(cfg, s, l)
    ensures Marks(cfg, Apply(cfg, s, l))
  {
    hide MainEnabled, MainApply, SetState;
    if l.Main? {
      MarksMain(cfg, s, l.m);
    }
  }

  lemma {:induction false} MarksSteps(cfg: Config, s: System, labels: seq<Label>)
    requires Marks(cfg, s) && Steps(cfg, s, labels).Some?
    ensures Marks(cfg, Steps(cfg, s, labels).value)
    decreases labels
  {
    hide Marks, Enabled, Apply;
    if labels != [] {
      MarksStep(cfg, s, labels[0]);
      MarksSteps(cfg, Apply(cfg, s, labels[0]), labels[1..]);
    }
  }

  /** Whatever wakes main has been told of a signal or the context. */
  ghost predicate Caused(s: System) {
    && (s.inputs.pending ==> s.inputs.signalled)
    && (s.handler == Unborn ==> !s.early)
    && (s.handler == GotSignal ==> s.inputs.signalled)
    && (s.handler == GotContext ==> s.inputs.ctxDone)
    && (s.closes.received > 0 ==> s.inputs.signalled || s.inputs.ctxDone)
    && (Line(s.main) > Line(Waiting) && !LockedOut(s) ==> s.inputs.signalled || s.inputs.ctxDone)
  }

  lemma CausedMain(cfg: Config, s: System, m: MainStep)
    requires Caused(s) && HandlerBorn(s) && MainEnabled(cfg, s, m)
    ensures Caused(MainApply(cfg, s, m))
  {
    hide SetState, BeginOn;
  }

  lemma CausedStep(cfg: Config, s: System, l: Label)
    requires Caused(s) && HandlerBorn(s) && Enabled(cfg, s, l)
    ensures Caused(Apply(cfg, s, l))
  {
    hide MainEnabled, MainApply, HandlerEnabled, HandlerApply, WatcherEnabled, WatcherApply, HandlerBorn;
    hide OtherEnabled, OtherApply, Caused;
    match l
    case Main(m) => CausedMain(cfg, s, m);
    case Handler(h) => CausedHandler(cfg, s, h);
    case Watch(w) => CausedWatcher(s, w);
    case Other(o) => CausedOther(s, o);
  }

  lemma CausedWatcher(s: System, w: WatcherStep)
    requires Caused(s) && WatcherEnabled(s, w)
    ensures Caused(WatcherApply(s, w))
  {
  }

  lemma CausedOther(s: System, o: OtherStep)
    requires Caused(s) && OtherEnabled(s, o)
    ensures Caused(OtherApply(s, o))
  {
  }

  lemma CausedHandler(cfg: Config, s: System, h: HandlerStep)
    requires Caused(s) && HandlerEnabled(cfg, s, h)
    ensures Caused(HandlerApply(s, h))
  {
    hide SetState, BeginOn;
  }

  lemma {:induction false} CausedSteps(cfg: Config, s: System, labels: seq<Label>)
    requires Inv(cfg, s) && Caused(s) && Steps(cfg, s, labels).Some?
    ensures Caused(Steps(cfg, s, labels).value)
    decreases labels
  {
    hide Inv, Caused, Enabled, Apply, HandlerBorn;
    if labels != [] {
      InvFacts(cfg, s);
      CausedStep(cfg, s, labels[0]);
      InvStep(cfg, s, labels[0]);
      CausedSteps(cfg, Apply(cfg, s, labels[0]), labels[1..]);
    }
  }

  /** The daemon shuts down only after a signal or once its context is done, unless
      it could not get the PID lock in the first place. */
  lemma ShutdownHasACause(cfg: Config, labels: seq<Label>, s: System)
    requires Reached(cfg, labels, s) && Line(s.main) > Line(Waiting)
    ensures s.inputs.signalled || s.inputs.ctxDone || (LockedOut(s) && s.daemon.state == Failed)
  {
    hide Steps;
    InvariantsStart(cfg);
    CausedSteps(cfg, Init(cfg), labels);
    Invariants(cfg, labels, s);
  }

  /** Main goes on to Stopped only when its cleanup is over or has had its time. */
  lemma WaitsForCleanup(cfg: Config, s: System, l: Label)
    requires Enabled(cfg, s, l) && s.main == AwaitCleanup && Apply(cfg, s, l).main != AwaitCleanup
    ensures l == Main(CleanupTimeout) || s.teardown.active == 0
  {
  }

  /** Neither the handler, once it has taken something, nor a started watcher is ever
      stuck. */
  lemma NobodyIsStuck(cfg: Config, s: System)
    requires !s.exited
    ensures s.handler == Unborn || s.handler == Finished || (exists h :: Enabled(cfg, s, Handler(h)))
         || (s.handler == Listening && !s.inputs.pending && !s.inputs.ctxDone)
    ensures s.watcher == NotStarted || s.watcher == Gone || exists w :: Enabled(cfg, s, Watch(w))
  {
    var h := match s.handler
      case Listening => if s.inputs.pending then TakeSignal else TakeContext
      case GotSignal => if s.closes.gate > 0 then Forward else TooEarly
      case GotContext => if s.closes.gate > 0 then Forward else DropContext
      case EarlyNotReady => EarlyClearReady
      case EarlyShutdown => EarlyGoShuttingDown
      case EarlyCleanup => if cfg.runsCleanup then EarlySpawnCleanup else EarlySkipCleanup
      case EarlyAwait => EarlyCleanupOver
      case _ => EarlyGoStopped;
    assert Enabled(cfg, s, Handler(h)) || s.handler == Unborn || s.handler == Finished
        || (s.handler == Listening && !s.inputs.pending && !s.inputs.ctxDone);
    var w := match s.watcher
      case Checking => if s.inputs.watcherCtxDone then WatchRefuse else WatchBegin
      case Baselining => WatchBaseline
      case Idle => if s.inputs.watcherCtxDone then WatchQuit else WatchTick
      case Probing => WatchProbed
      case Deciding => WatchSkip
      case Calling => WatchRecheck
      case Regenerating => WatchRegenerated
      case _ => WatchClose;
    assert Enabled(cfg, s, Watch(w)) || s.watcher == NotStarted || s.watcher == Gone;
  }

  /** The watcher's moves while its context lives, and once it is cancelled. */
  predicate WatcherMove(s: System, next: WatcherPc) {
    (s.watcher, next) in
      if s.inputs.watcherCtxDone then
        {(Checking, Closing), (Baselining, Idle), (Idle, Closing), (Probing, Idle), (Deciding, Idle),
         (Deciding, Calling), (Calling, Idle), (Regenerating, Idle), (Closing, Gone)}
      else
        {(Checking, Baselining), (Baselining, Idle), (Idle, Probing), (Probing, Deciding), (Deciding, Idle),
         (Deciding, Calling), (Calling, Regenerating), (Regenerating, Idle), (Closing, Gone)}
  }

  /** The handler's moves, with the gate closed and open. */
  predicate HandlerMove(cfg: Config, s: System, next: HandlerPc) {
    match s.handler
    case Listening => (next == GotSignal && s.inputs.pending) || (next == GotContext && s.inputs.ctxDone)
    case GotSignal => next == if s.closes.gate > 0 then Finished else EarlyNotReady
    case GotContext => next == Finished
    case EarlyNotReady => next == EarlyShutdown
    case EarlyShutdown => next == HandlerPc.EarlyCleanup
    case EarlyCleanup => next == if cfg.runsCleanup then EarlyAwait else EarlyStopped
    case EarlyAwait => next == EarlyStopped
    case EarlyStopped => next == Finished
    case _ => false
  }

  /** They make these moves ... */
  lemma MovesMade(cfg: Config, s: System, w: WatcherStep, h: HandlerStep)
    ensures WatcherEnabled(s, w) ==> WatcherMove(s, WatcherApply(s, w).watcher)
    ensures HandlerEnabled(cfg, s, h) ==> HandlerMove(cfg, s, HandlerApply(s, h).handler)
  {
    hide SetState, BeginOn;
  }

  /** ... and can make each of them. */
  lemma WatcherCanMove(s: System, next: WatcherPc)
    requires WatcherMove(s, next)
    ensures exists w :: WatcherEnabled(s, w) && WatcherApply(s, w).watcher == next
  {
    var w := match s.watcher
      case Checking => if next == Closing then WatchRefuse else WatchBegin
      case Baselining => WatchBaseline
      case Idle => if next == Closing then WatchQuit else WatchTick
      case Probing => WatchProbed
      case Deciding => if next == Idle then WatchSkip else WatchCall
      case Calling => WatchRecheck
      case Regenerating => WatchRegenerated
      case _ => WatchClose;
    assert WatcherEnabled(s, w) && WatcherApply(s, w).watcher == next;
  }

  lemma HandlerCanMove(cfg: Config, s: System, next: HandlerPc)
    requires HandlerMove(cfg, s, next)
    ensures exists h :: HandlerEnabled(cfg, s, h) && HandlerApply(s, h).handler == next
  {
    hide SetState, BeginOn;
    var h := match s.handler
      case Listening => if next == GotSignal then TakeSignal else TakeContext
      case GotSignal => if s.closes.gate > 0 then Forward else TooEarly
      case GotContext => if s.closes.gate > 0 then Forward else DropContext
      case EarlyNotReady => EarlyClearReady
      case EarlyShutdown => EarlyGoShuttingDown
      case EarlyCleanup => if cfg.runsCleanup then EarlySpawnCleanup else EarlySkipCleanup
      case EarlyAwait => EarlyCleanupOver
      case _ => EarlyGoStopped;
    assert HandlerEnabled(cfg, s, h) && HandlerApply(s, h).handler == next;
  }

  /** What is left of a cancelled watcher's work. */
  function WatcherLeft(pc: WatcherPc): nat {
    match pc
    case Deciding => 4
    case Baselining => 3
    case Probing => 3
    case Calling => 3
    case Regenerating => 3
    case Checking => 2
    case Idle => 2
    case Closing => 1
    case _ => 0
  }

  /** Cancelled, the watcher ends after four steps of its own at most. */
  lemma CancelledWatcherEnds(cfg: Config, s: System, l: Label)
    requires Enabled(cfg, s, l) && s.inputs.watcherCtxDone && l.Watch?
    ensures var t := Apply(cfg, s, l);
      t.inputs == s.inputs && WatcherLeft(t.watcher) < WatcherLeft(s.watcher)
      && (t.watcher == Gone <==> t.closes.done == s.closes.done + 1)
  {
  }

  /** What is left of an early exit. */
  function EarlyLeft(pc: HandlerPc): nat {
    match pc
    case EarlyNotReady => 5
    case EarlyShutdown => 4
    case EarlyCleanup => 3
    case EarlyAwait => 2
    case EarlyStopped => 1
    case _ => 0
  }

  /** An early exit is carried through: five steps of the handler at most end the
      process, and nothing else moves it. */
  lemma EarlyExitEnds(cfg: Config, s: System, l: Label)
    requires Enabled(cfg, s, l) && InEarlyBranch(s.handler) && s.main != Spawning
    ensures var t := Apply(cfg, s, l);
      if l.Handler? then t.exited || (InEarlyBranch(t.handler) && EarlyLeft(t.handler) < EarlyLeft(s.handler))
      else t.handler == s.handler && !t.exited
  {
    hide SetState, BeginOn;
  }

  /** No callback runs, and none can start: the decision to make one comes after
      a check of the cancelled context. */
  ghost predicate CallsOver(s: System) {
    Line(s.main) > Line(LaunchWatcher) && s.inputs.watcherCtxDone && !InCallback(s.watcher) && s.watcher != Deciding
  }

  lemma CallsStayOverMain(cfg: Config, s: System, m: MainStep)
    requires CallsOver(s) && MainEnabled(cfg, s, m)
    ensures CallsOver(MainApply(cfg, s, m))
  {
    hide SetState, BeginOn;
  }

  lemma CallsStayOverWatcher(cfg: Config, s: System, w: WatcherStep)
    requires CallsOver(s) && WatcherEnabled(s, w)
    ensures CallsOver(WatcherApply(s, w))
  {
  }

  lemma CallsStayOver(cfg: Config, s: System, l: Label)
    requires CallsOver(s) && Enabled(cfg, s, l)
    ensures CallsOver(Apply(cfg, s, l))
  {
    hide MainEnabled, MainApply, WatcherEnabled, WatcherApply, HandlerEnabled, SetState, BeginOn;
    match l
    case Main(m) => CallsStayOverMain(cfg, s, m);
    case Watch(w) => CallsStayOverWatcher(cfg, s, w);
    case Handler(h) =>
    case Other(o) =>
  }

  lemma {:induction false} NoCallsOnceOver(cfg: Config, s: System, labels: seq<Label>)
    requires CallsOver(s) && Steps(cfg, s, labels).Some?
    ensures !InCallback(Steps(cfg, s, labels).value.watcher)
    decreases labels
  {
    hide Enabled, Apply;
    if labels != [] {
      CallsStayOver(cfg, s, labels[0]);
      NoCallsOnceOver(cfg, Apply(cfg, s, labels[0]), labels[1..]);
    }
  }

  /** When main starts the cleanup, whatever ended its wait, a refresh callback can
      overlap or follow it if and only if the watcher is in one or has already
      decided to make one; and then it can overlap the running cleanup itself. */
  lemma CallbackAfterCleanup(cfg: Config, labels: seq<Label>, s: System)
    requires Reached(cfg, labels, s) && s.main == BeginCleanup && cfg.runsCleanup && !s.exited
    ensures var begun := Apply(cfg, s, Main(SpawnCleanup));
      && ((exists t :: Leads(cfg, begun, t) && InCallback(t.watcher))
          <==> InCallback(s.watcher) || s.watcher == Deciding)
      && ((exists t :: Leads(cfg, begun, t) && InCallback(t.watcher) && t.teardown.active > 0)
          <==> InCallback(s.watcher) || s.watcher == Deciding)
  {
    hide Inv, Steps;
    var begun := Apply(cfg, s, Main(SpawnCleanup));
    assert Leads(cfg, Init(cfg), s);
    ReachedLeads(cfg, s);
    LeadsNowhere(cfg, begun);
    if s.watcher == Deciding {
      var t := Go(cfg, begun, begun, Watch(WatchCall));
      assert InCallback(t.watcher) && t.teardown.active > 0;
    } else if !InCallback(s.watcher) {
      forall t | Leads(cfg, begun, t)
        ensures !InCallback(t.watcher)
      {
        var more :| Steps(cfg, begun, more) == Some(t);
        NoCallsOnceOver(cfg, begun, more);
      }
    }
  }

  /** Past the cancellation nothing starts to regenerate: the callback checks the
      context itself. */
  ghost predicate NotRegenerating(s: System) {
    Line(s.main) > Line(LaunchWatcher) && s.inputs.watcherCtxDone && s.watcher != Regenerating
  }

  lemma NotRegeneratingMain(cfg: Config, s: System, m: MainStep)
    requires NotRegenerating(s) && MainEnabled(cfg, s, m)
    ensures NotRegenerating(MainApply(cfg, s, m))
  {
    hide SetState, BeginOn;
  }

  lemma NotRegeneratingWatcher(s: System, w: WatcherStep)
    requires NotRegenerating(s) && WatcherEnabled(s, w)
    ensures NotRegenerating(WatcherApply(s, w))
  {
  }

  lemma NotRegeneratingStep(cfg: Config, s: System, l: Label)
    requires NotRegenerating(s) && Enabled(cfg, s, l)
    ensures NotRegenerating(Apply(cfg, s, l))
  {
    hide MainEnabled, MainApply, WatcherEnabled, WatcherApply, HandlerEnabled, SetState, BeginOn;
    match l
    case Main(m) => NotRegeneratingMain(cfg, s, m);
    case Watch(w) => NotRegeneratingWatcher(s, w);
    case Handler(h) =>
    case Other(o) =>
  }

  lemma {:induction false} NoRegenerationStarts(cfg: Config, s: System, labels: seq<Label>)
    requires NotRegenerating(s) && Steps(cfg, s, labels).Some?
    ensures Steps(cfg, s, labels).value.watcher != Regenerating
    decreases labels
  {
    hide Enabled, Apply;
    if labels != [] {
      NotRegeneratingStep(cfg, s, labels[0]);
      NoRegenerationStarts(cfg, Apply(cfg, s, labels[0]), labels[1..]);
    }
  }

  /** A cleanup of main's is running. */
  ghost predicate CleaningUp(t: System) {
    t.main == AwaitCleanup && t.teardown.active > 0
  }

  /** What the daemon does with a callback, writing specs, can overlap or follow
      main's cleanup if and only if the callback was past its own check of the
      context when main cancelled that. */
  lemma RegenerationAfterCleanup(cfg: Config, labels: seq<Label>, s: System)
    requires Reached(cfg, labels, s) && s.main == CancelWatcher && cfg.runsCleanup && !s.exited
    ensures var cancelled := Apply(cfg, s, Main(StopWatcher));
      && ((exists t :: Leads(cfg, cancelled, t) && t.watcher == Regenerating && Line(t.main) > Line(BeginCleanup))
          <==> s.watcher == Regenerating)
      && ((exists t :: Leads(cfg, cancelled, t) && t.watcher == Regenerating && CleaningUp(t))
          <==> s.watcher == Regenerating)
  {
    hide Steps, SetState;
    var cancelled := Apply(cfg, s, Main(StopWatcher));
    LeadsNowhere(cfg, cancelled);
    if s.watcher == Regenerating {
      var t := Go(cfg, cancelled, cancelled, Main(WatcherTimeout));
      t := Go(cfg, cancelled, t, Main(SpawnCleanup));
      assert t.watcher == Regenerating && CleaningUp(t);
    } else {
      forall t | Leads(cfg, cancelled, t)
        ensures t.watcher != Regenerating
      {
        var more :| Steps(cfg, cancelled, more) == Some(t);
        NoRegenerationStarts(cfg, cancelled, more);
      }
    }
  }

  /** The daemon comes up and serves. */
  lemma Serving(cfg: Config) returns (t: System)
    ensures Leads(cfg, Init(cfg), t) && t.main == Waiting && t.handler == Listening && t.closes.gate == 1
    ensures !t.early && !t.exited && t.watcher == if cfg.hasWatcher then Checking else NotStarted
    ensures !t.inputs.watcherCtxDone
  {
    hide Leads, SetState;
    var s := Init(cfg);
    LeadsNowhere(cfg, s);
    t := Go(cfg, s, s, Main(LockOk));
    t := Go(cfg, s, t, Main(Spawn));
    t := Go(cfg, s, t, Main(GoRunning));
    t := OpeningTheGate(cfg, s, t);
  }

  lemma OpeningTheGate(cfg: Config, s: System, t: System) returns (u: System)
    requires Leads(cfg, s, t) && t.main == PublishReady && !t.exited
    ensures Leads(cfg, s, u) && u.main == Waiting && u.handler == t.handler
    ensures u.closes.gate == t.closes.gate + 1 && u.inputs == t.inputs && u.early == t.early && !u.exited
    ensures u.watcher == if cfg.hasWatcher then Checking else t.watcher
  {
    hide Leads;
    u := Go(cfg, s, t, Main(GoReady));
    u := Go(cfg, s, u, Main(StartWatcher));
    u := Go(cfg, s, u, Main(CloseGate));
  }

  /** The watcher finds a change, calls back, and specs are written. */
  lemma CallingBack(cfg: Config, s: System, t: System) returns (u: System)
    requires Leads(cfg, s, t) && t.watcher == Checking && !t.inputs.watcherCtxDone && !t.exited
    ensures Leads(cfg, s, u) && u == t.(watcher := Regenerating)
  {
    hide Leads;
    u := Go(cfg, s, t, Watch(WatchBegin));
    u := Go(cfg, s, u, Watch(WatchBaseline));
    u := Go(cfg, s, u, Watch(WatchTick));
    u := Go(cfg, s, u, Watch(WatchProbed));
    u := Go(cfg, s, u, Watch(WatchCall));
    u := Go(cfg, s, u, Watch(WatchRecheck));
  }

  /** Once awake, main can time out on the watcher and start its cleanup. */
  lemma ImpatientShutdown(cfg: Config, s: System, t: System) returns (u: System)
    requires Leads(cfg, s, t) && t.main == ClearReady && cfg.runsCleanup && !t.exited
    ensures Leads(cfg, s, u) && u.watcher == t.watcher && u.early == t.early
    ensures u.teardown.active > 0 && |u.teardown.starts| == |t.teardown.starts| + 1
  {
    hide Leads, SetState;
    u := Go(cfg, s, t, Main(NotReady));
    u := Go(cfg, s, u, Main(GoShuttingDown));
    u := Go(cfg, s, u, Main(StopWatcher));
    u := Go(cfg, s, u, Main(WatcherTimeout));
    u := Go(cfg, s, u, Main(SpawnCleanup));
  }

  /** Even without an early exit, specs are written during a running cleanup in some
      run of the daemon exactly when it has a watcher and cleans up. */
  lemma TimeoutAllowsOverlap(cfg: Config)
    ensures (exists t :: Leads(cfg, Init(cfg), t) && !t.early && t.watcher == Regenerating && t.teardown.active > 0)
      <==> cfg.hasWatcher && cfg.runsCleanup
  {
    hide Leads;
    if cfg.hasWatcher && cfg.runsCleanup {
      var t := Serving(cfg);
      t := CallingBack(cfg, Init(cfg), t);
      t := Go(cfg, Init(cfg), t, Other(ContextCancelled));
      t := Go(cfg, Init(cfg), t, Main(WakeByContext));
      t := ImpatientShutdown(cfg, Init(cfg), t);
    }
    forall t | Leads(cfg, Init(cfg), t) && !t.early && t.watcher == Regenerating && t.teardown.active > 0
      ensures cfg.hasWatcher && cfg.runsCleanup
    {
      ReachedLeads(cfg, t);
    }
  }

  /** Readiness is published only while Running, and there is one cleanup at most,
      started in ShuttingDown. */
  ghost predicate InOrder(s: System) {
    && (s.daemon.ready ==> s.daemon.state == Running)
    && (s.teardown.starts == [] || s.teardown.starts == [ShuttingDown])
  }

  ghost predicate CanBreakOrder(cfg: Config, s: System) {
    exists t :: Leads(cfg, s, t) && !InOrder(t)
  }

  /** The handler may still find the gate closed with a signal in its hands. */
  predicate EarlyExitAhead(s: System) {
    && s.closes.gate == 0 && !LockedOut(s)
    && (s.handler == Unborn || s.handler == Listening || s.handler == GotSignal)
  }

  lemma NoEarlyExitMain(cfg: Config, s: System, m: MainStep)
    requires HandlerBorn(s) && !s.early && !EarlyExitAhead(s) && MainEnabled(cfg, s, m)
    ensures !MainApply(cfg, s, m).early && !EarlyExitAhead(MainApply(cfg, s, m))
  {
    hide SetState, BeginOn;
  }

  lemma NoEarlyExit(cfg: Config, s: System, l: Label)
    requires HandlerBorn(s) && !s.early && !EarlyExitAhead(s) && Enabled(cfg, s, l)
    ensures !Apply(cfg, s, l).early && !EarlyExitAhead(Apply(cfg, s, l))
  {
    hide MainEnabled, MainApply, SetState, BeginOn, HandlerBorn;
    if l.Main? {
      NoEarlyExitMain(cfg, s, l.m);
    }
  }

  lemma InvFacts(cfg: Config, s: System)
    requires Inv(cfg, s)
    ensures Channels(cfg, s) && HandlerBorn(s) && (!s.early ==> InOrder(s))
  {
  }

  lemma {:induction false} OrderIsKept(cfg: Config, s: System, labels: seq<Label>)
    requires Inv(cfg, s) && !s.early && !EarlyExitAhead(s) && Steps(cfg, s, labels).Some?
    ensures InOrder(Steps(cfg, s, labels).value)
    decreases labels
  {
    hide Inv, EarlyExitAhead, InOrder, Enabled, Apply;
    InvFacts(cfg, s);
    if labels != [] {
      NoEarlyExit(cfg, s, labels[0]);
      InvStep(cfg, s, labels[0]);
      OrderIsKept(cfg, Apply(cfg, s, labels[0]), labels[1..]);
    }
  }

  /** Without cleanups, past the line that publishes readiness, an early exit can
      no longer do harm. */
  ghost predicate Harmless(cfg: Config, s: System) {
    && !cfg.runsCleanup && s.teardown.starts == [] && Line(s.main) > Line(PublishReady)
    && (s.daemon.ready ==> s.daemon.state == Running)
    && (Line(s.main) > Line(ClearReady) ==> !s.daemon.ready)
    && (InEarlyBranch(s.handler) && s.handler != EarlyNotReady ==> !s.daemon.ready)
  }

  lemma HarmlessMain(cfg: Config, s: System, m: MainStep)
    requires Harmless(cfg, s) && MainEnabled(cfg, s, m)
    ensures Harmless(cfg, MainApply(cfg, s, m))
  {
    hide BeginOn;
  }

  lemma HarmlessStep(cfg: Config, s: System, l: Label)
    requires Harmless(cfg, s) && Enabled(cfg, s, l)
    ensures Harmless(cfg, Apply(cfg, s, l))
  {
    hide MainEnabled, MainApply;
    if l.Main? {
      HarmlessMain(cfg, s, l.m);
    }
  }

  lemma {:induction false} HarmlessSteps(cfg: Config, s: System, labels: seq<Label>)
    requires Harmless(cfg, s) && Steps(cfg, s, labels).Some?
    ensures InOrder(Steps(cfg, s, labels).value)
    decreases labels
  {
    hide Enabled, Apply;
    if labels != [] {
      HarmlessStep(cfg, s, labels[0]);
      HarmlessSteps(cfg, Apply(cfg, s, labels[0]), labels[1..]);
    }
  }

  /** A signal can be taken while the gate is still closed. */
  lemma SignalBeforeGate(cfg: Config, s: System, t: System) returns (u: System)
    requires Leads(cfg, s, t) && Channels(cfg, t) && EarlyExitAhead(t) && !t.early && !t.exited
    ensures Leads(cfg, s, u) && u.handler == GotSignal && !u.early && !u.exited && u.closes.gate == 0
    ensures u.main == if t.handler == Unborn then EnterRunning else t.main
  {
    hide Leads;
    u := t;
    if u.main == Locking {
      u := Go(cfg, s, u, Main(LockOk));
    }
    if u.main == Spawning {
      u := Go(cfg, s, u, Main(Spawn));
    }
    if u.handler != GotSignal {
      u := Go(cfg, s, u, Other(SignalArrives));
      u := Go(cfg, s, u, Handler(TakeSignal));
    }
  }

  /** The early exit takes the state to ShuttingDown just before main publishes
      readiness ... */
  lemma EarlyExitThenReady(cfg: Config, s: System, t: System) returns (u: System)
    requires Leads(cfg, s, t) && Inv(cfg, t) && t.handler == GotSignal && t.closes.gate == 0
    requires !t.early && !t.exited && (t.main == EnterRunning || t.main == PublishReady)
    ensures Leads(cfg, s, u) && u.daemon.ready && u.daemon.state == ShuttingDown
  {
    hide Leads;
    u := Go(cfg, s, t, Handler(TooEarly));
    u := Go(cfg, s, u, Handler(EarlyClearReady));
    if u.main == EnterRunning {
      u := Go(cfg, s, u, Main(GoRunning));
    }
    u := Go(cfg, s, u, Handler(EarlyGoShuttingDown));
    u := Go(cfg, s, u, Main(GoReady));
  }

  /** ... or starts a cleanup of its own, in whatever state that is ... */
  lemma EarlyExitCleansUp(cfg: Config, s: System, t: System) returns (u: System)
    requires Leads(cfg, s, t) && t.handler == GotSignal && t.closes.gate == 0 && !t.exited && cfg.runsCleanup
    ensures Leads(cfg, s, u) && u.main == t.main && !u.exited
    ensures u.teardown.starts ==
      t.teardown.starts + [if t.daemon.state == Running then ShuttingDown else t.daemon.state]
  {
    hide Leads;
    u := Go(cfg, s, t, Handler(TooEarly));
    u := Go(cfg, s, u, Handler(EarlyClearReady));
    u := Go(cfg, s, u, Handler(EarlyGoShuttingDown));
    u := Go(cfg, s, u, Handler(EarlySpawnCleanup));
  }

  /** ... and main then runs into a second one. */
  lemma SecondCleanup(cfg: Config, s: System, t: System) returns (u: System)
    requires Leads(cfg, s, t) && (t.main == LaunchWatcher || t.main == OpenGate)
    requires cfg.runsCleanup && !t.exited
    ensures Leads(cfg, s, u) && |u.teardown.starts| == |t.teardown.starts| + 1
  {
    hide Leads, SetState;
    u := t;
    if t.main == LaunchWatcher {
      u := Go(cfg, s, u, Main(StartWatcher));
    }
    u := Go(cfg, s, u, Main(CloseGate));
    u := Go(cfg, s, u, Other(ContextCancelled));
    u := Go(cfg, s, u, Main(WakeByContext));
    u := ImpatientShutdown(cfg, s, u);
  }

  lemma EarlyExitBreaks(cfg: Config, s: System)
    requires Inv(cfg, s) && EarlyExitAhead(s) && !s.early && !s.exited
    requires cfg.runsCleanup || Line(s.main) <= Line(PublishReady)
    ensures CanBreakOrder(cfg, s)
  {
    hide Leads, Inv;
    InvFacts(cfg, s);
    LeadsNowhere(cfg, s);
    var t := SignalBeforeGate(cfg, s, s);
    LeadsKeepsInv(cfg, s, t);
    if Line(t.main) <= Line(PublishReady) {
      t := EarlyExitThenReady(cfg, s, t);
    } else {
      t := EarlyExitCleansUp(cfg, s, t);
      t := SecondCleanup(cfg, s, t);
    }
    assert !InOrder(t);
  }

  lemma LeadsKeepsInv(cfg: Config, s: System, t: System)
    requires Inv(cfg, s) && Leads(cfg, s, t)
    ensures Inv(cfg, t)
  {
    hide Inv;
    var labels :| Steps(cfg, s, labels) == Some(t);
    InvSteps(cfg, s, labels);
  }

  /** The order of OrderlyRuns can still be broken if and only if main has not
      opened the gate and the handler may yet find it closed with a signal in its
      hands; without a cleanup to run, only until readiness is published. */
  lemma OrderBreaksExactly(cfg: Config, labels: seq<Label>, s: System)
    requires Reached(cfg, labels, s) && !s.early
    ensures CanBreakOrder(cfg, s)
      <==> EarlyExitAhead(s) && (cfg.runsCleanup || Line(s.main) <= Line(PublishReady))
  {
    hide Steps;
    assert Leads(cfg, Init(cfg), s);
    ReachedLeads(cfg, s);
    if EarlyExitAhead(s) && (cfg.runsCleanup || Line(s.main) <= Line(PublishReady)) {
      EarlyExitBreaks(cfg, s);
    } else {
      forall t | Leads(cfg, s, t)
        ensures InOrder(t)
      {
        var more :| Steps(cfg, s, more) == Some(t);
        if EarlyExitAhead(s) {
          HarmlessSteps(cfg, s, more);
        } else {
          OrderIsKept(cfg, s, more);
        }
      }
    }
  }

  /** With an early exit, cleanup can start while the daemon is still Starting,
      exactly when there is a cleanup to run. */
  lemma EarlyExitCleansWhileStarting(cfg: Config)
    ensures (exists t :: Leads(cfg, Init(cfg), t) && t.teardown.starts == [Starting]) <==> cfg.runsCleanup
  {
    hide Leads, SetState;
    var s := Init(cfg);
    LeadsNowhere(cfg, s);
    InvariantsStart(cfg);
    if cfg.runsCleanup {
      var t := Go(cfg, s, s, Main(LockOk));
      t := Go(cfg, s, t, Main(Spawn));
      t := Go(cfg, s, t, Other(SignalArrives));
      t := Go(cfg, s, t, Handler(TakeSignal));
      t := EarlyExitCleansUp(cfg, s, t);
    }
    forall t | Leads(cfg, s, t) && t.teardown.starts == [Starting]
      ensures cfg.runsCleanup
    {
      ReachedLeads(cfg, t);
    }
  }

  /** The step that brings a waiting main closer to waking up. */
  function WakingStep(s: System): Label {
    if s.inputs.ctxDone then Main(WakeByContext)
    else if s.closes.received > 0 then Main(WakeBySignal)
    else if s.handler == GotSignal then Handler(Forward)
    else Handler(TakeSignal)
  }

  /** How many of these steps are left at most. */
  function WakingRank(s: System): nat {
    if s.inputs.ctxDone || s.closes.received > 0 then 1
    else if s.handler == GotSignal then 2
    else 3
  }

  /** Main waits, and a signal has arrived or the context is done. */
  ghost predicate Summoned(s: System) {
    s.main == Waiting && !s.early && (s.inputs.signalled || s.inputs.ctxDone)
  }

  lemma WakingStepIsEnabled(cfg: Config, s: System)
    requires Inv(cfg, s) && Summoned(s)
    ensures Enabled(cfg, s, WakingStep(s))
  {
  }

  /** Main wakes, or stays summoned, no further from waking than before. */
  ghost predicate CloserToWaking(cfg: Config, s: System, l: Label, t: System) {
    if t.main == Waiting then
      && Summoned(t)
      && WakingRank(t) + (if l == WakingStep(s) then 1 else 0) <= WakingRank(s)
      && (l != WakingStep(s) ==> Enabled(cfg, t, WakingStep(s)))
    else t.main == ClearReady
  }

  /** No step takes main further from waking, the waking step brings it closer,
      and no other step can take the waking step away. */
  lemma WakingProgress(cfg: Config, s: System, l: Label)
    requires Inv(cfg, s) && Summoned(s) && Enabled(cfg, s, l)
    ensures CloserToWaking(cfg, s, l, Apply(cfg, s, l))
  {
    SummonedFacts(cfg, s);
    hide Inv, MainApply;
    match l
    case Main(m) => WakingMain(cfg, s, m);
    case Handler(h) =>
    case Watch(w) =>
    case Other(o) =>
  }

  lemma SummonedFacts(cfg: Config, s: System)
    requires Inv(cfg, s) && Summoned(s)
    ensures s.closes.gate == 1 && !s.exited && !InEarlyBranch(s.handler) && s.handler != Unborn
    ensures NoLostSignal(s) && s.closes.received <= 1 && (s.closes.received == 1 ==> s.handler == Finished)
  {
  }

  lemma WakingMain(cfg: Config, s: System, m: MainStep)
    requires s.main == Waiting && MainEnabled(cfg, s, m)
    ensures MainApply(cfg, s, m).main == ClearReady
  {
  }

  lemma MainMoves(cfg: Config, s: System, m: MainStep)
    requires MainEnabled(cfg, s, m)
    ensures Line(MainApply(cfg, s, m).main) > Line(s.main)
  {
    hide SetState, BeginOn;
  }

  lemma MainMovesOn(cfg: Config, s: System, l: Label)
    requires Enabled(cfg, s, l)
    ensures Line(Apply(cfg, s, l).main) >= Line(s.main) + if l.Main? then 1 else 0
  {
    hide MainEnabled, MainApply, HandlerEnabled, WatcherEnabled, Line;
    if l.Main? {
      MainMoves(cfg, s, l.m);
    }
  }

  /** How many steps of a run were the waking step of their moment. */
  ghost function WakingSteps(cfg: Config, s: System, labels: seq<Label>): nat
    requires Steps(cfg, s, labels).Some?
    decreases labels
  {
    if labels == [] then 0
    else (if labels[0] == WakingStep(s) then 1 else 0) + WakingSteps(cfg, Apply(cfg, s, labels[0]), labels[1..])
  }

  /** In every continuation, each waking step brings main closer, and until main
      is awake the next one is enabled: three of them, however many other steps
      come between, and main is awake. */
  lemma {:induction false} WakingStepsCount(cfg: Config, s: System, labels: seq<Label>)
    requires Inv(cfg, s) && Summoned(s) && Steps(cfg, s, labels).Some?
    ensures var t := Steps(cfg, s, labels).value;
      t.main == Waiting ==>
        && WakingSteps(cfg, s, labels) + WakingRank(t) <= WakingRank(s)
        && Enabled(cfg, t, WakingStep(t))
    decreases labels
  {
    hide Inv, Summoned, WakingStep, WakingRank, Enabled, Apply;
    if labels == [] {
      WakingStepIsEnabled(cfg, s);
    } else {
      var next := Apply(cfg, s, labels[0]);
      WakingProgress(cfg, s, labels[0]);
      InvStep(cfg, s, labels[0]);
      if next.main == Waiting {
        WakingStepsCount(cfg, next, labels[1..]);
      } else {
        MainStepsCount(cfg, next, labels[1..]);
      }
    }
  }

  /** No signal is lost: whatever else happens, a summoned main is awake after
      three waking steps, and as long as it is not the next one can be taken. */
  lemma WakesUp(cfg: Config, labels: seq<Label>, s: System, more: seq<Label>, t: System)
    requires Reached(cfg, labels, s) && Summoned(s) && Steps(cfg, s, more) == Some(t)
    ensures WakingSteps(cfg, s, more) >= 3 ==> t.main != Waiting
    ensures t.main == Waiting ==> Enabled(cfg, t, WakingStep(t))
  {
    hide Inv;
    Invariants(cfg, labels, s);
    WakingStepsCount(cfg, s, more);
  }

  function MainSteps(labels: seq<Label>): nat {
    if labels == [] then 0 else (if labels[0].Main? then 1 else 0) + MainSteps(labels[1..])
  }

  lemma {:induction false} MainStepsCount(cfg: Config, s: System, labels: seq<Label>)
    requires Steps(cfg, s, labels).Some?
    ensures Line(s.main) + MainSteps(labels) <= Line(Steps(cfg, s, labels).value.main)
    decreases labels
  {
    hide Enabled, Apply, Line;
    if labels != [] {
      MainMovesOn(cfg, s, labels[0]);
      MainStepsCount(cfg, Apply(cfg, s, labels[0]), labels[1..]);
    }
  }

  /** The step of main that needs nobody else: both waits are bounded by a
      timeout. Only the wait for a signal has none. */
  function OwnStep(cfg: Config, pc: MainPc): MainStep
    requires pc != Waiting && pc != Returned
  {
    match pc
    case Locking => LockOk
    case Spawning => Spawn
    case EnterRunning => GoRunning
    case PublishReady => GoReady
    case LaunchWatcher => StartWatcher
    case OpenGate => CloseGate
    case ClearReady => NotReady
    case EnterShutdown => GoShuttingDown
    case CancelWatcher => StopWatcher
    case AwaitWatcher => WatcherTimeout
    case BeginCleanup => if cfg.runsCleanup then SpawnCleanup else SkipCleanup
    case AwaitCleanup => CleanupTimeout
    case EnterStopped => GoStopped
  }

  /** From any state in which main is awake, every continuation holds at most seven
      steps of main, and until it has returned main has a step of its own to take,
      even if the watcher and the cleanup hang forever. */
  lemma ShutdownIsBounded(cfg: Config, s: System, more: seq<Label>, t: System)
    requires Line(s.main) > Line(Waiting) && Steps(cfg, s, more) == Some(t)
    ensures MainSteps(more) <= 7 && t.main != Waiting
    ensures t.main == Returned || t.exited || Enabled(cfg, t, Main(OwnStep(cfg, t.main)))
  {
    MainStepsCount(cfg, s, more);
  }

  /** A whole run holds at most fourteen steps of main, which is never stuck but
      where it waits to be summoned. */
  lemma RunIsBounded(cfg: Config, labels: seq<Label>, s: System)
    requires Reached(cfg, labels, s)
    ensures MainSteps(labels) <= 14
    ensures s.main == Waiting || s.main == Returned || s.exited || Enabled(cfg, s, Main(OwnStep(cfg, s.main)))
  {
    hide MainApply, HandlerApply, WatcherApply;
    MainStepsCount(cfg, Init(cfg), labels);
  }
}
