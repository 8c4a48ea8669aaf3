/**
 * The lock pipeline as a transition system. A command sets a target and posts HW_ACTION; the
 * handler copies that to the lock-control queue; the control task drives the pin and posts
 * LOCK_UPDATE_STATE, which sets the current state. Each stage is a FIFO and any enabled stage
 * may move next.
 */
module LockRuns {
  import opened Bytes
  import opened LockSpec

  /**
   * `actions`, `lockQueue` and `updates` are the pending HW_ACTIONs, the FreeRTOS queue and the
   * pending LOCK_UPDATE_STATEs of the control task; `due` counts timer callbacks that have been
   * dispatched but have not run; `reports` is every LOCK_STATE_CHANGED published.
   */
  datatype System = System(
    core: Core, actions: seq<uint8>, lockQueue: seq<uint8>, updates: seq<uint8>,
    pin: bool, due: nat, reports: seq<EventLockState>)

  datatype Step =
    | Target(state: uint8, source: uint8, startOk: bool)
    | OverrideBy(cState: uint8, tState: uint8, source: uint8, startOk: bool)
    | Tap(startOk: bool)
    | ExternalUpdate(cState: uint8, source: uint8)
    | TimerExpire
    | TimerCallback(startOk: bool)
    | HandleAction
    | DropAction
    | LockTask
    | HandleUpdate

  predicate Internal(step: Step) {
    step.HandleAction? || step.LockTask? || step.HandleUpdate?
  }

  predicate Enabled(s: System, step: Step) {
    match step
    case TimerExpire => s.core.timerActive
    case TimerCallback(_) => s.due > 0
    case HandleAction => s.actions != [] && |s.lockQueue| < QUEUE_SLOTS
    case DropAction => s.actions != [] && |s.lockQueue| >= QUEUE_SLOTS
    case LockTask => s.lockQueue != []
    case HandleUpdate => s.updates != []
    case _ => true
  }

  function ActionsOf(events: seq<Event>): seq<uint8> {
    if events == [] then []
    else (if events[0].HwAction? then [events[0].lock.targetState] else []) + ActionsOf(events[1..])
  }

  function ReportsOf(events: seq<Event>): seq<EventLockState> {
    if events == [] then []
    else (if events[0].StateChanged? then [events[0].lock] else []) + ReportsOf(events[1..])
  }

  /** A lone report posts no action. */
  lemma LoneReport(r: EventLockState)
    ensures ActionsOf([StateChanged(r)]) == [] && ReportsOf([StateChanged(r)]) == [r]
  {
  }

  /** What a request posts: one action with the new target unless it was ignored or is unposted. */
  lemma PostedByRequest(cfg: LockConfig, c: Core, state: uint8, source: uint8, startOk: bool)
    ensures var e := SetTarget(cfg, c, state, source, startOk);
            && ActionsOf(e.events) == (if Ignored(c, state) || Unposted(cfg, source) then [] else [state])
            && ReportsOf(e.events) == (if Ignored(c, state) then [] else [EventLockState(e.core.current, state, source)])
  {
    var e := SetTarget(cfg, c, state, source, startOk);
    if !Ignored(c, state) {
      LoneReport(EventLockState(e.core.current, state, source));
      if Unposted(cfg, source) {
        assert e.events == [StateChanged(EventLockState(e.core.current, state, source))];
      } else {
        assert e.events[1..] == [StateChanged(EventLockState(e.core.current, state, source))];
      }
    }
  }

  lemma PostedByOverride(cfg: LockConfig, c: Core, cState: uint8, tState: uint8, source: uint8, startOk: bool)
    ensures var e := Override(cfg, c, cState, tState, source, startOk);
            ActionsOf(e.events) == (if cState == c.current && tState == c.target then [] else [e.core.target])
  {
    var e := Override(cfg, c, cState, tState, source, startOk);
    if e.events != [] {
      LoneReport(e.events[1].lock);
      assert e.events[1..] == [StateChanged(e.events[1].lock)];
    }
  }

  function Post(s: System, e: Effect): System {
    s.(core := e.core, actions := s.actions + ActionsOf(e.events), reports := s.reports + ReportsOf(e.events))
  }

  function Next(cfg: LockConfig, s: System, step: Step): System
    requires Enabled(s, step)
  {
    match step
    case Target(state, source, startOk) => Post(s, SetTarget(cfg, s.core, state, source, startOk))
    case OverrideBy(c, t, source, startOk) => Post(s, Override(cfg, s.core, c, t, source, startOk))
    case Tap(startOk) => Post(s, SetTarget(cfg, s.core, TapTarget(cfg, s.core), NFC, startOk))
    case ExternalUpdate(c, source) => Post(s, Update(s.core, EventLockState(c, UNKNOWN, source)))
    case TimerExpire => s.(core := StopTimer(s.core), due := s.due + 1)
    case TimerCallback(startOk) => Post(s.(due := s.due - 1), SetTarget(cfg, s.core, LOCKED, INTERNAL, startOk))
    case HandleAction => s.(actions := s.actions[1..], lockQueue := s.lockQueue + [s.actions[0]])
    case DropAction => s.(actions := s.actions[1..])
    case LockTask =>
      var popped := s.(lockQueue := s.lockQueue[1..]);
      if PinLive(cfg)
      then popped.(pin := Drive(cfg, s.pin, s.lockQueue[0]), updates := s.updates + [s.lockQueue[0]])
      else popped
    case HandleUpdate =>
      Post(s.(updates := s.updates[1..]), Update(s.core, EventLockState(s.updates[0], UNKNOWN, INTERNAL)))
  }

  /** After LockManager::begin(): nothing but the initial HW_ACTION is in flight. */
  predicate Init(s: System) {
    && s.core.current == LOCKED && s.core.target == LOCKED && !s.core.timerActive
    && s.actions == [LOCKED] && s.lockQueue == [] && s.updates == [] && s.due == 0
  }

  ghost predicate Run(cfg: LockConfig, states: seq<System>, steps: seq<Step>) {
    && |states| == |steps| + 1
    && forall i :: 0 <= i < |steps| ==> Enabled(states[i], steps[i]) && states[i + 1] == Next(cfg, states[i], steps[i])
  }

  // ---- What is in flight ----

  /** Oldest first: reported but not yet applied, queued for the task, posted but not yet queued. */
  function InFlight(s: System): seq<uint8> {
    s.updates + s.lockQueue + s.actions
  }

  /** The newest thing in flight is the target; with nothing in flight the lock is there. */
  predicate Tracks(s: System) {
    var f := InFlight(s);
    if f == [] then s.core.current == s.core.target else f[|f| - 1] == s.core.target
  }

  /** The pin rests at the target's level once nothing is left to drive. */
  predicate PinTracks(cfg: LockConfig, s: System) {
    s.lockQueue + s.actions == [] ==> s.pin == Drive(cfg, s.pin, s.core.target)
  }

  /** NFC requests change the target without posting HW_ACTION in this configuration. */
  predicate Unposted(cfg: LockConfig, source: uint8) {
    source == NFC && !cfg.hkControlled && !cfg.dumbSwitch
  }

  /** When a step keeps `Tracks`, in terms the caller can look at beforehand. */
  predicate Harmless(cfg: LockConfig, s: System, step: Step)
    requires Enabled(s, step)
  {
    match step
    case Target(state, source, _) => !Unposted(cfg, source) || state == s.core.target
    case Tap(_) => !Unposted(cfg, NFC) || TapTarget(cfg, s.core) == s.core.target
    case ExternalUpdate(c, _) => InFlight(s) != [] || c == s.core.target
    case DropAction => |s.actions| > 1 || s.lockQueue[|s.lockQueue| - 1] == s.core.target
    case LockTask =>
      || PinLive(cfg) || |s.lockQueue| > 1 || s.actions != []
      || (if s.updates == [] then s.core.current else s.updates[|s.updates| - 1]) == s.core.target
    case _ => true
  }

  lemma RequestTracks(cfg: LockConfig, s: System, state: uint8, source: uint8, startOk: bool)
    requires Tracks(s)
    ensures Tracks(Post(s, SetTarget(cfg, s.core, state, source, startOk)))
            <==> !Unposted(cfg, source) || state == s.core.target
  {
    PostedByRequest(cfg, s.core, state, source, startOk);
    var s' := Post(s, SetTarget(cfg, s.core, state, source, startOk));
    assert InFlight(s') == InFlight(s) + (if Ignored(s.core, state) || Unposted(cfg, source) then [] else [state]);
  }

  lemma OverrideTracks(cfg: LockConfig, s: System, cState: uint8, tState: uint8, source: uint8, startOk: bool)
    requires Tracks(s)
    ensures Tracks(Post(s, Override(cfg, s.core, cState, tState, source, startOk)))
  {
    PostedByOverride(cfg, s.core, cState, tState, source, startOk);
    var s' := Post(s, Override(cfg, s.core, cState, tState, source, startOk));
    if cState == s.core.current && tState == s.core.target {
      assert InFlight(s') == InFlight(s);
    } else {
      assert InFlight(s') == InFlight(s) + [s'.core.target];
    }
  }

  lemma MoveTracks(cfg: LockConfig, s: System, step: Step)
    requires Internal(step)
    requires Tracks(s) && Enabled(s, step)
    ensures Tracks(Next(cfg, s, step)) <==> Harmless(cfg, s, step)
  {
    match step
    case HandleAction => assert InFlight(Next(cfg, s, step)) == InFlight(s);
    case LockTask =>
      if PinLive(cfg) {
        assert InFlight(Next(cfg, s, step)) == InFlight(s);
      } else {
        assert InFlight(Next(cfg, s, step)) == s.updates + s.lockQueue[1..] + s.actions;
      }
    case HandleUpdate => HandledUpdate(cfg, s);
  }

  lemma HandledUpdate(cfg: LockConfig, s: System)
    requires s.updates != []
    ensures var s' := Next(cfg, s, HandleUpdate);
            && s'.actions == s.actions
            && InFlight(s) == [s.updates[0]] + InFlight(s')
            && s'.reports == s.reports + [EventLockState(s.updates[0], s.core.target, INTERNAL)]
  {
    LoneReport(EventLockState(s.updates[0], s.core.target, INTERNAL));
  }

  /** Exactly the harmless steps keep the pipeline on its target. */
  lemma TracksStep(cfg: LockConfig, s: System, step: Step)
    requires Tracks(s) && Enabled(s, step)
    ensures Tracks(Next(cfg, s, step)) <==> Harmless(cfg, s, step)
  {
    match step
    case Target(state, source, startOk) => RequestTracks(cfg, s, state, source, startOk);
    case Tap(startOk) => RequestTracks(cfg, s, TapTarget(cfg, s.core), NFC, startOk);
    case TimerCallback(startOk) => RequestTracks(cfg, s.(due := s.due - 1), LOCKED, INTERNAL, startOk);
    case OverrideBy(c, t, source, startOk) => OverrideTracks(cfg, s, c, t, source, startOk);
    case ExternalUpdate(c, source) => LoneReport(EventLockState(c, s.core.target, source));
    case TimerExpire =>
    case DropAction => assert InFlight(Next(cfg, s, step)) == s.updates + s.lockQueue + s.actions[1..];
    case _ => MoveTracks(cfg, s, step);
  }

  /** The conditions under which the documentation promises the lock follows its target. */
  predicate Promised(cfg: LockConfig, step: Step) {
    && PinLive(cfg)
    && !step.ExternalUpdate? && !step.DropAction?
    && (step.Target? ==> !Unposted(cfg, step.source))
    && (step.Tap? ==> !Unposted(cfg, NFC))
  }

  lemma PinTracksStep(cfg: LockConfig, s: System, step: Step)
    requires Tracks(s) && PinTracks(cfg, s) && Enabled(s, step) && Promised(cfg, step)
    ensures PinTracks(cfg, Next(cfg, s, step))
  {
  }

  /** Every state of a promised run has its newest in-flight element at the target. */
  lemma {:induction false} RunTracks(cfg: LockConfig, states: seq<System>, steps: seq<Step>)
    requires Run(cfg, states, steps)
    requires Init(states[0])
    requires forall i :: 0 <= i < |steps| ==> Promised(cfg, steps[i])
    ensures forall i :: 0 <= i < |states| ==> Tracks(states[i]) && PinTracks(cfg, states[i])
  {
    RunTracksFrom(cfg, states, steps);
  }

  lemma {:induction false} RunTracksFrom(cfg: LockConfig, states: seq<System>, steps: seq<Step>)
    requires Run(cfg, states, steps)
    requires Tracks(states[0]) && PinTracks(cfg, states[0])
    requires forall i :: 0 <= i < |steps| ==> Promised(cfg, steps[i])
    ensures forall i :: 0 <= i < |states| ==> Tracks(states[i]) && PinTracks(cfg, states[i])
  {
    if steps != [] {
      var n := |steps| - 1;
      RunTracksFrom(cfg, states[..n + 1], steps[..n]);
      assert states[..n + 1][n] == states[n];
      TracksStep(cfg, states[n], steps[n]);
      PinTracksStep(cfg, states[n], steps[n]);
      assert states[n + 1] == Next(cfg, states[n], steps[n]);
    }
  }

  // ---- Draining ----

  function Measure(s: System): nat {
    3 * |s.actions| + 2 * |s.lockQueue| + |s.updates|
  }

  function DriveAll(cfg: LockConfig, pin: bool, states: seq<uint8>): bool
    decreases |states|
  {
    if states == [] then pin else DriveAll(cfg, Drive(cfg, pin, states[0]), states[1..])
  }

  /** Where the pipeline ends if no new command arrives. */
  function Settled(cfg: LockConfig, s: System): System {
    var f := InFlight(s);
    System(
      s.core.(current := if f == [] then s.core.current else f[|f| - 1],
              lastSource := if f == [] then s.core.lastSource else INTERNAL),
      [], [], [], DriveAll(cfg, s.pin, s.lockQueue + s.actions), s.due,
      s.reports + seq(|f|, i requires 0 <= i < |f| => EventLockState(f[i], s.core.target, INTERNAL)))
  }

  lemma TaskSettles(cfg: LockConfig, s: System, step: Step)
    requires PinLive(cfg) && Enabled(s, step) && (step.HandleAction? || step.LockTask?)
    ensures Settled(cfg, Next(cfg, s, step)) == Settled(cfg, s)
  {
    var s' := Next(cfg, s, step);
    assert InFlight(s') == InFlight(s);
    var drive, drive' := s.lockQueue + s.actions, s'.lockQueue + s'.actions;
    if step.HandleAction? {
      assert drive' == drive;
    } else {
      assert drive == [s.lockQueue[0]] + drive';
    }
  }

  lemma UpdateSettles(cfg: LockConfig, s: System)
    requires s.updates != []
    ensures Settled(cfg, Next(cfg, s, HandleUpdate)) == Settled(cfg, s)
  {
    HandledUpdate(cfg, s);
    assert Settled(cfg, Next(cfg, s, HandleUpdate)).reports == Settled(cfg, s).reports;
  }

  /** Each internal step costs exactly one and does not change where the pipeline ends. */
  lemma InternalStep(cfg: LockConfig, s: System, step: Step)
    requires PinLive(cfg) && Internal(step) && Enabled(s, step)
    ensures Measure(Next(cfg, s, step)) == Measure(s) - 1
    ensures Settled(cfg, Next(cfg, s, step)) == Settled(cfg, s)
  {
    if step.HandleUpdate? {
      HandledUpdate(cfg, s);
      UpdateSettles(cfg, s);
    } else {
      TaskSettles(cfg, s, step);
    }
  }

  /** While anything is in flight some stage can move: a full queue never blocks for good. */
  lemma Progress(s: System)
    requires InFlight(s) != []
    ensures Enabled(s, HandleAction) || Enabled(s, LockTask) || Enabled(s, HandleUpdate)
  {
  }

  lemma {:induction false} DrainFrom(cfg: LockConfig, states: seq<System>, steps: seq<Step>)
    requires Run(cfg, states, steps) && PinLive(cfg)
    requires forall i :: 0 <= i < |steps| ==> Internal(steps[i])
    ensures Measure(states[|steps|]) + |steps| == Measure(states[0])
    ensures Settled(cfg, states[|steps|]) == Settled(cfg, states[0])
  {
    if steps != [] {
      var n := |steps| - 1;
      DrainFrom(cfg, states[..n + 1], steps[..n]);
      assert states[..n + 1][n] == states[n];
      InternalStep(cfg, states[n], steps[n]);
    }
  }

  lemma {:induction false} DriveAllLast(cfg: LockConfig, pin: bool, items: seq<uint8>)
    requires items != []
    ensures DriveAll(cfg, pin, items) == Drive(cfg, DriveAll(cfg, pin, items), items[|items| - 1])
    decreases |items|
  {
    if |items| > 1 {
      DriveAllLast(cfg, Drive(cfg, pin, items[0]), items[1..]);
    }
  }

  /** What observers and the pin see once a tracking pipeline has settled. */
  lemma SettledAtTarget(cfg: LockConfig, s: System)
    requires Tracks(s) && PinTracks(cfg, s)
    ensures var e := Settled(cfg, s);
            && e.core.current == e.core.target == s.core.target
            && (s.core.target == LOCKED ==> e.pin == cfg.lockLevel)
            && (s.core.target == UNLOCKED ==> e.pin == cfg.unlockLevel)
            && (InFlight(s) != [] ==>
                  e.reports[|e.reports| - 1] == EventLockState(s.core.target, s.core.target, INTERNAL))
  {
    var drive := s.lockQueue + s.actions;
    if drive != [] {
      DriveAllLast(cfg, s.pin, drive);
      assert InFlight(s) == s.updates + drive;
    }
  }

  /**
   * Convergence. From any state of a promised run, every way of running the stages with no new
   * command takes exactly `Measure` steps, and when no stage can move the lock is at its target,
   * the pin is at the target's level, and the last report says so. All schedules end in one state.
   */
  lemma Convergence(cfg: LockConfig, states: seq<System>, steps: seq<Step>,
                    drain: seq<System>, moves: seq<Step>)
    requires Run(cfg, states, steps) && Init(states[0]) && PinLive(cfg)
    requires forall i :: 0 <= i < |steps| ==> Promised(cfg, steps[i])
    requires Run(cfg, drain, moves) && drain[0] == states[|steps|]
    requires forall i :: 0 <= i < |moves| ==> Internal(moves[i])
    ensures |moves| <= Measure(drain[0])
    ensures (forall step :: Internal(step) ==> !Enabled(drain[|moves|], step)) <==> |moves| == Measure(drain[0])
    ensures |moves| == Measure(drain[0]) ==>
              var e := drain[|moves|];
              && e == Settled(cfg, drain[0])
              && e.core.current == e.core.target == drain[0].core.target
              && (e.core.target == LOCKED ==> e.pin == cfg.lockLevel)
              && (e.core.target == UNLOCKED ==> e.pin == cfg.unlockLevel)
              && (moves != [] ==>
                    e.reports[|e.reports| - 1] == EventLockState(e.core.target, e.core.target, INTERNAL))
  {
    RunTracks(cfg, states, steps);
    DrainFrom(cfg, drain, moves);
    SettledAtTarget(cfg, drain[0]);
    var e := drain[|moves|];
    if |moves| == Measure(drain[0]) {
      assert Measure(e) == 0;
      assert InFlight(e) == [];
      assert e.reports + [] == e.reports;
      assert Settled(cfg, e) == e;
      assert moves != [] ==> InFlight(drain[0]) != [];
    } else {
      assert InFlight(e) != [];
      Progress(e);
      assert Internal(HandleAction) && Internal(LockTask) && Internal(HandleUpdate);
    }
  }

  /** An accepted tap on a settled lock toggles it, once the pipeline has drained. */
  lemma TapToggles(cfg: LockConfig, s: System, startOk: bool)
    requires PinLive(cfg) && InFlight(s) == [] && Tracks(s)
    requires !cfg.alwaysUnlock && !cfg.alwaysLock
    ensures var t := Next(cfg, s, Tap(startOk));
            Settled(cfg, t).core.current == (if s.core.current == LOCKED then UNLOCKED else LOCKED)
            <==> !Unposted(cfg, NFC)
  {
    var t := Next(cfg, s, Tap(startOk));
    TracksStep(cfg, s, Tap(startOk));
    if !Unposted(cfg, NFC) {
      assert Tracks(t);
    } else {
      PostedByRequest(cfg, s.core, TapTarget(cfg, s.core), NFC, startOk);
      assert InFlight(t) == [];
    }
  }

  /**
   * One such tap: with GPIO control off and dumb-switch mode off, a tap on a locked, settled lock
   * moves the target to UNLOCKED and leaves nothing in flight that could ever move the lock.
   */
  lemma StrandedTap()
    ensures var cfg := LockConfig(false, false, 5, true, false, 0, false, false, true);
            var t := Next(cfg, System(BOOT, [], [], [], true, 0, []), Tap(true));
            t.core.target == UNLOCKED && t.core.current == LOCKED && InFlight(t) == [] && !Tracks(t)
  {
    var cfg := LockConfig(false, false, 5, true, false, 0, false, false, true);
    PostedByRequest(cfg, BOOT, UNLOCKED, NFC, true);
  }

  /** With no pin to drive, commands outside dumb-switch mode never move the current state. */
  lemma {:induction false} NoPinNeverMoves(cfg: LockConfig, states: seq<System>, steps: seq<Step>)
    requires Run(cfg, states, steps) && states[0].updates == []
    requires !PinLive(cfg) && !cfg.dumbSwitch
    requires forall i :: 0 <= i < |steps| ==> !steps[i].OverrideBy? && !steps[i].ExternalUpdate?
    ensures states[|steps|].updates == []
    ensures states[|steps|].core.current == states[0].core.current && states[|steps|].pin == states[0].pin
  {
    if steps != [] {
      var n := |steps| - 1;
      NoPinNeverMoves(cfg, states[..n + 1], steps[..n]);
      assert states[..n + 1][n] == states[n];
      assert states[n + 1] == Next(cfg, states[n], steps[n]);
    }
  }

  // ---- Momentary unlock ----

  /** The one-shot timer runs only while the lock is meant to be open. */
  predicate TimerGuarded(s: System) {
    s.core.timerActive ==> s.core.timerExists && s.core.target == UNLOCKED
  }

  lemma TimerGuardedStep(cfg: LockConfig, s: System, step: Step)
    requires TimerGuarded(s) && Enabled(s, step)
    ensures TimerGuarded(Next(cfg, s, step))
  {
  }

  lemma {:induction false} RunTimerGuarded(cfg: LockConfig, states: seq<System>, steps: seq<Step>)
    requires Run(cfg, states, steps) && TimerGuarded(states[0])
    ensures forall i :: 0 <= i < |states| ==> TimerGuarded(states[i])
  {
    if steps != [] {
      var n := |steps| - 1;
      RunTimerGuarded(cfg, states[..n + 1], steps[..n]);
      assert states[..n + 1][n] == states[n];
      TimerGuardedStep(cfg, states[n], steps[n]);
    }
  }

  /** Whenever a callback finally runs, however late, it leaves the target locked and the timer idle. */
  lemma CallbackLocks(cfg: LockConfig, states: seq<System>, steps: seq<Step>, startOk: bool)
    requires Run(cfg, states, steps) && Init(states[0])
    requires states[|steps|].due > 0
    ensures var s := Next(cfg, states[|steps|], TimerCallback(startOk));
            s.core.target == LOCKED && !s.core.timerActive
  {
    RunTimerGuarded(cfg, states, steps);
  }

  /**
   * Momentary relock. Whatever happened between the timer's expiry and its callback, once the
   * callback has run any complete drain ends with the door locked and the timer idle.
   */
  lemma MomentaryRelock(cfg: LockConfig, states: seq<System>, steps: seq<Step>, drain: seq<System>, moves: seq<Step>)
    requires Run(cfg, states, steps) && Init(states[0]) && PinLive(cfg)
    requires forall i :: 0 <= i < |steps| ==> Promised(cfg, steps[i])
    requires steps != [] && steps[|steps| - 1].TimerCallback?
    requires Run(cfg, drain, moves) && forall i :: 0 <= i < |moves| ==> Internal(moves[i])
    requires drain[0] == states[|steps|] && |moves| == Measure(drain[0])
    ensures var e := drain[|moves|];
            e.core.current == e.core.target == LOCKED && e.pin == cfg.lockLevel && !e.core.timerActive
  {
    var n := |steps| - 1;
    assert states[n + 1] == Next(cfg, states[n], steps[n]);
    CallbackLocks(cfg, states[..n + 1], steps[..n], steps[n].startOk);
    Convergence(cfg, states, steps, drain, moves);
    DrainFrom(cfg, drain, moves);
  }

  /** The state left alone by an override is MAX_STATE; the 255 its comment names is stored. */
  lemma OverrideSentinel(cfg: LockConfig, c: Core, cState: uint8, tState: uint8, source: uint8, startOk: bool)
    ensures var e := Override(cfg, c, cState, tState, source, startOk).core;
            && (e.current == c.current <==> cState == MAX_STATE || cState == c.current)
            && (e.target == c.target <==> tState == MAX_STATE || tState == c.target)
  {
  }

  /** Told to leave the current state alone in the comment's way, an override stores 255 in it. */
  lemma SentinelStored(cfg: LockConfig, startOk: bool)
    ensures Override(cfg, BOOT, 255, UNLOCKED, WEB, startOk).core.current == 255
  {
  }
}
