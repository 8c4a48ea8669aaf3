/** The lock pipeline as values: what each handler of LockManager and HardwareManager does. */
module LockSpec {
  import opened Bytes

  const UNLOCKED: uint8 := 0
  const LOCKED: uint8 := 1
  const JAMMED: uint8 := 2
  const UNKNOWN: uint8 := 3
  const MAX_STATE: uint8 := 6

  const INTERNAL: uint8 := 0
  const HOMEKIT: uint8 := 1
  const NFC: uint8 := 2
  const MQTT: uint8 := 3
  const WEB: uint8 := 4

  const PIN_UNSET: bv8 := 255
  const M_HOME: bv8 := 1
  const M_HK: bv8 := 2

  /** Slots of the FreeRTOS lock-control queue. */
  const QUEUE_SLOTS: nat := 5

  datatype LockConfig = LockConfig(
    alwaysUnlock: bool, alwaysLock: bool,
    actionPin: bv8, lockLevel: bool, unlockLevel: bool,
    momentaryEnabled: bv8, hkControlled: bool, dumbSwitch: bool,
    leaseLive: bool)

  datatype EventLockState = EventLockState(currentState: uint8, targetState: uint8, source: uint8)

  datatype Event =
    | HwAction(lock: EventLockState)
    | StateChanged(lock: EventLockState)
    | UpdateState(lock: EventLockState)
    | TargetChanged(lock: EventLockState)

  /** The fields of LockManager. */
  datatype Core = Core(current: uint8, target: uint8, lastSource: uint8, timerExists: bool, timerActive: bool)

  /** A handler's outcome: the new fields and the events it posted, in order. */
  datatype Effect = Effect(core: Core, events: seq<Event>)

  const BOOT: Core := Core(LOCKED, LOCKED, INTERNAL, true, false)

  predicate MomentarySource(cfg: LockConfig, source: uint8) {
    var sources: bv8 := if (cfg.momentaryEnabled | cfg.actionPin) == 255 && !cfg.dumbSwitch then 0 else cfg.momentaryEnabled;
    var mask: bv8 := if source == HOMEKIT then M_HOME else if source == NFC then M_HK else 0;
    mask & sources != 0
  }

  function StopTimer(c: Core): Core {
    c.(timerActive := false)
  }

  function StartTimerIfNeeded(cfg: LockConfig, c: Core, source: uint8, startOk: bool): Core {
    if c.target == UNLOCKED && MomentarySource(cfg, source) && c.timerExists && !c.timerActive
    then c.(timerActive := startOk)
    else c
  }

  /** A request that asks for what is already so. */
  predicate Ignored(c: Core, state: uint8) {
    state == c.target && c.current == c.target
  }

  function SetTarget(cfg: LockConfig, c: Core, state: uint8, source: uint8, startOk: bool): Effect {
    if Ignored(c, state) then Effect(c, [])
    else
      var moved := StopTimer(c).(target := state, lastSource := source,
                                 current := if cfg.dumbSwitch then state else c.current);
      var s := EventLockState(moved.current, state, source);
      var posts := if cfg.dumbSwitch || source != NFC || cfg.hkControlled then [HwAction(s)] else [];
      Effect(StartTimerIfNeeded(cfg, moved, source, startOk), posts + [StateChanged(s)])
  }

  function Override(cfg: LockConfig, c: Core, cState: uint8, tState: uint8, source: uint8, startOk: bool): Effect {
    if cState == c.current && tState == c.target then
      Effect(StartTimerIfNeeded(cfg, StopTimer(c), source, startOk), [])
    else
      var moved := StopTimer(c).(current := if cState != MAX_STATE then cState else c.current,
                                 target := if tState != MAX_STATE then tState else c.target,
                                 lastSource := source);
      var s := EventLockState(moved.current, moved.target, source);
      Effect(StartTimerIfNeeded(cfg, moved, source, startOk), [HwAction(s), StateChanged(s)])
  }

  function Update(c: Core, reported: EventLockState): Effect {
    var moved := c.(current := reported.currentState, lastSource := reported.source);
    Effect(moved, [StateChanged(EventLockState(moved.current, moved.target, moved.lastSource))])
  }

  /** The state an accepted tap asks for. */
  function TapTarget(cfg: LockConfig, c: Core): uint8 {
    if cfg.alwaysUnlock then UNLOCKED
    else if cfg.alwaysLock then LOCKED
    else if c.current == LOCKED then UNLOCKED else LOCKED
  }

  /** The action pin can be driven. */
  predicate PinLive(cfg: LockConfig) {
    cfg.actionPin != PIN_UNSET && cfg.leaseLive
  }

  /** The pin level after the control task handled `state`. */
  function Drive(cfg: LockConfig, pin: bool, state: uint8): bool {
    if state == LOCKED then cfg.lockLevel else if state == UNLOCKED then cfg.unlockLevel else pin
  }
}
