/** LockManager and the lock-control part of HardwareManager, as the objects the firmware runs. */
module LockPipeline {
  import opened Bytes
  import opened LockSpec

  /** The default event loop; `posted` is every event published, oldest first. */
  class EventLoop {
    var posted: seq<Event>

    constructor ()
      ensures posted == []
    {
      posted := [];
    }

    method Publish(e: Event)
      modifies this
      ensures posted == old(posted) + [e]
    {
      posted := posted + [e];
    }
  }

  /** Each method is one handler call; `startOk` is what esp_timer_start_once would return. */
  class LockManager {
    const cfg: LockConfig
    const loop: EventLoop
    const timerExists: bool
    var currentState: uint8
    var targetState: uint8
    var lastSource: uint8
    var timerActive: bool

    function Fields(): Core
      reads this
    {
      Core(currentState, targetState, lastSource, timerExists, timerActive)
    }

    constructor (cfg: LockConfig, loop: EventLoop, timerCreated: bool)
      ensures this.cfg == cfg && this.loop == loop
      ensures Fields() == BOOT.(timerExists := timerCreated)
    {
      this.cfg, this.loop, timerExists := cfg, loop, timerCreated;
      currentState, targetState, lastSource, timerActive := LOCKED, LOCKED, INTERNAL, false;
    }

    method Begin()
      modifies loop
      ensures loop.posted == old(loop.posted) + [HwAction(EventLockState(currentState, targetState, INTERNAL))]
    {
      loop.Publish(HwAction(EventLockState(currentState, targetState, INTERNAL)));
    }

    method StopMomentaryTimer()
      modifies this`timerActive
      ensures Fields() == StopTimer(old(Fields()))
    {
      if timerActive {
        timerActive := false;
      }
    }

    method StartMomentaryTimerIfNeeded(source: uint8, startOk: bool)
      modifies this`timerActive
      ensures Fields() == StartTimerIfNeeded(cfg, old(Fields()), source, startOk)
    {
      var momentary := MomentarySource(cfg, source);
      if targetState == UNLOCKED && momentary {
        if !timerExists || timerActive {
          return;
        }
        timerActive := startOk;
      }
    }

    method SetTargetState(state: uint8, source: uint8, startOk: bool)
      modifies this, loop
      ensures var e := SetTarget(cfg, old(Fields()), state, source, startOk);
              Fields() == e.core && loop.posted == old(loop.posted) + e.events
    {
      if state == targetState && currentState == targetState {
        return;
      }
      StopMomentaryTimer();
      targetState := state;
      lastSource := source;
      var s := EventLockState(currentState, targetState, source);
      if cfg.dumbSwitch {
        currentState := targetState;
        s := s.(currentState := targetState);
        loop.Publish(HwAction(s));
      } else if (source == NFC && cfg.hkControlled) || source != NFC {
        loop.Publish(HwAction(s));
      }
      loop.Publish(StateChanged(s));
      StartMomentaryTimerIfNeeded(source, startOk);
    }

    method OverrideState(cState: uint8, tState: uint8, source: uint8, startOk: bool)
      modifies this, loop
      ensures var e := Override(cfg, old(Fields()), cState, tState, source, startOk);
              Fields() == e.core && loop.posted == old(loop.posted) + e.events
    {
      if cState == currentState && tState == targetState {
        StopMomentaryTimer();
        StartMomentaryTimerIfNeeded(source, startOk);
        return;
      }
      currentState := if cState != MAX_STATE then cState else currentState;
      targetState := if tState != MAX_STATE then tState else targetState;
      lastSource := source;
      StopMomentaryTimer();
      var s := EventLockState(currentState, targetState, source);
      loop.Publish(HwAction(s));
      loop.Publish(StateChanged(s));
      StartMomentaryTimerIfNeeded(source, startOk);
    }

    method OnUpdateState(reported: EventLockState)
      modifies this, loop
      ensures var e := Update(old(Fields()), reported);
              Fields() == e.core && loop.posted == old(loop.posted) + e.events
    {
      currentState := reported.currentState;
      lastSource := reported.source;
      loop.Publish(StateChanged(reported.(targetState := targetState)));
    }

    /** A HomeKey or guest tap; one that was not accepted changes nothing. */
    method OnTap(accepted: bool, startOk: bool)
      modifies this, loop
      ensures accepted ==>
                var e := SetTarget(cfg, old(Fields()), TapTarget(cfg, old(Fields())), NFC, startOk);
                Fields() == e.core && loop.posted == old(loop.posted) + e.events
      ensures !accepted ==> Fields() == old(Fields()) && loop.posted == old(loop.posted)
    {
      if accepted {
        if cfg.alwaysUnlock {
          SetTargetState(UNLOCKED, NFC, startOk);
        } else if cfg.alwaysLock {
          SetTargetState(LOCKED, NFC, startOk);
        } else {
          var newState := if currentState == LOCKED then UNLOCKED else LOCKED;
          SetTargetState(newState, NFC, startOk);
        }
      }
    }

    method HandleTimer(startOk: bool)
      modifies this, loop
      ensures var e := SetTarget(cfg, old(Fields()), LOCKED, INTERNAL, startOk);
              Fields() == e.core && loop.posted == old(loop.posted) + e.events
    {
      SetTargetState(LOCKED, INTERNAL, startOk);
    }
  }

  class HardwareManager {
    const cfg: LockConfig
    const loop: EventLoop
    var lockQueue: seq<uint8>
    var actionLevel: bool

    constructor (cfg: LockConfig, loop: EventLoop)
      ensures this.cfg == cfg && this.loop == loop && lockQueue == []
    {
      this.cfg, this.loop, lockQueue, actionLevel := cfg, loop, [], false;
    }

    /** The HW_ACTION handler: the target is queued, or lost when the queue stays full. */
    method SetLockOutput(state: uint8) returns (sent: bool)
      modifies this`lockQueue
      ensures sent <==> |old(lockQueue)| < QUEUE_SLOTS
      ensures lockQueue == if sent then old(lockQueue) + [state] else old(lockQueue)
    {
      sent := |lockQueue| < QUEUE_SLOTS;
      if sent {
        lockQueue := lockQueue + [state];
      }
    }

    /** One round of the control task. */
    method LockControlStep()
      requires lockQueue != []
      modifies this, loop
      ensures lockQueue == old(lockQueue)[1..]
      ensures PinLive(cfg) ==>
                && actionLevel == Drive(cfg, old(actionLevel), old(lockQueue)[0])
                && loop.posted == old(loop.posted) + [UpdateState(EventLockState(old(lockQueue)[0], UNKNOWN, INTERNAL))]
      ensures !PinLive(cfg) ==> actionLevel == old(actionLevel) && loop.posted == old(loop.posted)
    {
      var received := lockQueue[0];
      lockQueue := lockQueue[1..];
      if cfg.actionPin == PIN_UNSET || !cfg.leaseLive {
        return;
      }
      if received == LOCKED {
        actionLevel := cfg.lockLevel;
      } else if received == UNLOCKED {
        actionLevel := cfg.unlockLevel;
      }
      loop.Publish(UpdateState(EventLockState(received, UNKNOWN, INTERNAL)));
    }
  }
}
