/** What single requests, taps and reports do, in the terms of the configuration they are made under. */
module LockLaws {
  import opened Bytes
  import opened LockSpec
  import opened LockRuns

  // ---- The momentary timer ----

  /**
   * The source's bit of the configured momentary sources: 1 for HomeKit, 2 for NFC. A configuration
   * whose source bits and pin together fill the byte arms nothing, outside dumb-switch mode.
   */
  predicate Momentary(cfg: LockConfig, source: uint8) {
    && ((cfg.momentaryEnabled | cfg.actionPin) == 255 ==> cfg.dumbSwitch)
    && ((source == HOMEKIT && cfg.momentaryEnabled & 1 != 0) || (source == NFC && cfg.momentaryEnabled & 2 != 0))
  }

  /** Exactly when a request leaves the timer running. */
  lemma TimerAfterRequest(cfg: LockConfig, c: Core, state: uint8, source: uint8, startOk: bool)
    ensures SetTarget(cfg, c, state, source, startOk).core.timerActive <==>
              if state == c.target == c.current then c.timerActive
              else state == UNLOCKED && Momentary(cfg, source) && c.timerExists && startOk
  {
  }

  /** Exactly when an override leaves the timer running. */
  lemma TimerAfterOverride(cfg: LockConfig, c: Core, cState: uint8, tState: uint8, source: uint8, startOk: bool)
    ensures var e := Override(cfg, c, cState, tState, source, startOk).core;
            e.timerActive <==> e.target == UNLOCKED && Momentary(cfg, source) && c.timerExists && startOk
  {
  }

  /** An unlock of a lock not meant to be open, from each source: what arms the timer and what never does. */
  lemma UnlockArms(cfg: LockConfig, c: Core, source: uint8)
    requires c.timerExists && c.target != UNLOCKED
    ensures var armed := SetTarget(cfg, c, UNLOCKED, source, true).core.timerActive;
            if (cfg.momentaryEnabled | cfg.actionPin) == 255 && !cfg.dumbSwitch then !armed
            else
              && (source == HOMEKIT ==> (armed <==> cfg.momentaryEnabled & M_HOME != 0))
              && (source == NFC ==> (armed <==> cfg.momentaryEnabled & M_HK != 0))
              && (source != HOMEKIT && source != NFC ==> !armed)
  {
  }

  // ---- Requests, overrides and reports ----

  /**
   * A request for something new becomes the target, is remembered with its source, and is reported
   * last; the hardware hears of it first, unless it is a tap that GPIO control excludes. Only in
   * dumb-switch mode is it the current state at once. A request for what is so does nothing.
   */
  lemma RequestEffect(cfg: LockConfig, c: Core, state: uint8, source: uint8, startOk: bool)
    ensures var e := SetTarget(cfg, c, state, source, startOk);
            if state == c.target == c.current then e == Effect(c, [])
            else
              var reported := EventLockState(if cfg.dumbSwitch then state else c.current, state, source);
              && (e.core.target, e.core.lastSource) == (state, source) && e.core.current == reported.currentState
              && e.core.timerExists == c.timerExists
              && e.events == (if source == NFC && !cfg.hkControlled && !cfg.dumbSwitch then [StateChanged(reported)]
                              else [HwAction(reported), StateChanged(reported)])
  {
  }

  /** An override takes each state it is not told to leave, and tells the hardware and the observers. */
  lemma OverrideEffect(cfg: LockConfig, c: Core, cState: uint8, tState: uint8, source: uint8, startOk: bool)
    ensures var e := Override(cfg, c, cState, tState, source, startOk);
            if cState == c.current && tState == c.target then
              e.events == [] && (e.core.current, e.core.target, e.core.lastSource) == (c.current, c.target, c.lastSource)
            else
              && e.core.current == (if cState == 6 then c.current else cState)
              && e.core.target == (if tState == 6 then c.target else tState)
              && e.core.lastSource == source
              && var reported := EventLockState(e.core.current, e.core.target, source);
                 e.events == [HwAction(reported), StateChanged(reported)]
  {
  }

  /** A report moves the current state alone, and is passed on with its own source and the target. */
  lemma ReportEffect(c: Core, reported: EventLockState)
    ensures var e := Update(c, reported);
            && e.core == c.(current := reported.currentState, lastSource := reported.source)
            && e.events == [StateChanged(EventLockState(reported.currentState, c.target, reported.source))]
  {
  }

  // ---- Taps and the pin ----

  /**
   * Where an accepted tap takes a tracking pipeline once it has drained: open where the lock always
   * unlocks, closed where it always locks, and otherwise to the opposite of what is current. Always
   * unlocking wins over always locking.
   */
  lemma TapEnds(cfg: LockConfig, s: System, startOk: bool)
    requires PinLive(cfg) && Tracks(s) && (cfg.hkControlled || cfg.dumbSwitch)
    ensures var e := Settled(cfg, Next(cfg, s, Tap(startOk))).core;
            && e.current == e.target
            && (cfg.alwaysUnlock ==> e.current == UNLOCKED)
            && (cfg.alwaysLock && !cfg.alwaysUnlock ==> e.current == LOCKED)
            && (!cfg.alwaysLock && !cfg.alwaysUnlock ==> e.current == if s.core.current == LOCKED then UNLOCKED else LOCKED)
  {
    RequestTracks(cfg, s, TapTarget(cfg, s.core), NFC, startOk);
    RequestEffect(cfg, s.core, TapTarget(cfg, s.core), NFC, startOk);
  }

  /** A pin without a number or without its lease is never driven, and its requests are never reported. */
  lemma DeadPin(cfg: LockConfig, s: System)
    requires s.lockQueue != [] && (cfg.actionPin == 255 || !cfg.leaseLive)
    ensures var t := Next(cfg, s, LockTask);
            t.pin == s.pin && t.updates == s.updates && t.lockQueue == s.lockQueue[1..]
  {
  }

  /** A live pin goes to the level of a lock or unlock request, and stays for any other state. */
  lemma DrivenPin(cfg: LockConfig, s: System)
    requires s.lockQueue != [] && cfg.actionPin != 255 && cfg.leaseLive
    ensures var t, state := Next(cfg, s, LockTask), s.lockQueue[0];
            && t.updates == s.updates + [state] && t.core == s.core
            && (state == LOCKED ==> t.pin == cfg.lockLevel) && (state == UNLOCKED ==> t.pin == cfg.unlockLevel)
            && (state != LOCKED && state != UNLOCKED ==> t.pin == s.pin)
  {
  }

  /** The timer's expiry stops it and owes one callback; the callback pays it and asks for LOCKED on the device's own account. */
  lemma ExpiryEffect(cfg: LockConfig, s: System, startOk: bool)
    requires s.core.timerActive
    ensures var expired := Next(cfg, s, TimerExpire);
            && expired == s.(core := s.core.(timerActive := false), due := s.due + 1)
            && Enabled(expired, TimerCallback(startOk))
            && var called := Next(cfg, expired, TimerCallback(startOk));
               called.due == s.due && called.core == SetTarget(cfg, expired.core, LOCKED, INTERNAL, startOk).core
  {
  }
}
