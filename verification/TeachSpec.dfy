/**
 * Teaching a card: an HTTP task arms and cancels an intent, the NFC task expires it, takes it when
 * a card appears, writes that card, and clears the arming when the write is over. Each access to
 * the arming is one locked section; between them the tasks interleave.
 */
module TeachSpec {
  import opened Bytes

  /** The arming, shared under the lock. */
  datatype Desk<T> = Desk(armed: Option<T>, deadline: uint32, result: LastResult)

  datatype LastResult = NoResult | Armed | Cancelled | TimedOut | Success | Failed | Unsupported

  /** When an arming at `now` (milliseconds) is over: 60 seconds by default, in 32-bit arithmetic. */
  function DeadlineFor(now: uint32, timeout: uint32): uint32 {
    var hold: int := if timeout == 0 then 60 else timeout;
    ((now as int) + hold * 1000) % 0x1_0000_0000
  }

  function ArmDesk<T>(d: Desk<T>, item: T, now: uint32, timeout: uint32): (Desk<T>, bool) {
    if d.armed.Some? then (d, false) else (Desk(Some(item), DeadlineFor(now, timeout), Armed), true)
  }

  function TakeDesk<T>(d: Desk<T>): (Desk<T>, Option<T>) {
    if d.armed.None? then (d, None) else (d.(armed := None, deadline := 0), d.armed)
  }

  function CancelDesk<T>(d: Desk<T>): (Desk<T>, bool) {
    (Desk(None, 0, if d.armed.Some? then Cancelled else d.result), d.armed.Some?)
  }

  /** A finished write clears whatever is armed by then. */
  function ClearDesk<T>(d: Desk<T>, result: LastResult): Desk<T> {
    Desk(None, 0, result)
  }

  predicate Overdue<T>(d: Desk<T>, now: uint32) {
    d.armed.Some? && d.deadline != 0 && now > d.deadline
  }

  function ExpireDesk<T>(d: Desk<T>, now: uint32): Desk<T> {
    if Overdue(d, now) then Desk(None, 0, TimedOut) else d
  }

  // ---- The two tasks ----

  datatype Fate = Waiting | Taken | Withdrawn | Expired | Discarded

  /** Arm calls that returned true number the intents 0, 1, 2, ... */
  datatype System = System(
    desk: Desk<nat>, writing: Option<nat>, cardTouched: bool,
    fates: seq<Fate>, cardsWritten: seq<nat>)

  datatype Step =
    | Arm(now: uint32, timeout: uint32)
    | Cancel
    | Poll(now: uint32)
    | CardSeen
    | TouchCard
    | Finish(success: bool)

  const START: System := System(Desk(None, 0, NoResult), None, false, [], [])

  /** The NFC task polls and looks for cards between writes; a write touches one card, once. */
  predicate Enabled(s: System, step: Step) {
    match step
    case Poll(_) => s.writing.None?
    case CardSeen => s.writing.None?
    case TouchCard => s.writing.Some? && !s.cardTouched
    case Finish(_) => s.writing.Some?
    case _ => true
  }

  function Settle(s: System, id: Option<nat>, fate: Fate): System {
    if id.Some? && id.value < |s.fates| then s.(fates := s.fates[id.value := fate]) else s
  }

  function Next(s: System, step: Step): System
    requires Enabled(s, step)
  {
    match step
    case Arm(now, timeout) =>
      var r := ArmDesk(s.desk, |s.fates|, now, timeout);
      if r.1 then s.(desk := r.0, fates := s.fates + [Waiting], cardsWritten := s.cardsWritten + [0]) else s
    case Cancel => Settle(s, s.desk.armed, Withdrawn).(desk := CancelDesk(s.desk).0)
    case Poll(now) =>
      if Overdue(s.desk, now) then Settle(s, s.desk.armed, Expired).(desk := ExpireDesk(s.desk, now)) else s
    case CardSeen =>
      Settle(s, s.desk.armed, Taken).(desk := TakeDesk(s.desk).0, writing := s.desk.armed, cardTouched := false)
    case TouchCard =>
      var id := s.writing.value;
      s.(cardTouched := true,
         cardsWritten := if id < |s.cardsWritten| then s.cardsWritten[id := s.cardsWritten[id] + 1] else s.cardsWritten)
    case Finish(success) =>
      Settle(s, s.desk.armed, Discarded)
        .(desk := ClearDesk(s.desk, if success then Success else Failed), writing := None, cardTouched := false)
  }

  ghost predicate Run(states: seq<System>, steps: seq<Step>) {
    && |states| == |steps| + 1 && states[0] == START
    && forall i :: 0 <= i < |steps| ==> Enabled(states[i], steps[i]) && states[i + 1] == Next(states[i], steps[i])
  }
}
