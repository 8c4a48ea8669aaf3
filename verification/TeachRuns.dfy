/** What every interleaving of the HTTP and NFC tasks keeps. */
module TeachRuns {
  import opened Bytes
  import opened TeachSpec

  function Count(fates: seq<Fate>, fate: Fate): nat {
    if fates == [] then 0 else (if fates[0] == fate then 1 else 0) + Count(fates[1..], fate)
  }

  /** The armed intent is the only waiting one, and only taken intents reach a card, once at most. */
  predicate Inv(s: System) {
    && |s.fates| == |s.cardsWritten|
    && (s.desk.armed.Some? ==> s.desk.armed.value < |s.fates|)
    && (forall i :: 0 <= i < |s.fates| ==> (s.fates[i] == Waiting <==> s.desk.armed == Some(i)))
    && (s.writing.Some? ==> s.writing.value < |s.fates| && s.fates[s.writing.value] == Taken)
    && (forall i :: 0 <= i < |s.fates| ==> s.cardsWritten[i] <= 1)
    && (forall i :: 0 <= i < |s.fates| && s.cardsWritten[i] == 1 ==> s.fates[i] == Taken)
    && (s.writing.Some? && !s.cardTouched ==> s.cardsWritten[s.writing.value] == 0)
  }

  lemma StepKeeps(s: System, step: Step)
    requires Inv(s) && Enabled(s, step)
    ensures Inv(Next(s, step))
    ensures |s.fates| <= |Next(s, step).fates|
    ensures forall i :: 0 <= i < |s.fates| && s.fates[i] != Waiting ==> Next(s, step).fates[i] == s.fates[i]
  {
  }

  lemma {:induction false} RunInv(states: seq<System>, steps: seq<Step>)
    requires Run(states, steps)
    ensures forall i :: 0 <= i < |states| ==> Inv(states[i])
  {
    if steps != [] {
      var n := |steps| - 1;
      assert Run(states[..n + 1], steps[..n]);
      RunInv(states[..n + 1], steps[..n]);
      assert states[..n + 1][n] == states[n];
      StepKeeps(states[n], steps[n]);
      assert forall i :: 0 <= i <= n ==> states[i] == states[..n + 1][i];
    }
  }

  lemma {:induction false} CountSplit(fates: seq<Fate>)
    ensures |fates| == Count(fates, Waiting) + Count(fates, Taken) + Count(fates, Withdrawn)
                       + Count(fates, Expired) + Count(fates, Discarded)
  {
    if fates != [] {
      CountSplit(fates[1..]);
    }
  }

  lemma {:induction false} CountOne(fates: seq<Fate>, at: Option<nat>)
    requires forall i :: 0 <= i < |fates| ==> (fates[i] == Waiting <==> at == Some(i))
    requires at.Some? ==> at.value < |fates|
    ensures Count(fates, Waiting) == if at.Some? then 1 else 0
  {
    if fates != [] {
      var rest := if at.Some? && at.value > 0 then Some(at.value - 1) else None;
      assert forall i :: 0 <= i < |fates[1..]| ==> fates[1..][i] == fates[i + 1];
      CountOne(fates[1..], rest);
    }
  }

  /**
   * Conservation: the armings that returned true are the taken, the cancelled, the expired and the
   * discarded ones, and the one still armed if any.
   */
  lemma Conservation(states: seq<System>, steps: seq<Step>)
    requires Run(states, steps)
    ensures var s := states[|steps|];
            |s.fates| == Count(s.fates, Taken) + Count(s.fates, Withdrawn) + Count(s.fates, Expired)
                         + Count(s.fates, Discarded) + (if s.desk.armed.Some? then 1 else 0)
  {
    RunInv(states, steps);
    CountSplit(states[|steps|].fates);
    CountOne(states[|steps|].fates, states[|steps|].desk.armed);
  }

  lemma {:induction false} FateIsFinal(states: seq<System>, steps: seq<Step>, k: nat, id: nat)
    requires Run(states, steps) && k <= |steps|
    requires id < |states[k].fates| && states[k].fates[id] != Waiting
    ensures id < |states[|steps|].fates| && states[|steps|].fates[id] == states[k].fates[id]
    decreases |steps| - k
  {
    RunInv(states, steps);
    if k < |steps| {
      StepKeeps(states[k], steps[k]);
      assert states[k + 1] == Next(states[k], steps[k]);
      FateIsFinal(states, steps, k + 1, id);
    }
  }

  /** Each intent writes at most one card, and only if it was taken. */
  lemma OneCardPerIntent(states: seq<System>, steps: seq<Step>, id: nat)
    requires Run(states, steps) && id < |states[|steps|].fates|
    ensures |states[|steps|].fates| == |states[|steps|].cardsWritten|
    ensures states[|steps|].cardsWritten[id] <= 1
    ensures states[|steps|].cardsWritten[id] == 1 ==> states[|steps|].fates[id] == Taken
  {
    RunInv(states, steps);
  }

  /** A cancel that returns true withdraws the armed intent, which then never writes a card. */
  lemma CancelledNeverWrites(states: seq<System>, steps: seq<Step>, k: nat)
    requires Run(states, steps) && k < |steps| && steps[k] == Cancel && CancelDesk(states[k].desk).1
    ensures var id := states[k].desk.armed.value;
            && id < |states[|steps|].fates| == |states[|steps|].cardsWritten|
            && states[|steps|].fates[id] == Withdrawn && states[|steps|].cardsWritten[id] == 0
  {
    RunInv(states, steps);
    assert states[k + 1] == Next(states[k], steps[k]);
    FateIsFinal(states, steps, k + 1, states[k].desk.armed.value);
  }

  /**
   * An arming that returned true can be lost without a card: exactly when a write that was under
   * way finishes while it is armed.
   */
  lemma DiscardedIff(states: seq<System>, steps: seq<Step>, k: nat, id: nat)
    requires Run(states, steps) && k < |steps|
    requires id < |states[k].fates| && states[k].fates[id] == Waiting
    ensures id < |states[k + 1].fates|
    ensures states[k + 1].fates[id] == Discarded <==> steps[k].Finish?
    ensures steps[k].Finish? ==> states[k].writing.Some? && states[k].writing.value != id
    ensures steps[k].Finish? ==> states[k + 1].desk.result == if steps[k].success then Success else Failed
  {
    RunInv(states, steps);
    StepKeeps(states[k], steps[k]);
    assert states[k + 1] == Next(states[k], steps[k]);
  }

  const ARMED: System := System(Desk(Some(0), 61000, Armed), None, false, [Waiting], [0])
  const TAKEN: System := System(Desk(None, 0, Armed), Some(0), false, [Taken], [0])
  const TOUCHED: System := System(Desk(None, 0, Armed), Some(0), true, [Taken], [1])
  const ARMED_AGAIN: System := System(Desk(Some(1), 62000, Armed), Some(0), true, [Taken, Waiting], [1, 0])
  const FINISHED: System := System(Desk(None, 0, Success), None, false, [Taken, Discarded], [1, 0])

  /** One such run: a second intent is armed while the first one's card is being written. */
  lemma DiscardedRun()
    ensures Run([START, ARMED, TAKEN, TOUCHED, ARMED_AGAIN, FINISHED],
                [Arm(1000, 0), CardSeen, TouchCard, Arm(2000, 0), Finish(true)])
  {
    assert Next(START, Arm(1000, 0)) == ARMED;
    assert Next(ARMED, CardSeen) == TAKEN;
    assert Next(TAKEN, TouchCard) == TOUCHED;
    assert Next(TOUCHED, Arm(2000, 0)) == ARMED_AGAIN;
    assert Next(ARMED_AGAIN, Finish(true)) == FINISHED;
  }

  /** Without a wrap of the millisecond clock, an arming lasts exactly its hold time. */
  lemma HoldTime(now: uint32, timeout: uint32, later: uint32)
    requires var hold: int := if timeout == 0 then 60 else timeout;
             (now as int) + hold * 1000 < 0x1_0000_0000
    ensures var hold: int := if timeout == 0 then 60 else timeout;
            Overdue(ArmDesk(Desk(None, 0, NoResult), 0, now, timeout).0, later) <==> (later as int) > (now as int) + hold * 1000
  {
  }

  // ---- Fates and hands ----

  /** A waiting intent is taken exactly by the next card seen, which is then its write. */
  lemma TakenIff(states: seq<System>, steps: seq<Step>, k: nat, id: nat)
    requires Run(states, steps) && k < |steps| && id < |states[k].fates| && states[k].fates[id] == Waiting
    ensures id < |states[k + 1].fates|
    ensures states[k + 1].fates[id] == Taken <==> steps[k].CardSeen?
    ensures steps[k].CardSeen? ==> states[k + 1].writing == Some(id) && !states[k + 1].cardTouched
  {
    RunInv(states, steps);
    assert states[k + 1] == Next(states[k], steps[k]);
  }

  /** It expires exactly by a poll past its deadline, and is withdrawn exactly by a cancel; the result says which. */
  lemma ExpiredOrWithdrawn(states: seq<System>, steps: seq<Step>, k: nat, id: nat)
    requires Run(states, steps) && k < |steps| && id < |states[k].fates| && states[k].fates[id] == Waiting
    ensures id < |states[k + 1].fates|
    ensures states[k + 1].fates[id] == Expired <==>
              steps[k].Poll? && states[k].desk.deadline != 0 && steps[k].now > states[k].desk.deadline
    ensures states[k + 1].fates[id] == Withdrawn <==> steps[k].Cancel?
    ensures states[k + 1].fates[id] == Expired ==> states[k + 1].desk == Desk(None, 0, TimedOut)
    ensures states[k + 1].fates[id] == Withdrawn ==> states[k + 1].desk == Desk(None, 0, Cancelled)
  {
    RunInv(states, steps);
    assert states[k + 1] == Next(states[k], steps[k]);
  }

  /**
   * What was armed is what is taken, once; until then a second arming is refused and changes
   * nothing, and after a cancel or an expiry there is nothing to take.
   */
  lemma ArmedIsTaken<T>(d: Desk<T>, item: T, other: T, now: uint32, timeout: uint32, later: uint32)
    requires d.armed == None
    ensures var a := ArmDesk(d, item, now, timeout);
            && a.1 && a.0.result == Armed && ArmDesk(a.0, other, now, timeout) == (a.0, false)
            && TakeDesk(a.0).1 == Some(item) && TakeDesk(TakeDesk(a.0).0).1 == None
            && TakeDesk(a.0).0.result == Armed
            && CancelDesk(a.0).1 && TakeDesk(CancelDesk(a.0).0).1 == None
            && (Overdue(a.0, later) ==> TakeDesk(ExpireDesk(a.0, later)).1 == None)
            && (!Overdue(a.0, later) ==> TakeDesk(ExpireDesk(a.0, later)).1 == Some(item))
  {
  }

  /** A cancel with nothing armed says so and leaves the last result to be read. */
  lemma IdleCancel<T>(d: Desk<T>)
    requires d.armed == None
    ensures !CancelDesk(d).1 && CancelDesk(d).0.result == d.result && TakeDesk(d) == (d, None)
  {
  }
}
