/** Which roles may share a pin, which pins may be claimed at all, and what each step of the allocator does. */
module GpioLaws {
  import opened Bytes
  import opened GpioSpec
  import opened GpioRuns

  /**
   * In every state of every run, two live claims on one pin have the same role, and it is one of the
   * bus roles or that of a light. Everything else is exclusive, plain outputs and inputs, chip
   * selects, interrupt, reset and enable lines included.
   */
  lemma SharedRoles(b: Board, worlds: seq<World>, steps: seq<Step>, x: Lease, y: Lease)
    requires Run(b, worlds, steps)
    requires x in worlds[|steps|].leases.Values && y in worlds[|steps|].leases.Values
    ensures x.control < |worlds[|steps|].controls| && y.control < |worlds[|steps|].controls|
    ensures PinOf(worlds[|steps|], x) == PinOf(worlds[|steps|], y) && x.claim != y.claim ==>
              x.role == y.role && x.role in {SpiSck, SpiMiso, SpiMosi, I2cSda, I2cScl, Led}
  {
    EveryRunSafe(b, worlds, steps);
  }

  /** A second claim on a pin with one live lease is granted exactly in the same role, one of those six. */
  lemma SecondClaimIff(b: Board, pin: nat, first: Claim, second: Claim)
    requires (forall p <- b.valid :: 0 <= p < b.max) && first.pin == second.pin == pin
    requires BoardVerdict(b, pin, first.mode).None? && BoardVerdict(b, pin, second.mode).None?
    ensures WellFormed(b, Initial(b))
    ensures var claimed := Next(b, Initial(b), Acquire(first));
            && WellFormed(b, claimed) && 0 in claimed.leases
            && (Verdict(b, claimed, second).None? <==>
                  first.role == second.role && first.role in {SpiSck, SpiMiso, SpiMosi, I2cSda, I2cScl, Led})
            && (Verdict(b, claimed, second).Some? ==> Verdict(b, claimed, second) == Some(ALREADY_OWNED))
            && (Verdict(b, claimed, second).Some? ==> Next(b, claimed, Acquire(second)) == claimed)
  {
    GrantKeeps(b, Initial(b), first);
    var claimed := Next(b, Initial(b), Acquire(first));
    assert claimed.leases == map[0 := Lease(0, 0, first.role)];
    assert claimed.leases[0] in claimed.leases.Values;
    assert claimed.entries[pin].holders == [PinHolder(first.consumer, first.role, first.tag)];
  }

  /** A list of holders lets a role in exactly when it is empty, or all of one of the six roles that share. */
  lemma ShareableIff(role: PinRole, holders: seq<PinHolder>)
    ensures Shareable(role, holders) <==>
              holders == []
              || (role in {SpiSck, SpiMiso, SpiMosi, I2cSda, I2cScl, Led}
                  && forall i :: 0 <= i < |holders| ==> holders[i].role == role)
  {
  }

  // ---- The board ----

  /** A pin this board lets a claim of this mode have. */
  predicate Permitted(b: Board, pin: int, mode: Mode) {
    && pin in b.valid && 0 <= pin < b.max && pin % 256 != 255 && pin !in b.restricted
    && (mode == Output || mode == InputOutput || mode == OutputOd || mode == InputOutputOd ==> pin in b.output)
  }

  /** Exactly which answer a claim on a pin without holders gets; the first failing test names it. */
  lemma BoardAnswers(b: Board, w: World, c: Claim)
    requires WellFormed(b, w)
    ensures var v := Verdict(b, w, c);
            && (v == Some(INVALID_GPIO_NUM) <==> c.pin % 256 == 255 || c.pin >= b.max || c.pin !in b.valid)
            && (v == Some(RESTRICTED) <==> c.pin in b.valid && c.pin < b.max && c.pin % 256 != 255 && c.pin in b.restricted)
            && (v.None? || v == Some(ALREADY_OWNED) <==> Permitted(b, c.pin, c.mode))
            && (c.pin in b.valid && w.entries[c.pin].holders == [] ==> v != Some(ALREADY_OWNED))
  {
  }

  /** Every control ever made, in every run, is on a pin the board permits in the mode it was made with. */
  lemma {:induction false} ControlsPermitted(b: Board, worlds: seq<World>, steps: seq<Step>)
    requires Run(b, worlds, steps)
    ensures forall c <- worlds[|steps|].controls :: Permitted(b, c.pin, c.mode)
  {
    if steps != [] {
      var n := |steps| - 1;
      assert Run(b, worlds[..n + 1], steps[..n]);
      ControlsPermitted(b, worlds[..n + 1], steps[..n]);
      RunInv(b, worlds[..n + 1], steps[..n]);
      assert Follows(b, worlds[n], steps[n], worlds[n + 1]);
      StepControls(b, worlds[n], steps[n]);
    }
  }

  lemma StepControls(b: Board, w: World, step: Step)
    requires WellFormed(b, w) && Enabled(w, step) && forall c <- w.controls :: Permitted(b, c.pin, c.mode)
    ensures forall c <- Next(b, w, step).controls :: Permitted(b, c.pin, c.mode)
  {
  }

  /** The configuration's "no pin" values 255 and -1 are granted without touching anything. */
  lemma NoPinIsFree(b: Board, w: World, c: Claim)
    requires WellFormed(b, w) && (c.pin == 255 || c.pin == -1)
    ensures Next(b, w, Acquire(c)) == w && BoardVerdict(b, c.pin, c.mode) == Some(INVALID_GPIO_NUM)
  {
  }

  // ---- The steps ----

  /**
   * A granted claim joins its pin's holders with its consumer, role and name and gets a new lease of
   * a new claim: of a new control on that pin in that mode when none is live there, otherwise of the
   * live one. No other pin, lease or control changes.
   */
  lemma GrantEffect(b: Board, w: World, c: Claim)
    requires Inv(b, w) && !NoPin(c.pin) && Verdict(b, w, c).None?
    ensures var w' := Next(b, w, Acquire(c));
            && w'.entries == w.entries[c.pin := w'.entries[c.pin]] && w'.releases == w.releases
            && w'.entries[c.pin].holders == w.entries[c.pin].holders + [PinHolder(c.consumer, c.role, c.tag)]
            && w'.leases == w.leases[w.nextLease := w'.leases[w.nextLease]] && w.nextLease !in w.leases
            && var l := w'.leases[w.nextLease];
               && l.role == c.role && l.claim == w.nextClaim && w'.entries[c.pin].control == Some(l.control)
               && (forall other <- w.leases.Values :: other.claim != l.claim)
               && (PinLive(w, c.pin) ==> w'.controls == w.controls && w.entries[c.pin].control == Some(l.control))
               && (!PinLive(w, c.pin) ==> w'.controls == w.controls + [PinControl(c.pin, c.mode)] && l.control == |w.controls|)
  {
    var pin: nat := c.pin;
    assert Accounted(w, pin);
    if PinLive(w, pin) {
      var l :| l in w.leases.Values && PinOf(w, l) == pin;
      assert Anchored(w, l);
    } else {
      assert Expired(w, w.entries[pin].control);
    }
  }

  /** A copy is one more lease of the same claim on the same control, and nothing else. */
  lemma CopyEffect(b: Board, w: World, l: nat)
    requires WellFormed(b, w) && l in w.leases
    ensures Next(b, w, Copy(l)) == w.(leases := w.leases[w.nextLease := w.leases[l]], nextLease := w.nextLease + 1)
  {
  }

  /** Dropping takes that lease away, and owes one release of its pin exactly when it was the control's last. */
  lemma DropEffect(b: Board, w: World, l: nat)
    requires WellFormed(b, w) && l in w.leases
    ensures var w' := Next(b, w, Drop(l)); var control := w.leases[l].control;
            && w'.leases == w.leases - {l} && w'.entries == w.entries && w'.controls == w.controls
            && control < |w.controls|
            && w'.releases == w.releases
               + if exists k <- w.leases :: k != l && w.leases[k].control == control then multiset{}
                 else multiset{w.controls[control].pin}
  {
    var rest := w.leases - {l};
    var control := w.leases[l].control;
    assert w.leases[l] in w.leases.Values;
    if k :| k in w.leases && k != l && w.leases[k].control == control {
      assert rest[k] == w.leases[k] && rest[k] in rest.Values;
    } else {
      forall x | x in rest.Values
        ensures x.control != control
      {
        var k :| k in rest && rest[k] == x;
      }
    }
  }

  /** A release pays one of those debts, and empties the entry unless a live control has the pin by then. */
  lemma ReleaseEffect(b: Board, w: World, pin: nat)
    requires Inv(b, w) && pin in w.releases && pin < |w.entries|
    ensures var w' := Next(b, w, Release(pin));
            && w'.releases == w.releases - multiset{pin} && w'.leases == w.leases && w'.controls == w.controls
            && w'.entries == if PinLive(w, pin) then w.entries else w.entries[pin := w.entries[pin].(holders := [])]
  {
    assert Accounted(w, pin);
    if PinLive(w, pin) {
      var l :| l in w.leases.Values && PinOf(w, l) == pin;
      assert Anchored(w, l);
    } else {
      assert Expired(w, w.entries[pin].control);
    }
  }
}
