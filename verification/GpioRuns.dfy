/** What every interleaving of acquire, copy, drop and the late release keeps. */
module GpioRuns {
  import opened Bytes
  import opened GpioSpec

  lemma LeaseKept(w: World, w': World, l: Lease)
    requires Anchored(w, l)
    requires w.controls <= w'.controls && |w'.entries| == |w.entries|
    requires var pin := PinOf(w, l);
             && w'.entries[pin].control == w.entries[pin].control
             && w.entries[pin].holders <= w'.entries[pin].holders
    ensures Anchored(w', l)
  {
  }

  /** With a live lease on the pin, a grant means every live claim there shares the new role. */
  lemma GrantCompatible(b: Board, w: World, c: Claim, l: Lease)
    requires Inv(b, w) && !NoPin(c.pin) && Verdict(b, w, c).None?
    requires l in w.leases.Values && PinOf(w, l) == c.pin
    ensures l.role == c.role && (RoleIsPassive(c.role) || c.role == Led)
    ensures w.entries[c.pin].control == Some(l.control) && !Expired(w, Some(l.control))
  {
  }

  lemma GrantLeases(w: World, c: Claim)
    requires 0 <= c.pin < |w.entries|
    requires forall k <- w.leases :: k < w.nextLease
    ensures var w' := Grant(w, c);
            w'.leases.Values == w.leases.Values + {w'.leases[w.nextLease]}
  {
    var w' := Grant(w, c);
    forall l | l in w.leases.Values
      ensures l in w'.leases.Values
    {
      var k :| k in w.leases && w.leases[k] == l;
      assert w'.leases[k] == l;
    }
    assert w'.leases[w.nextLease] in w'.leases.Values;
  }

  lemma GrantAnchors(b: Board, w: World, c: Claim, l: Lease)
    requires Inv(b, w) && !NoPin(c.pin) && Verdict(b, w, c).None?
    requires l in Grant(w, c).leases.Values
    ensures Anchored(Grant(w, c), l)
    ensures PinOf(Grant(w, c), l) == c.pin ==> Compatible(l, Grant(w, c).leases[w.nextLease])
    ensures l == Grant(w, c).leases[w.nextLease] ==> PinOf(Grant(w, c), l) == c.pin
  {
    var w' := Grant(w, c);
    GrantLeases(w, c);
    var pin: nat := c.pin;
    assert Accounted(w, pin);
    if l == w'.leases[w.nextLease] {
      assert PinHolder(c.consumer, c.role, c.tag) in w'.entries[pin].holders;
    } else {
      assert Anchored(w, l);
      if PinOf(w, l) == pin {
        GrantCompatible(b, w, c, l);
      }
      LeaseKept(w, w', l);
    }
  }

  lemma GrantPair(b: Board, w: World, c: Claim, x: Lease, y: Lease)
    requires Inv(b, w) && !NoPin(c.pin) && Verdict(b, w, c).None?
    requires x in Grant(w, c).leases.Values && y in Grant(w, c).leases.Values
    requires x.control < |Grant(w, c).controls| && y.control < |Grant(w, c).controls|
    requires PinOf(Grant(w, c), x) == PinOf(Grant(w, c), y)
    ensures Compatible(x, y)
  {
    var w' := Grant(w, c);
    GrantLeases(w, c);
    GrantAnchors(b, w, c, x);
    GrantAnchors(b, w, c, y);
    if x in w.leases.Values && y in w.leases.Values {
      assert Anchored(w, x) && Anchored(w, y);
      assert PinOf(w, x) == PinOf(w', x) && PinOf(w, y) == PinOf(w', y);
    }
  }

  lemma GrantKeeps(b: Board, w: World, c: Claim)
    requires Inv(b, w) && !NoPin(c.pin) && Verdict(b, w, c).None?
    ensures Inv(b, Grant(w, c))
  {
    var w' := Grant(w, c);
    GrantLeases(w, c);
    forall l | l in w'.leases.Values
      ensures Anchored(w', l)
    {
      GrantAnchors(b, w, c, l);
    }
    forall x, y | x in w'.leases.Values && y in w'.leases.Values && PinOf(w', x) == PinOf(w', y)
      ensures Compatible(x, y)
    {
      GrantPair(b, w, c, x, y);
    }
    forall p | 0 <= p < |w'.entries|
      ensures Accounted(w', p)
    {
      GrantAccounts(b, w, c, p);
    }
  }

  lemma GrantAccounts(b: Board, w: World, c: Claim, p: nat)
    requires Inv(b, w) && !NoPin(c.pin) && Verdict(b, w, c).None? && p < |w.entries|
    ensures Accounted(Grant(w, c), p)
  {
    assert Accounted(w, p);
    GrantLeases(w, c);
  }

  lemma CopyKeeps(b: Board, w: World, l: nat)
    requires Inv(b, w) && l in w.leases
    ensures Inv(b, Next(b, w, Copy(l)))
  {
    var w' := Next(b, w, Copy(l));
    SameLeases(w, w', l);
    forall p | 0 <= p < |w'.entries|
      ensures Accounted(w', p)
    {
      assert Accounted(w, p);
    }
    forall x | x in w'.leases.Values
      ensures Anchored(w', x)
    {
      LeaseKept(w, w', x);
    }
  }

  lemma SameLeases(w: World, w': World, l: nat)
    requires l in w.leases && (forall k <- w.leases :: k < w.nextLease)
    requires w'.leases == w.leases[w.nextLease := w.leases[l]]
    ensures w'.leases.Values == w.leases.Values
  {
    forall x | x in w.leases.Values
      ensures x in w'.leases.Values
    {
      var k :| k in w.leases && w.leases[k] == x;
      assert w'.leases[k] == x;
    }
  }

  lemma DropKeeps(b: Board, w: World, l: nat)
    requires Inv(b, w) && l in w.leases
    ensures Inv(b, Dropped(w, l))
  {
    var w' := Dropped(w, l);
    var id := w.leases[l].control;
    assert w.leases[l] in w.leases.Values;
    assert forall x <- w'.leases.Values :: x in w.leases.Values;
    forall x | x in w'.leases.Values
      ensures Anchored(w', x)
    {
      LeaseKept(w, w', x);
    }
    forall p | 0 <= p < |w'.entries|
      ensures Accounted(w', p)
    {
      assert Accounted(w, p);
      var e := w.entries[p];
      if e.holders != [] && Expired(w', e.control) && !Expired(w, e.control) {
        var x :| x in w.leases.Values && x.control == e.control.value;
        var k :| k in w.leases && w.leases[k] == x;
        if k != l {
          OtherLeaseHolds(w, l, k);
          assert false;
        }
      }
    }
  }

  /** A control some other lease refers to does not expire by the drop. */
  lemma OtherLeaseHolds(w: World, l: nat, k: nat)
    requires l in w.leases && k in w.leases && k != l
    ensures !Expired(w.(leases := w.leases - {l}), Some(w.leases[k].control))
  {
    assert (w.leases - {l})[k] == w.leases[k];
  }

  lemma ReleaseKeeps(b: Board, w: World, pin: nat)
    requires Inv(b, w) && pin in w.releases
    ensures Inv(b, Released(w, pin))
  {
    var w' := Released(w, pin);
    var e := w.entries[pin];
    forall x | x in w'.leases.Values
      ensures Anchored(w', x)
    {
      assert Anchored(w, x);
      if PinOf(w, x) == pin {
        assert !Expired(w, e.control);
      }
      LeaseKept(w, w', x);
    }
    forall p | 0 <= p < |w'.entries|
      ensures Accounted(w', p)
    {
      assert Accounted(w, p);
      assert Expired(w', w'.entries[p].control) == Expired(w, w.entries[p].control);
    }
  }

  lemma StepKeeps(b: Board, w: World, step: Step)
    requires Inv(b, w) && Enabled(w, step)
    ensures Inv(b, Next(b, w, step))
  {
    match step
    case Acquire(c) => if !NoPin(c.pin) && Verdict(b, w, c).None? { GrantKeeps(b, w, c); }
    case Copy(l) => CopyKeeps(b, w, l);
    case Drop(l) => DropKeeps(b, w, l);
    case Release(pin) => ReleaseKeeps(b, w, pin);
  }

  lemma InvIsSafe(b: Board, w: World)
    requires Inv(b, w)
    ensures Safe(w)
  {
  }

  /** From start-up on; nothing is said of what would follow an ill-formed world. */
  ghost predicate Run(b: Board, worlds: seq<World>, steps: seq<Step>) {
    && |worlds| == |steps| + 1 && worlds[0] == Initial(b)
    && (forall pin <- b.valid :: 0 <= pin < b.max)
    && forall i :: 0 <= i < |steps| ==> Follows(b, worlds[i], steps[i], worlds[i + 1])
  }

  ghost predicate Follows(b: Board, w: World, step: Step, w': World) {
    WellFormed(b, w) ==> Enabled(w, step) && w' == Next(b, w, step)
  }

  lemma {:induction false} RunInv(b: Board, worlds: seq<World>, steps: seq<Step>)
    requires Run(b, worlds, steps)
    ensures Inv(b, worlds[|steps|])
  {
    if steps != [] {
      var n := |steps| - 1;
      assert Run(b, worlds[..n + 1], steps[..n]);
      RunInv(b, worlds[..n + 1], steps[..n]);
      StepKeeps(b, worlds[n], steps[n]);
    }
  }

  /** Live leases stay compatible under every interleaving, whatever the holder lists say. */
  lemma EveryRunSafe(b: Board, worlds: seq<World>, steps: seq<Step>)
    requires Run(b, worlds, steps)
    ensures Safe(worlds[|steps|])
  {
    RunInv(b, worlds, steps);
    InvIsSafe(b, worlds[|steps|]);
  }

  ghost predicate PinLive(w: World, pin: int) {
    exists l <- w.leases.Values :: l.control < |w.controls| && PinOf(w, l) == pin
  }

  /** Once the leases are gone and their destructors have finished, nothing is held. */
  lemma NoLeak(b: Board, worlds: seq<World>, steps: seq<Step>, pin: nat)
    requires Run(b, worlds, steps) && pin < b.max
    requires !PinLive(worlds[|steps|], pin) && pin !in worlds[|steps|].releases
    ensures pin < |worlds[|steps|].entries| && worlds[|steps|].entries[pin].holders == []
  {
    RunInv(b, worlds, steps);
    var w := worlds[|steps|];
    assert Accounted(w, pin);
    assert Expired(w, w.entries[pin].control);
  }

  /**
   * Exactly when a claim on a real pin is granted: the board allows it, and the pin has no live
   * lease (a pending release does not matter) or every listed holder, stale ones included, has
   * the same role and that is a bus role or a light's.
   */
  lemma GrantedIff(b: Board, worlds: seq<World>, steps: seq<Step>, c: Claim)
    requires Run(b, worlds, steps) && !NoPin(c.pin)
    ensures WellFormed(b, worlds[|steps|])
    ensures var w := worlds[|steps|];
            Verdict(b, w, c).None? <==>
              && BoardVerdict(b, c.pin, c.mode).None?
              && (PinLive(w, c.pin) ==>
                    c.role in {SpiSck, SpiMiso, SpiMosi, I2cSda, I2cScl, Led} && forall h <- w.entries[c.pin].holders :: h.role == c.role)
  {
    RunInv(b, worlds, steps);
    var w := worlds[|steps|];
    if BoardVerdict(b, c.pin, c.mode).None? {
      var pin: nat := c.pin;
      assert Accounted(w, pin);
      if PinLive(w, pin) {
        var l :| l in w.leases.Values && PinOf(w, l) == pin;
        assert Anchored(w, l);
        var h :| h in w.entries[pin].holders && h.role == l.role;
        assert w.entries[pin].holders != [] && !Expired(w, w.entries[pin].control);
      }
    }
  }

  /**
   * A stale holder turns away claims that every live lease would allow. Say an output on `pin` was
   * dropped and its destructor has not released the entry yet: an LED claim is granted at once, the
   * late release then clears nothing, and every further LED claim is refused although only the LED
   * is live.
   */
  lemma StaleHolderRefuses(b: Board, w: World, pin: nat, led: Claim)
    requires Inv(b, w) && pin in w.releases && !PinLive(w, pin)
    requires exists h <- w.entries[pin].holders :: h.role != Led
    requires led.pin == pin && led.role == Led && BoardVerdict(b, pin, led.mode).None?
    ensures var granted := Next(b, w, Acquire(led));
            && Verdict(b, w, led).None? && WellFormed(b, granted) && pin in granted.releases
            && var late := Next(b, granted, Release(pin));
               && WellFormed(b, late) && PinLive(late, pin)
               && (forall l <- late.leases.Values :: PinOf(late, l) == pin ==> l.role == Led)
               && Verdict(b, late, led) == Some(ALREADY_OWNED)
  {
    assert Accounted(w, pin);
    assert Expired(w, w.entries[pin].control);
    var granted := Next(b, w, Acquire(led));
    GrantKeeps(b, w, led);
    OnlyTheGrantIsLive(b, w, pin, led);
    StaleRelease(b, w, granted, pin);
  }

  /** Such a state is two steps from start-up: an output claim, and its lease dropped. */
  lemma StaleHolderReached(b: Board, pin: nat, tag: string)
    requires (forall p <- b.valid :: 0 <= p < b.max) && BoardVerdict(b, pin, Output).None?
    ensures WellFormed(b, Initial(b))
    ensures var claimed := Next(b, Initial(b), Acquire(Claim(pin, Output, GpioOut, Hardware, tag)));
            && WellFormed(b, claimed) && 0 in claimed.leases
            && var dropped := Next(b, claimed, Drop(0));
               && Inv(b, dropped) && pin in dropped.releases && !PinLive(dropped, pin)
               && exists h <- dropped.entries[pin].holders :: h.role != Led
  {
    var start := Initial(b);
    var out := Claim(pin, Output, GpioOut, Hardware, tag);
    GrantKeeps(b, start, out);
    var claimed := Next(b, start, Acquire(out));
    assert claimed.leases == map[0 := Lease(0, 0, GpioOut)];
    DropKeeps(b, claimed, 0);
    assert PinHolder(Hardware, GpioOut, tag) in Next(b, claimed, Drop(0)).entries[pin].holders;
  }

  /** A grant on a pin without live leases makes its own lease the only live one there. */
  lemma OnlyTheGrantIsLive(b: Board, w: World, pin: nat, c: Claim)
    requires Inv(b, w) && !NoPin(c.pin) && Verdict(b, w, c).None? && pin == c.pin && !PinLive(w, pin)
    ensures PinLive(Grant(w, c), pin)
    ensures forall l <- Grant(w, c).leases.Values ::
              l.control < |Grant(w, c).controls| && (PinOf(Grant(w, c), l) == pin ==> l.role == c.role)
  {
    var w' := Grant(w, c);
    GrantLeases(w, c);
    GrantAnchors(b, w, c, w'.leases[w.nextLease]);
    forall l | l in w.leases.Values
      ensures l.control < |w.controls| && PinOf(w', l) != pin
    {
      assert PinOf(w', l) == PinOf(w, l);
    }
  }

  /** The late release of a pin that was claimed again changes nothing but the pending count. */
  lemma StaleRelease(b: Board, w: World, granted: World, pin: nat)
    requires Inv(b, granted) && pin in granted.releases && PinLive(granted, pin)
    requires pin < |w.entries| && w.entries[pin].holders <= granted.entries[pin].holders
    requires exists h <- w.entries[pin].holders :: h.role != Led
    ensures var late := Next(b, granted, Release(pin));
            && late == granted.(releases := granted.releases - multiset{pin})
            && !Expired(late, late.entries[pin].control)
            && exists h <- late.entries[pin].holders :: h.role != Led
  {
  }
}
