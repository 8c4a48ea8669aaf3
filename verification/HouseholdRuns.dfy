/** A record never claims a recovery secret the device does not hold, whatever cuts a save short. */
module HouseholdRuns {
  import opened Bytes
  import opened HouseholdSpec

  predicate Held(b: Option<bytes>) {
    b.Some? && b.value != []
  }

  /** A META record that claims a secret has both blobs behind it. */
  predicate Backed(f: Flash) {
    f.meta.Some? && f.meta.value.hasSecret ==> Held(f.secret) && Held(f.salt)
  }

  /** The claim in RAM has both values behind it. */
  predicate RamBacked(r: Ram) {
    r.info.hasSecret ==> r.secret != [] && r.salt != []
  }

  /**
   * Any prefix of a save's writes keeps flash backed; once the META write is among them flash is
   * backed even if it was not before, and without it META is untouched.
   */
  lemma SaveBacked(r: Ram, f: Flash, fault: Fault)
    requires RamBacked(r)
    ensures Backed(f) ==> Backed(SaveFlash(r, f, fault))
    ensures if fault.writes >= |Writes(r)| then Backed(SaveFlash(r, f, fault))
            else SaveFlash(r, f, fault).meta == f.meta
  {
    SavedBlobs(r, f, fault);
  }

  /** Either flash is backed, or it still carries the record the device started with. */
  predicate Sound(legacy: Flash, d: Device) {
    RamBacked(d.ram) && (Backed(d.flash) || d.flash.meta == legacy.meta)
  }

  lemma SaveSound(legacy: Flash, d: Device, fault: Fault)
    requires Sound(legacy, d)
    ensures Sound(legacy, Save(d, fault)) && Save(d, fault).ram == d.ram
    ensures Backed(d.flash) ==> Backed(Save(d, fault).flash)
  {
    SaveBacked(d.ram, d.flash, fault);
  }

  lemma StepSound(kdf: Kdf, legacy: Flash, d: Device, step: Step)
    requires Sound(legacy, d) && Minted(step)
    ensures Sound(legacy, Next(kdf, d, step))
    ensures Backed(d.flash) ==> Backed(Next(kdf, d, step).flash)
  {
    match step
    case JoinStep(id, name, trust, secret, salt, first, second) =>
      var i := d.ram.info.(id := id, name := name, state := PROVISIONING, version := CONFIG_VERSION_CURRENT,
                           trustKey := if trust != [] then trust else d.ram.info.trustKey);
      var named := d.(ram := d.ram.(info := i));
      if d.ram.secret == [] || d.ram.salt == [] {
        SaveSound(legacy, named.(ram := WithFingerprint(kdf, Ram(i.(hasSecret := true, exported := false), secret, salt))), first);
      }
      SaveSound(legacy, EnsureSecret(kdf, named, secret, salt, first), second);
    case RestoreStep(id, name, trust, secret, salt, fault) =>
      if secret != [] && salt != [] {
        var i := d.ram.info.(id := id, name := name, state := ACTIVE, version := CONFIG_VERSION_CURRENT,
                             trustKey := if trust != [] then trust else d.ram.info.trustKey,
                             hasSecret := true, exported := true);
        SaveSound(legacy, d.(ram := WithFingerprint(kdf, Ram(i, secret, salt))), fault);
      }
    case StateStep(state, fault) => SaveSound(legacy, d.(ram := d.ram.(info := d.ram.info.(state := state))), fault);
    case ExportStep(fault) => SaveSound(legacy, d.(ram := d.ram.(info := d.ram.info.(exported := true))), fault);
    case MigrateStep(fault) => SaveSound(legacy, d.(ram := d.ram.(info := BLANK_INFO)), fault);
    case Reboot(fault) => BootSound(legacy, d.flash, fault);
  }

  /** Booting from any flash, a legacy one included, withdraws an unbacked claim. */
  lemma BootSound(legacy: Flash, f: Flash, fault: Fault)
    requires Backed(f) || f.meta == legacy.meta
    ensures Sound(legacy, Load(f, fault))
    ensures Backed(f) ==> Backed(Load(f, fault).flash)
  {
    if f.meta.Some? && f.meta.value.version <= CONFIG_VERSION_CURRENT {
      var r := Ram(f.meta.value, Stored(f.secret), Stored(f.salt));
      if r.info.hasSecret && (r.secret == [] || r.salt == []) {
        SaveSound(legacy, Device(r.(info := r.info.(hasSecret := false, exported := false, recoveryMeta := [])), f), fault);
      }
    }
  }

  /**
   * Crash ordering. Boot from any flash and run any joins, restores, state changes, exports,
   * migrations and reboots, each save cut short anywhere: in every state the claim in RAM is
   * backed, and flash is backed as soon as it ever was, or once a META write has landed.
   */
  lemma {:induction false} ClaimsAreBacked(kdf: Kdf, legacy: Flash, fault: Fault, devices: seq<Device>, steps: seq<Step>)
    requires Run(kdf, devices, steps) && devices[0] == Load(legacy, fault)
    ensures forall i :: 0 <= i < |devices| ==> RamBacked(devices[i].ram)
    ensures forall i :: 0 <= i < |devices| ==> Backed(devices[i].flash) || devices[i].flash.meta == legacy.meta
    ensures forall i, j :: 0 <= i <= j < |devices| && Backed(devices[i].flash) ==> Backed(devices[j].flash)
    ensures Backed(legacy) ==> forall i :: 0 <= i < |devices| ==> Backed(devices[i].flash)
  {
    if steps == [] {
      BootSound(legacy, legacy, fault);
    } else {
      var n := |steps| - 1;
      var before := devices[..n + 1];
      ClaimsAreBacked(kdf, legacy, fault, before, steps[..n]);
      assert before[n] == devices[n];
      StepSound(kdf, legacy, devices[n], steps[n]);
      forall i, j | 0 <= i <= j < |devices| && Backed(devices[i].flash)
        ensures Backed(devices[j].flash)
      {
        if i <= n {
          assert before[i] == devices[i];
          assert Backed(devices[n].flash);
          if j <= n { assert before[j] == devices[j]; }
        }
      }
      forall i | 0 <= i < |devices|
        ensures RamBacked(devices[i].ram) && (Backed(devices[i].flash) || devices[i].flash.meta == legacy.meta)
        ensures Backed(legacy) ==> Backed(devices[i].flash)
      {
        if i <= n { assert before[i] == devices[i]; }
      }
    }
  }

  /** A save that lands whole is what the next boot loads, with the strings cut to their fields. */
  lemma SaveThenLoad(r: Ram, f: Flash, fault: Fault, again: Fault)
    requires RamBacked(r) && r.info.version == CONFIG_VERSION_CURRENT && SaveOk(r, fault)
    ensures var d := Load(SaveFlash(r, f, fault), again);
            && d.ram.info == MetaOf(r.info)
            && (r.secret != [] ==> d.ram.secret == r.secret)
            && (r.salt != [] ==> d.ram.salt == r.salt)
  {
    SavedBlobs(r, f, fault);
  }

  /** Once exported, the secret is not displayed again before the next boot or migration. */
  lemma {:induction false} ExportOnce(kdf: Kdf, devices: seq<Device>, steps: seq<Step>, first: Fault, again: Fault)
    requires Run(kdf, devices, steps) && RamBacked(devices[0].ram) && devices[0].ram.info.hasSecret
    requires forall i :: 0 <= i < |steps| ==> !steps[i].Reboot? && !steps[i].MigrateStep?
    requires steps != [] && steps[0] == ExportStep(first)
    ensures Export(devices[|steps|], again).1.None?
    ensures devices[|steps|].ram.info.exported
    ensures devices[|steps|].ram.secret != [] && devices[|steps|].ram.salt != []
  {
    if |steps| > 1 {
      var n := |steps| - 1;
      ExportOnce(kdf, devices[..n + 1], steps[..n], first, again);
      assert devices[..n + 1][n] == devices[n];
      assert devices[n + 1] == Next(kdf, devices[n], steps[n]);
    }
  }

  /**
   * The secret and the salt are two writes. When a restore replaces the pair of a device whose
   * record already claims one, flash pairs the new secret with the old salt after exactly one
   * landed write, unless the restore brings back the same secret or the same salt.
   */
  lemma MixedPairAfterOneWrite(kdf: Kdf, d: Device, id: bytes, name: bytes, trust: bytes,
                               secret: bytes, salt: bytes, fault: Fault)
    requires Held(d.flash.secret) && Held(d.flash.salt) && secret != [] && salt != []
    ensures var f := RestoreMembership(kdf, d, id, name, trust, secret, salt, fault).value.flash;
            (f.secret, f.salt) == (d.flash.secret, d.flash.salt) || (f.secret, f.salt) == (Some(secret), Some(salt))
            <==> fault.writes != 1 || secret == d.flash.secret.value || salt == d.flash.salt.value
  {
    var i := d.ram.info.(id := id, name := name, state := ACTIVE, version := CONFIG_VERSION_CURRENT,
                         trustKey := if trust != [] then trust else d.ram.info.trustKey,
                         hasSecret := true, exported := true);
    var r := WithFingerprint(kdf, Ram(i, secret, salt));
    SavedBlobs(r, d.flash, fault);
  }

  /** One such restore: one landed write over a held pair leaves the new secret beside the old salt. */
  lemma MixedPair(kdf: Kdf, d: Device)
    requires d.flash.secret == Some([1]) && d.flash.salt == Some([2])
    ensures var f := RestoreMembership(kdf, d, [], [], [], [3], [4], Fault(1, false)).value.flash;
            f.secret == Some([3]) && f.salt == Some([2])
  {
    var i := d.ram.info.(id := [], name := [], state := ACTIVE, version := CONFIG_VERSION_CURRENT,
                         trustKey := d.ram.info.trustKey, hasSecret := true, exported := true);
    SavedBlobs(WithFingerprint(kdf, Ram(i, [3], [4])), d.flash, Fault(1, false));
  }
}
