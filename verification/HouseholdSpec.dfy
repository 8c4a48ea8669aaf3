/**
 * Household membership: the record in RAM, the three NVS blobs behind it, and what a save that is
 * cut short at any write leaves on flash.
 */
module HouseholdSpec {
  import opened Bytes

  const CONFIG_VERSION_CURRENT: uint8 := 1
  const ID_MAX: nat := 24
  const NAME_MAX: nat := 32
  const TRUST_MAX: nat := 64
  const RECOVERY_META_MAX: nat := 64

  datatype HouseholdState = UNCONFIGURED | PROVISIONING | ACTIVE | RECOVERY_REQUIRED | REVOKED

  datatype Info = Info(
    id: bytes, name: bytes, state: HouseholdState, version: uint8,
    trustKey: bytes, recoveryMeta: bytes, hasSecret: bool, exported: bool)

  datatype Ram = Ram(info: Info, secret: bytes, salt: bytes)

  /** META, the recovery secret and the salt, each absent or a blob. */
  datatype Flash = Flash(meta: Option<Info>, secret: Option<bytes>, salt: Option<bytes>)

  /** The keyed hash (BLAKE2b): a label and the material to a 32-byte key. */
  datatype Kdf = Kdf(derive: (Label, bytes) -> bytes)
  datatype Label = BACKUP | COMMAND

  ghost predicate ThirtyTwoBytes(kdf: Kdf) {
    forall l, m :: |kdf.derive(l, m)| == 32
  }

  const BLANK_INFO: Info := Info([], [], UNCONFIGURED, CONFIG_VERSION_CURRENT, [], [], false, false)
  const BLANK: Ram := Ram(BLANK_INFO, [], [])

  // ---- Key derivation ----

  /** HouseholdManager's derivation: no key without both inputs. */
  function DeriveKey(kdf: Kdf, purpose: Label, secret: bytes, salt: bytes): bytes {
    if secret == [] || salt == [] then [] else kdf.derive(purpose, secret + salt)
  }

  /** BackupManager's own derivation of the backup key, from a caller's secret and the header's salt. */
  function DeriveBackupKey(kdf: Kdf, secret: bytes, salt: bytes): bytes {
    kdf.derive(BACKUP, secret + salt)
  }

  /** The two derivations agree exactly when neither input is empty. */
  lemma DerivationsAgree(kdf: Kdf, secret: bytes, salt: bytes)
    requires ThirtyTwoBytes(kdf)
    ensures DeriveKey(kdf, BACKUP, secret, salt) == DeriveBackupKey(kdf, secret, salt)
            <==> secret != [] && salt != []
  {
  }

  function Fingerprint(kdf: Kdf, r: Ram): bytes {
    var key := DeriveKey(kdf, BACKUP, r.secret, r.salt);
    if |key| >= 16 then key[..16] else r.info.recoveryMeta
  }

  function WithFingerprint(kdf: Kdf, r: Ram): Ram {
    r.(info := r.info.(recoveryMeta := Fingerprint(kdf, r)))
  }

  // ---- Saving ----

  /** The META blob: every string cut to its field. */
  function MetaOf(i: Info): Info {
    i.(id := Cut(i.id, ID_MAX), name := Cut(i.name, NAME_MAX), trustKey := Cut(i.trustKey, TRUST_MAX),
       recoveryMeta := Cut(i.recoveryMeta, RECOVERY_META_MAX))
  }

  datatype Write = WriteSecret(blob: bytes) | WriteSalt(blob: bytes) | WriteMeta(record: Info)

  /** The writes of one save, in order: what META refers to goes first. */
  function Writes(r: Ram): seq<Write> {
    (if r.secret != [] then [WriteSecret(r.secret)] else [])
    + (if r.salt != [] then [WriteSalt(r.salt)] else [])
    + [WriteMeta(MetaOf(r.info))]
  }

  function Apply(f: Flash, w: Write): Flash {
    match w
    case WriteSecret(b) => f.(secret := Some(b))
    case WriteSalt(b) => f.(salt := Some(b))
    case WriteMeta(i) => f.(meta := Some(i))
  }

  function Landed(f: Flash, ws: seq<Write>): Flash
    decreases |ws|
  {
    if ws == [] then f else Landed(Apply(f, ws[0]), ws[1..])
  }

  /**
   * Where a save stops: after `writes` of its writes (a failing write or a power cut ends it), and
   * whether the commit then succeeds.
   */
  datatype Fault = Fault(writes: nat, commitOk: bool)

  function SaveFlash(r: Ram, f: Flash, fault: Fault): Flash {
    Landed(f, Writes(r)[..Min(fault.writes, |Writes(r)|)])
  }

  predicate SaveOk(r: Ram, fault: Fault) {
    fault.writes >= |Writes(r)| && fault.commitOk
  }

  lemma LandedShort(f: Flash, ws: seq<Write>)
    requires |ws| <= 3
    ensures |ws| == 0 ==> Landed(f, ws) == f
    ensures |ws| == 1 ==> Landed(f, ws) == Apply(f, ws[0])
    ensures |ws| == 2 ==> Landed(f, ws) == Apply(Apply(f, ws[0]), ws[1])
    ensures |ws| == 3 ==> Landed(f, ws) == Apply(Apply(Apply(f, ws[0]), ws[1]), ws[2])
    decreases |ws|
  {
    if |ws| > 0 {
      LandedShort(Apply(f, ws[0]), ws[1..]);
    }
  }

  /** What each of the three blobs is after a save that stopped somewhere. */
  lemma SavedBlobs(r: Ram, f: Flash, fault: Fault)
    ensures var s := SaveFlash(r, f, fault);
            && s.secret == (if r.secret != [] && fault.writes >= 1 then Some(r.secret) else f.secret)
            && s.salt == (if r.salt != [] && fault.writes >= (if r.secret != [] then 2 else 1) then Some(r.salt) else f.salt)
            && s.meta == (if fault.writes >= |Writes(r)| then Some(MetaOf(r.info)) else f.meta)
  {
    LandedShort(f, Writes(r)[..Min(fault.writes, |Writes(r)|)]);
  }

  // ---- Operations ----

  datatype Device = Device(ram: Ram, flash: Flash)

  function Save(d: Device, fault: Fault): Device {
    d.(flash := SaveFlash(d.ram, d.flash, fault))
  }

  /** Mints a secret and a salt unless both exist. */
  function EnsureSecret(kdf: Kdf, d: Device, secret: bytes, salt: bytes, fault: Fault): Device {
    if d.ram.secret != [] && d.ram.salt != [] then d
    else
      var minted := Ram(d.ram.info.(hasSecret := true, exported := false), secret, salt);
      Save(d.(ram := WithFingerprint(kdf, minted)), fault)
  }

  function Join(kdf: Kdf, d: Device, id: bytes, name: bytes, trustKey: bytes,
                secret: bytes, salt: bytes, first: Fault, second: Fault): Device {
    var i := d.ram.info.(id := id, name := name, state := PROVISIONING, version := CONFIG_VERSION_CURRENT,
                         trustKey := if trustKey != [] then trustKey else d.ram.info.trustKey);
    Save(EnsureSecret(kdf, d.(ram := d.ram.(info := i)), secret, salt, first), second)
  }

  /** The restore path; refused without a secret and a salt. A failing save is ignored. */
  function RestoreMembership(kdf: Kdf, d: Device, id: bytes, name: bytes, trustKey: bytes,
                             secret: bytes, salt: bytes, fault: Fault): Option<Device> {
    if secret == [] || salt == [] then None
    else
      var i := d.ram.info.(id := id, name := name, state := ACTIVE, version := CONFIG_VERSION_CURRENT,
                           trustKey := if trustKey != [] then trustKey else d.ram.info.trustKey,
                           hasSecret := true, exported := true);
      Some(Save(d.(ram := WithFingerprint(kdf, Ram(i, secret, salt))), fault))
  }

  function SetState(d: Device, state: HouseholdState, fault: Fault): Device {
    Save(d.(ram := d.ram.(info := d.ram.info.(state := state))), fault)
  }

  /** The one-time export: the secret, the first time only. */
  function Export(d: Device, fault: Fault): (Device, Option<bytes>) {
    if d.ram.secret == [] || d.ram.info.exported then (d, None)
    else (Save(d.(ram := d.ram.(info := d.ram.info.(exported := true))), fault), Some(d.ram.secret))
  }

  function Migrate(d: Device, fault: Fault): Device {
    if d.flash.meta.Some? && d.flash.meta.value.version != 0 then d
    else Save(d.(ram := d.ram.(info := BLANK_INFO)), fault)
  }

  function Stored(b: Option<bytes>): bytes {
    if b.Some? then b.value else []
  }

  /** Boot: RAM from flash, with the claim of a secret withdrawn when the blobs are not there. */
  function Load(f: Flash, fault: Fault): Device {
    if f.meta.None? || f.meta.value.version > CONFIG_VERSION_CURRENT then Device(BLANK, f)
    else
      var r := Ram(f.meta.value, Stored(f.secret), Stored(f.salt));
      if r.info.hasSecret && (r.secret == [] || r.salt == []) then
        Save(Device(r.(info := r.info.(hasSecret := false, exported := false, recoveryMeta := [])), f), fault)
      else Device(r, f)
  }

  // ---- Runs ----

  datatype Step =
    | JoinStep(id: bytes, name: bytes, trustKey: bytes, secret: bytes, salt: bytes, first: Fault, second: Fault)
    | RestoreStep(id: bytes, name: bytes, trustKey: bytes, secret: bytes, salt: bytes, fault: Fault)
    | StateStep(state: HouseholdState, fault: Fault)
    | ExportStep(fault: Fault)
    | MigrateStep(fault: Fault)
    | Reboot(fault: Fault)

  /** Minted secrets are 32 random bytes and minted salts 16. */
  predicate Minted(step: Step) {
    step.JoinStep? ==> |step.secret| == 32 && |step.salt| == 16
  }

  function Next(kdf: Kdf, d: Device, step: Step): Device {
    match step
    case JoinStep(id, name, trust, secret, salt, first, second) =>
      Join(kdf, d, id, name, trust, secret, salt, first, second)
    case RestoreStep(id, name, trust, secret, salt, fault) =>
      var r := RestoreMembership(kdf, d, id, name, trust, secret, salt, fault);
      if r.Some? then r.value else d
    case StateStep(state, fault) => SetState(d, state, fault)
    case ExportStep(fault) => Export(d, fault).0
    case MigrateStep(fault) => Migrate(d, fault)
    case Reboot(fault) => Load(d.flash, fault)
  }

  ghost predicate Run(kdf: Kdf, devices: seq<Device>, steps: seq<Step>) {
    && |devices| == |steps| + 1
    && forall i :: 0 <= i < |steps| ==> Minted(steps[i]) && devices[i + 1] == Next(kdf, devices[i], steps[i])
  }
}
