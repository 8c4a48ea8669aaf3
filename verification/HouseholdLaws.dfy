/** What each household operation leaves in RAM, and what the fingerprint and the record are made of. */
module HouseholdLaws {
  import opened Bytes
  import opened HouseholdSpec

  /**
   * A join takes id, name and, if given, trust key, and waits to be provisioned. A missing secret or
   * salt is replaced together with the other; a held pair stays with its export mark.
   */
  lemma JoinEffect(kdf: Kdf, d: Device, id: bytes, name: bytes, trust: bytes, secret: bytes, salt: bytes, first: Fault, second: Fault)
    ensures var r := Join(kdf, d, id, name, trust, secret, salt, first, second).ram;
            && r.info.id == id && r.info.name == name && r.info.state == PROVISIONING && r.info.version == 1
            && r.info.trustKey == (if trust != [] then trust else d.ram.info.trustKey)
            && (if d.ram.secret != [] && d.ram.salt != [] then
                  && r.secret == d.ram.secret && r.salt == d.ram.salt && r.info.recoveryMeta == d.ram.info.recoveryMeta
                  && r.info.hasSecret == d.ram.info.hasSecret && r.info.exported == d.ram.info.exported
                else r.secret == secret && r.salt == salt && r.info.hasSecret && !r.info.exported)
  {
  }

  /** A restore takes everything it is given, is active at once, and counts its secret as exported. */
  lemma RestoreEffect(kdf: Kdf, d: Device, id: bytes, name: bytes, trust: bytes, secret: bytes, salt: bytes, fault: Fault)
    ensures var m := RestoreMembership(kdf, d, id, name, trust, secret, salt, fault);
            && (m.None? <==> secret == [] || salt == [])
            && (m.Some? ==>
                  var r := m.value.ram;
                  && r.info.id == id && r.info.name == name && r.info.state == ACTIVE && r.info.version == 1
                  && r.info.trustKey == (if trust != [] then trust else d.ram.info.trustKey)
                  && r.secret == secret && r.salt == salt && r.info.hasSecret && r.info.exported)
  {
  }

  /** The fingerprint a new pair gets is the first half of the backup key it derives. */
  lemma FingerprintIs(kdf: Kdf, d: Device, id: bytes, name: bytes, trust: bytes, secret: bytes, salt: bytes, fault: Fault)
    requires ThirtyTwoBytes(kdf) && secret != [] && salt != []
    ensures RestoreMembership(kdf, d, id, name, trust, secret, salt, fault).value.ram.info.recoveryMeta
            == kdf.derive(BACKUP, secret + salt)[..16]
    ensures d.ram.secret == [] || d.ram.salt == [] ==>
              Join(kdf, d, id, name, trust, secret, salt, fault, fault).ram.info.recoveryMeta == kdf.derive(BACKUP, secret + salt)[..16]
  {
  }

  /** The first export gives the secret itself and marks it; nothing else in RAM changes, and a marked one is refused. */
  lemma ExportEffect(d: Device, fault: Fault)
    ensures var e := Export(d, fault);
            && e.1 == (if d.ram.secret != [] && !d.ram.info.exported then Some(d.ram.secret) else None)
            && (e.1.Some? ==> e.0.ram == d.ram.(info := d.ram.info.(exported := true)))
            && (e.1.None? ==> e.0 == d)
  {
  }

  /** A whole save of an export makes the mark durable: the secret is refused after the next boot as well. */
  lemma ExportSurvives(d: Device, fault: Fault, again: Fault, later: Fault)
    requires Export(d, fault).1.Some? && SaveOk(Export(d, fault).0.ram, fault)
    requires d.ram.info.version == 1 && d.ram.info.hasSecret && d.ram.salt != []
    ensures Export(Load(Export(d, fault).0.flash, again), later).1.None?
  {
    SavedBlobs(Export(d, fault).0.ram, d.flash, fault);
  }

  /** A state change is that and its save; a migration blanks a missing or unstamped record and no other. */
  lemma StateEffect(d: Device, state: HouseholdState, fault: Fault)
    ensures SetState(d, state, fault).ram == d.ram.(info := d.ram.info.(state := state))
    ensures var m := Migrate(d, fault);
            if d.flash.meta.None? || d.flash.meta.value.version == 0 then
              && m.ram.info == Info([], [], UNCONFIGURED, 1, [], [], false, false)
              && m.ram.secret == d.ram.secret && m.ram.salt == d.ram.salt
            else m == d
  {
  }

  /** The stored record: ids of 24, names of 32, trust keys and fingerprints of 64 bytes, everything else as it is. */
  lemma RecordFields(i: Info)
    ensures var m := MetaOf(i);
            && m.id <= i.id && |m.id| == Min(|i.id|, 24) && m.name <= i.name && |m.name| == Min(|i.name|, 32)
            && m.trustKey <= i.trustKey && |m.trustKey| == Min(|i.trustKey|, 64)
            && m.recoveryMeta <= i.recoveryMeta && |m.recoveryMeta| == Min(|i.recoveryMeta|, 64)
            && (m.state, m.version, m.hasSecret, m.exported) == (i.state, i.version, i.hasSecret, i.exported)
  {
  }

  /** A save is whole when every value there is to write and the record itself landed, and the commit worked. */
  lemma SaveWhole(r: Ram, fault: Fault)
    ensures SaveOk(r, fault) <==>
              fault.commitOk && fault.writes >= (if r.secret == [] then 0 else 1) + (if r.salt == [] then 0 else 1) + 1
  {
  }

  /** A record of a newer firmware, or none, boots as a blank device and stays on flash untouched. */
  lemma BootUnknown(f: Flash, fault: Fault)
    requires f.meta.None? || f.meta.value.version > 1
    ensures Load(f, fault) == Device(Ram(Info([], [], UNCONFIGURED, 1, [], [], false, false), [], []), f)
  {
  }

  /** Any other record boots as it stands, but for a claim its blobs do not back. */
  lemma BootKnown(f: Flash, fault: Fault)
    requires f.meta.Some? && f.meta.value.version <= 1
    ensures var r, i := Load(f, fault).ram, f.meta.value;
            && r.secret == (if f.secret.Some? then f.secret.value else []) && r.salt == (if f.salt.Some? then f.salt.value else [])
            && (r.info.id, r.info.name, r.info.state, r.info.trustKey) == (i.id, i.name, i.state, i.trustKey)
            && (i.hasSecret && (r.secret == [] || r.salt == []) ==>
                  !r.info.hasSecret && !r.info.exported && r.info.recoveryMeta == [])
            && (!i.hasSecret || (r.secret != [] && r.salt != []) ==> r.info == i)
  {
  }
}
