/** HouseholdManager: the record, the recovery secret and their three NVS blobs. */
module Household {
  import opened Bytes
  import opened HouseholdSpec

  class HouseholdManager {
    const kdf: Kdf
    var info: Info
    var secret: bytes
    var salt: bytes
    var flash: Flash

    ghost function State(): Device
      reads this
    {
      Device(Ram(info, secret, salt), flash)
    }

    /** A fresh boot over `flash`, up to the end of begin(). */
    constructor (kdf: Kdf, flash: Flash, fault: Fault)
      ensures this.kdf == kdf && State() == Load(flash, fault)
    {
      this.kdf, this.flash := kdf, flash;
      info, secret, salt := BLANK_INFO, [], [];
      new;
      if flash.meta.None? {
        return;
      }
      info := flash.meta.value;
      if info.version > CONFIG_VERSION_CURRENT {
        info := BLANK_INFO;
        return;
      }
      secret, salt := Stored(flash.secret), Stored(flash.salt);
      if info.hasSecret && (secret == [] || salt == []) {
        info := info.(hasSecret := false, exported := false, recoveryMeta := []);
        var _ := SaveRecord(fault);
      }
    }

    /** Writes the secret, the salt and the record, in that order, stopping at the first failure. */
    method SaveRecord(fault: Fault) returns (ok: bool)
      modifies this`flash
      ensures State() == Save(old(State()), fault)
      ensures ok <==> SaveOk(old(State().ram), fault)
    {
      SavedBlobs(Ram(info, secret, salt), flash, fault);
      var left := fault.writes;
      if secret != [] {
        if left == 0 {
          return false;
        }
        flash, left := Apply(flash, WriteSecret(secret)), left - 1;
      }
      if salt != [] {
        if left == 0 {
          return false;
        }
        flash, left := Apply(flash, WriteSalt(salt)), left - 1;
      }
      if left == 0 {
        return false;
      }
      flash := Apply(flash, WriteMeta(MetaOf(info)));
      return fault.commitOk;
    }

    method RecomputeRecoveryMetadata()
      modifies this`info
      ensures State().ram == WithFingerprint(kdf, old(State().ram))
    {
      var key := DeriveKey(kdf, BACKUP, secret, salt);
      if |key| >= 16 {
        info := info.(recoveryMeta := key[..16]);
      }
    }

    method EnsureRecoverySecret(freshSecret: bytes, freshSalt: bytes, fault: Fault) returns (ok: bool)
      modifies this
      ensures State() == EnsureSecret(kdf, old(State()), freshSecret, freshSalt, fault)
      ensures ok <==> (old(secret) != [] && old(salt) != []) || SaveOk(State().ram, fault)
    {
      if secret != [] && salt != [] {
        return true;
      }
      secret, salt := freshSecret, freshSalt;
      info := info.(hasSecret := true, exported := false);
      RecomputeRecoveryMetadata();
      ok := SaveRecord(fault);
    }

    /** `stored` tells whether the membership reached NVS. */
    method JoinHousehold(id: bytes, name: bytes, trustKey: bytes, freshSecret: bytes, freshSalt: bytes,
                         first: Fault, second: Fault) returns (stored: bool)
      modifies this
      ensures State() == Join(kdf, old(State()), id, name, trustKey, freshSecret, freshSalt, first, second)
      ensures stored <==> SaveOk(State().ram, second)
    {
      info := info.(id := id, name := name);
      if trustKey != [] {
        info := info.(trustKey := trustKey);
      }
      info := info.(state := PROVISIONING, version := CONFIG_VERSION_CURRENT);
      var _ := EnsureRecoverySecret(freshSecret, freshSalt, first);
      stored := SaveRecord(second);
    }

    method RestoreHousehold(id: bytes, name: bytes, trustKey: bytes, newSecret: bytes, newSalt: bytes, fault: Fault)
      returns (ok: bool)
      modifies this
      ensures var r := RestoreMembership(kdf, old(State()), id, name, trustKey, newSecret, newSalt, fault);
              ok == r.Some? && State() == if ok then r.value else old(State())
    {
      if newSecret == [] || newSalt == [] {
        return false;
      }
      info := info.(id := id, name := name);
      if trustKey != [] {
        info := info.(trustKey := trustKey);
      }
      info := info.(state := ACTIVE, version := CONFIG_VERSION_CURRENT, hasSecret := true, exported := true);
      secret, salt := newSecret, newSalt;
      RecomputeRecoveryMetadata();
      var _ := SaveRecord(fault);
      return true;
    }

    /** markActive, markRevoked, markRecoveryRequired and the record half of completeProvisioning. */
    method MarkState(state: HouseholdState, fault: Fault) returns (stored: bool)
      modifies this
      ensures State() == SetState(old(State()), state, fault)
      ensures stored <==> SaveOk(State().ram, fault)
    {
      info := info.(state := state);
      stored := SaveRecord(fault);
    }

    method ExportRecoverySecretOnce(fault: Fault) returns (out: Option<bytes>)
      modifies this
      ensures State() == Export(old(State()), fault).0 && out == Export(old(State()), fault).1
    {
      if secret == [] || info.exported {
        return None;
      }
      out := Some(secret);
      info := info.(exported := true);
      var _ := SaveRecord(fault);
    }

    /** A record of a future version is left alone; an unstamped or absent one is re-created. */
    method MigrateRecord(fault: Fault)
      modifies this
      ensures State() == Migrate(old(State()), fault)
    {
      if flash.meta.Some? && flash.meta.value.version != 0 {
        return;
      }
      info := BLANK_INFO;
      var _ := SaveRecord(fault);
    }
  }
}
