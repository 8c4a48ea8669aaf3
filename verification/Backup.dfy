/** BackupManager and RestoreManager over the live household, node identity and credential store. */
module Backup {
  import opened Bytes
  import Aead
  import opened BackupHeader
  import opened BackupSpec
  import opened CredentialStore
  import opened JsonTree
  import opened NodeIdentity
  import opened NodeSettings
  import Config
  import opened CredentialCodec
  import Household
  import H = HouseholdSpec
  import Hex
  import opened NvsCredentials

  class BackupManager {
    const c: Primitives
    const household: Household.HouseholdManager
    const node: NodeIdentityManager
    const store: NvsCredentialStore
    const settings: Settings
    var lastBackupTime: uint32
    var lastBackupHash: bytes

    ghost function State(): Source
      reads household, node, store
    {
      Source(household.State().ram, node.info, store.issuers, settings)
    }

    constructor (c: Primitives, household: Household.HouseholdManager, node: NodeIdentityManager,
                 store: NvsCredentialStore, settings: Settings)
      ensures this.c == c && this.household == household && this.node == node && this.store == store
      ensures this.settings == settings && lastBackupTime == 0 && lastBackupHash == []
    {
      this.c, this.household, this.node, this.store, this.settings := c, household, node, store, settings;
      lastBackupTime, lastBackupHash := 0, [];
    }

    method ExportIssuers() returns (docs: seq<Json>)
      ensures docs == IssuerDocs(store.issuers)
    {
      docs := [];
      for i := 0 to |store.issuers|
        invariant docs + IssuerDocs(store.issuers[i..]) == IssuerDocs(store.issuers)
      {
        assert store.issuers[i..][1..] == store.issuers[i + 1..];
        var id := Hex.HexEncode(store.issuers[i].id, Hex.LOWER);
        var key := Hex.HexEncode(store.issuers[i].publicKey, Hex.LOWER);
        docs := docs + [Object([("id", Text(id)), ("public_key", Text(key))])];
      }
    }

    method BuildPayload() returns (doc: Json)
      ensures doc == PayloadDoc(household.info, settings, store.issuers)
    {
      var issuers := ExportIssuers();
      var trust := Hex.HexEncode(household.info.trustKey, Hex.LOWER);
      var recovery := Hex.HexEncode(household.info.recoveryMeta, Hex.LOWER);
      doc := Object([
        ("household", Object([
          ("household_id", Text(household.info.id)), ("household_name", Text(household.info.name)),
          ("trust_key", Text(trust)), ("recovery_metadata", Text(recovery)),
          ("config_version", Number(household.info.version))])),
        ("node_config", ConfigDoc(settings)),
        ("issuers", Array(issuers))]);
    }

    /** The blob, and the time and hash of the last one made; nothing moves on failure. */
    method CreateBackup(t: Stamp) returns (blob: Option<bytes>)
      requires household.kdf == c.kdf && |node.info.publicKey| >= KEY_LEN && |t.nonce| == NONCE_LEN
      modifies this
      ensures blob == Create(c, State(), t)
      ensures blob.Some? ==> lastBackupTime == t.timestamp && lastBackupHash == c.sha(blob.value)
      ensures blob.None? ==> lastBackupTime == old(lastBackupTime) && lastBackupHash == old(lastBackupHash)
    {
      if household.info.id == [] || node.info.id == [] {
        return None;
      }
      var key := H.DeriveKey(c.kdf, H.BACKUP, household.secret, household.salt);
      if key == [] || |household.salt| != SALT_LEN {
        return None;
      }
      var doc := BuildPayload();
      var meta := BackupMeta(FORMAT_VERSION, household.info.id, node.info.id, node.info.role, node.info.generation,
                             t.timestamp, t.firmware, node.info.publicKey);
      var header := BuildHeaderPrefix(meta, household.salt, t.nonce);
      var message := header;
      message := message + c.aead.seal(key, t.nonce, header, c.printJson(doc));
      if node.info.privateKey == [] {
        return None;
      }
      var sig := c.sign(node.info.privateKey, message);
      if |sig| != SIG_LEN {
        return None;
      }
      var out := message;
      out := out + sig;
      lastBackupTime := t.timestamp;
      lastBackupHash := c.sha(out);
      return Some(out);
    }

    /** Opens a blob with the caller's secret; fails closed at every check. */
    static method DecryptBlob(c: Primitives, blob: bytes, secret: bytes) returns (out: Option<Opened>)
      ensures out == Decrypt(c, blob, secret)
    {
      if |blob| < 100 {
        return None;
      }
      var ok, h, headerLen := ParseHeaderPrefix(blob);
      if !ok || h.meta.formatVersion != FORMAT_VERSION {
        return None;
      }
      if |blob| < headerLen + Aead.TAG_LEN + SIG_LEN {
        return None;
      }
      var ctLen := |blob| - headerLen - SIG_LEN;
      var ciphertext := blob[headerLen..headerLen + ctLen];
      var signature := blob[|blob| - SIG_LEN..];
      var signedPart := blob[..headerLen + ctLen];
      BlobParts(blob, h);
      if !c.verify(h.meta.nodePublicKey, signedPart, signature) {
        return None;
      }
      var key := H.DeriveBackupKey(c.kdf, secret, h.salt);
      var plain := c.aead.open(key, h.nonce, blob[..headerLen], ciphertext);
      if plain.None? {
        return None;
      }
      return Some(Opened(plain.value, h));
    }
  }

  class RestoreManager {
    const c: Primitives
    const household: Household.HouseholdManager
    const node: NodeIdentityManager
    const store: NvsCredentialStore
    const mqtt: Config.ConfigManager
    const misc: Config.ConfigManager
    var outcome: Option<Outcome>

    ghost function State(): Target
      reads household, node, store, mqtt, misc
    {
      Target(household.State(), node.info, store.issuers, mqtt.fields, misc.fields)
    }

    constructor (c: Primitives, household: Household.HouseholdManager, node: NodeIdentityManager, store: NvsCredentialStore,
                 mqtt: Config.ConfigManager, misc: Config.ConfigManager)
      ensures this.c == c && this.household == household && this.node == node && this.store == store
      ensures this.mqtt == mqtt && this.misc == misc && outcome == None
    {
      this.c, this.household, this.node, this.store, this.mqtt, this.misc := c, household, node, store, mqtt, misc;
      outcome := None;
    }

    method RestoreIssuers(docs: seq<Json>)
      modifies store
      ensures store.issuers == AddAll(old(store.issuers), docs)
      ensures store.identity == old(store.identity) && store.labels == old(store.labels) && store.stored == old(store.stored)
    {
      for i := 0 to |docs|
        invariant AddAll(store.issuers, docs[i..]) == AddAll(old(store.issuers), docs)
        invariant store.identity == old(store.identity) && store.labels == old(store.labels) && store.stored == old(store.stored)
      {
        assert docs[i..][1..] == docs[i + 1..];
        RestoreIssuer(docs[i]);
      }
    }

    method RestoreIssuer(doc: Json)
      modifies store
      ensures store.issuers == AddOne(old(store.issuers), doc)
      ensures store.identity == old(store.identity) && store.labels == old(store.labels) && store.stored == old(store.stored)
    {
      var id := Hex.HexDecode(GetText(Some(doc), "id", []));
      var pub := Hex.HexDecode(GetText(Some(doc), "public_key", []));
      if |id| > 0 && |pub| >= 32 {
        var _ := store.AddIssuerIfNotExists(id, pub);
      }
    }

    /** updateFromJson over text pasted together from the backup's values. */
    method UpdateConfig(manager: Config.ConfigManager, members: seq<(string, Json)>)
      modifies manager
      ensures manager.fields == UpdateText(c.parseJson, old(manager.fields), members)
    {
      var j := c.parseJson(Spell(members));
      if j.Some? {
        manager.ApplyJson(j.value);
      }
    }

    /**
     * Membership, then the new identity, the node configuration, and the issuers with their store;
     * the first refusal ends it.
     */
    method InstallPayload(m: BackupMeta, salt: bytes, root: Json, secret: bytes, luck: Luck,
                          walk: map<string, string> -> seq<string>, storeWritten: bool) returns (result: Outcome)
      requires household.kdf == c.kdf && node.sha == c.sha && mqtt != misc
      requires forall labels :: Walks(walk(labels), labels)
      modifies household, node, store, mqtt, misc
      ensures (State(), result) == Install(c, old(State()), m, salt, root, secret, luck)
      ensures store.identity == old(store.identity) && store.labels == old(store.labels)
      ensures store.stored ==
                if result == COMPLETED && ListsIssuers(root) && storeWritten then Some(PackedBy(walk, store.State()))
                else old(store.stored)
    {
      var householdNode, configNode := Get(Some(root), "household"), Get(Some(root), "node_config");
      var trust := Hex.HexDecode(GetText(householdNode, "trust_key", []));
      var joined := household.RestoreHousehold(m.householdId, GetText(householdNode, "household_name", Ascii("Household")),
                                               trust, secret, salt, luck.fault);
      if !joined {
        return NO_MEMBERSHIP;
      }
      var created := node.CreateReplacementIdentity(m.nodeRole, GetText(configNode, "device_name", Ascii("Node")),
                                                    m.householdId, m.generation, luck.keys, luck.nodeSaved);
      if !created {
        return NO_IDENTITY;
      }
      InstallConfig(configNode);
      InstallIssuers(root, walk, storeWritten);
      return COMPLETED;
    }

    method InstallConfig(configNode: Option<Json>)
      requires mqtt != misc
      modifies mqtt, misc
      ensures State() == Configure(c, old(State()), configNode)
    {
      if configNode.Some? {
        UpdateConfig(mqtt, MqttFields(configNode));
        UpdateConfig(misc, MiscFields(configNode));
      }
    }

    method InstallIssuers(root: Json, walk: map<string, string> -> seq<string>, storeWritten: bool)
      requires forall labels :: Walks(walk(labels), labels)
      modifies store
      ensures State() == WithIssuers(old(State()), root)
      ensures store.identity == old(store.identity) && store.labels == old(store.labels)
      ensures store.stored == if ListsIssuers(root) && storeWritten then Some(PackedBy(walk, store.State())) else old(store.stored)
    {
      var issuersNode := Get(Some(root), "issuers");
      if issuersNode.Some? && issuersNode.value.Array? {
        RestoreIssuers(issuersNode.value.items);
        store.SaveStore(walk(store.labels), storeWritten);
      }
    }

    /** `walk` is the order in which the store packs its labels, `storeWritten` whether NVS takes it. */
    method RestoreBlob(blob: bytes, secret: bytes, luck: Luck, walk: map<string, string> -> seq<string>, storeWritten: bool)
      returns (ok: bool)
      requires household.kdf == c.kdf && node.sha == c.sha && mqtt != misc
      requires forall labels :: Walks(walk(labels), labels)
      modifies this, household, node, store, mqtt, misc
      ensures outcome.Some? && (State(), outcome.value) == Restore(c, old(State()), blob, secret, luck)
      ensures ok <==> outcome == Some(COMPLETED)
      ensures store.identity == old(store.identity) && store.labels == old(store.labels)
      ensures store.stored ==
                if ok && ListsIssuers(c.parseJson(Decrypt(c, blob, secret).value.payload).value) && storeWritten
                then Some(PackedBy(walk, store.State()))
                else old(store.stored)
    {
      var clear := BackupManager.DecryptBlob(c, blob, secret);
      if clear.None? {
        outcome := Some(BAD_BLOB);
        return false;
      }
      var root := c.parseJson(clear.value.payload);
      if root.None? {
        outcome := Some(BAD_JSON);
        return false;
      }
      var header := clear.value.header;
      var result := InstallPayload(header.meta, header.salt, root.value, secret, luck, walk, storeWritten);
      outcome := Some(result);
      return result == COMPLETED;
    }
  }
}
