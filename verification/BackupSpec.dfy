/** Creating, opening and restoring a household backup, as functions of the devices involved. */
module BackupSpec {
  import opened Bytes
  import opened BackupHeader
  import opened CredentialStore
  import opened JsonTree
  import opened NodeIdentity
  import opened NodeSettings
  import Aead
  import ConfigSpec
  import H = HouseholdSpec
  import Hex

  const FORMAT_VERSION: uint8 := 1
  const SIG_LEN: nat := 64

  /**
   * The primitives the firmware links: the AEAD, a signature, the keyed hash, SHA-256, and the
   * printer and parser of JSON text.
   */
  datatype Primitives = Primitives(
    kdf: H.Kdf, sha: bytes -> bytes,
    aead: Aead.Cipher,
    sign: (bytes, bytes) -> bytes, verify: (bytes, bytes, bytes) -> bool,
    printJson: Json -> bytes, parseJson: bytes -> Option<Json>)

  ghost predicate Laws(c: Primitives) {
    H.ThirtyTwoBytes(c.kdf) && Aead.Lawful(c.aead)
  }

  /** A key pair whose signatures verify. */
  ghost predicate Paired(c: Primitives, pk: bytes, sk: bytes) {
    forall m :: |c.sign(sk, m)| == SIG_LEN && c.verify(pk, m, c.sign(sk, m))
  }

  // ---- Creating ----

  function IssuerDoc(i: Issuer): Json {
    Object([("id", Text(Hex.Encode(i.id, Hex.LOWER))), ("public_key", Text(Hex.Encode(i.publicKey, Hex.LOWER)))])
  }

  function IssuerDocs(issuers: seq<Issuer>): seq<Json> {
    if issuers == [] then [] else [IssuerDoc(issuers[0])] + IssuerDocs(issuers[1..])
  }

  function PayloadDoc(i: H.Info, settings: Settings, issuers: seq<Issuer>): Json {
    Object([
      ("household", Object([
        ("household_id", Text(i.id)), ("household_name", Text(i.name)),
        ("trust_key", Text(Hex.Encode(i.trustKey, Hex.LOWER))),
        ("recovery_metadata", Text(Hex.Encode(i.recoveryMeta, Hex.LOWER))),
        ("config_version", Number(i.version))])),
      ("node_config", ConfigDoc(settings)),
      ("issuers", Array(IssuerDocs(issuers)))])
  }

  datatype Source = Source(ram: H.Ram, node: Node, issuers: seq<Issuer>, settings: Settings)

  /** The clock, the firmware version and the random nonce of one backup. */
  datatype Stamp = Stamp(timestamp: uint32, firmware: bytes, nonce: bytes)

  function MetaOf(s: Source, t: Stamp): BackupMeta {
    BackupMeta(FORMAT_VERSION, s.ram.info.id, s.node.id, s.node.role, s.node.generation, t.timestamp,
               t.firmware, s.node.publicKey)
  }

  /** Header, ciphertext and signature, or nothing when identity, secret or signing key is missing. */
  function Create(c: Primitives, s: Source, t: Stamp): Option<bytes>
    requires |s.node.publicKey| >= KEY_LEN && |t.nonce| == NONCE_LEN
  {
    var key := H.DeriveKey(c.kdf, H.BACKUP, s.ram.secret, s.ram.salt);
    if s.ram.info.id == [] || s.node.id == [] || key == [] || |s.ram.salt| != SALT_LEN then None
    else
      var header := Layout(Printed(MetaOf(s, t), s.ram.salt, t.nonce));
      var message := header + c.aead.seal(key, t.nonce, header, c.printJson(PayloadDoc(s.ram.info, s.settings, s.issuers)));
      var sig := c.sign(s.node.privateKey, message);
      if s.node.privateKey == [] || |sig| != SIG_LEN then None else Some(message + sig)
  }

  // ---- Opening ----

  datatype Opened = Opened(payload: bytes, header: Header)

  /** Where the ciphertext ends and the signature starts, for a blob with this header. */
  predicate Divides(blob: bytes, h: Header) {
    StartsWith(blob, h) && |blob| >= |Layout(h)| + Aead.TAG_LEN + SIG_LEN
  }

  function Ciphertext(blob: bytes, h: Header): bytes
    requires Divides(blob, h)
  {
    blob[|Layout(h)|..|blob| - SIG_LEN]
  }

  function Signature(blob: bytes, h: Header): bytes
    requires Divides(blob, h)
  {
    blob[|blob| - SIG_LEN..]
  }

  /** The signature is checked first, over header and ciphertext, then the AEAD. */
  function OpenParts(c: Primitives, h: Header, ct: bytes, sig: bytes, secret: bytes): Option<bytes>
    requires Fits(h)
  {
    if !c.verify(h.meta.nodePublicKey, Layout(h) + ct, sig) then None
    else c.aead.open(H.DeriveBackupKey(c.kdf, secret, h.salt), h.nonce, Layout(h), ct)
  }

  function Decrypt(c: Primitives, blob: bytes, secret: bytes): Option<Opened> {
    if |blob| < 100 || Parse(blob).None? then None else
    var h := Parse(blob).value;
    ParseInverse(blob);
    if h.meta.formatVersion != FORMAT_VERSION || !Divides(blob, h) then None else
    var text := OpenParts(c, h, Ciphertext(blob, h), Signature(blob, h), secret);
    if text.None? then None else Some(Opened(text.value, h))
  }

  /** A blob is its header, its ciphertext and its signature, end to end. */
  lemma BlobParts(blob: bytes, h: Header)
    requires Divides(blob, h)
    ensures blob == Layout(h) + Ciphertext(blob, h) + Signature(blob, h)
    ensures blob[..|Layout(h)|] == Layout(h)
    ensures blob[..|blob| - SIG_LEN] == Layout(h) + Ciphertext(blob, h)
  {
  }

  // ---- Restoring ----

  /** The device a restore runs on, with its MQTT and miscellaneous configuration. */
  datatype Target = Target(
    household: H.Device, node: Node, issuers: seq<Issuer>, mqtt: ConfigSpec.Config, misc: ConfigSpec.Config)

  datatype Outcome = COMPLETED | BAD_BLOB | BAD_JSON | NO_MEMBERSHIP | NO_IDENTITY

  /** Faults of one restore: the household save, the new key pair, and the node save. */
  datatype Luck = Luck(fault: H.Fault, keys: Option<KeyPair>, nodeSaved: bool)

  function AddAll(issuers: seq<Issuer>, docs: seq<Json>): seq<Issuer>
    decreases |docs|
  {
    if docs == [] then issuers else AddAll(AddOne(issuers, docs[0]), docs[1..])
  }

  function AddOne(issuers: seq<Issuer>, doc: Json): seq<Issuer> {
    var id := Hex.DecodeOrEmpty(GetText(Some(doc), "id", []));
    var pub := Hex.DecodeOrEmpty(GetText(Some(doc), "public_key", []));
    if |id| > 0 && |pub| >= 32 then AddIssuer(issuers, id, pub) else issuers
  }

  /** The backup's node configuration, when it carries one. */
  function Configure(c: Primitives, t: Target, config: Option<Json>): Target {
    if config.None? then t
    else t.(mqtt := UpdateText(c.parseJson, t.mqtt, MqttFields(config)), misc := UpdateText(c.parseJson, t.misc, MiscFields(config)))
  }

  /** The payload has an issuer list, empty or not. */
  predicate ListsIssuers(root: Json) {
    var list := Get(Some(root), "issuers");
    list.Some? && list.value.Array?
  }

  function WithIssuers(t: Target, root: Json): Target {
    if ListsIssuers(root) then t.(issuers := AddAll(t.issuers, Get(Some(root), "issuers").value.items)) else t
  }

  /** The membership step of a restore. */
  function Membership(c: Primitives, t: Target, m: BackupMeta, salt: bytes, root: Json, secret: bytes, fault: H.Fault): Option<H.Device> {
    var household := Get(Some(root), "household");
    H.RestoreMembership(
      c.kdf, t.household, m.householdId, GetText(household, "household_name", Ascii("Household")),
      Hex.DecodeOrEmpty(GetText(household, "trust_key", [])), secret, salt, fault)
  }

  /** Household, name, trust key and recovery secret, then the new identity, the configuration, the issuers. */
  function Install(c: Primitives, t: Target, m: BackupMeta, salt: bytes, root: Json, secret: bytes, luck: Luck): (Target, Outcome) {
    var config := Get(Some(root), "node_config");
    var joined := Membership(c, t, m, salt, root, secret, luck.fault);
    if joined.None? then (t, NO_MEMBERSHIP) else
    var node := Replacement(c.sha, t.node, m.nodeRole, GetText(config, "device_name", Ascii("Node")),
                            m.householdId, m.generation, luck.keys);
    var t' := t.(household := joined.value, node := if node.Some? then node.value else t.node);
    if node.None? || !luck.nodeSaved then (t', NO_IDENTITY) else
    (WithIssuers(Configure(c, t', config), root), COMPLETED)
  }

  function Restore(c: Primitives, t: Target, blob: bytes, secret: bytes, luck: Luck): (Target, Outcome) {
    var clear := Decrypt(c, blob, secret);
    if clear.None? then (t, BAD_BLOB) else
    var root := c.parseJson(clear.value.payload);
    if root.None? then (t, BAD_JSON) else
    Install(c, t, clear.value.header.meta, clear.value.header.salt, root.value, secret, luck)
  }
}
