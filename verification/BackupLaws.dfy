/** The backup on the wire, byte by byte, what it says and leaves out, and every outcome of a restore. */
module BackupLaws {
  import opened Bytes
  import Aead
  import opened BackupHeader
  import opened BackupSpec
  import opened BackupTheorems
  import ConfigSpec
  import opened CredentialStore
  import opened JsonTree
  import opened NodeIdentity
  import opened NodeSettings
  import H = HouseholdSpec
  import Hex

  // ---- The backup ----

  /** A backup is made exactly for a named household and node with a secret, a 16-byte salt and a signing key. */
  lemma CreatedIff(c: Primitives, s: Source, t: Stamp)
    requires Laws(c) && Paired(c, s.node.publicKey, s.node.privateKey) && |s.node.publicKey| == KEY_LEN && |t.nonce| == NONCE_LEN
    ensures Create(c, s, t).Some? <==>
              s.ram.info.id != [] && s.node.id != [] && s.ram.secret != [] && |s.ram.salt| == 16 && s.node.privateKey != []
  {
    if s.ram.secret != [] && s.ram.salt != [] {
      H.DerivationsAgree(c.kdf, s.ram.secret, s.ram.salt);
    }
  }

  /** The header of a created backup says whose it is, when and by which firmware it was made, and under which key it is signed. */
  lemma BackupSays(c: Primitives, s: Source, t: Stamp)
    requires Laws(c) && Paired(c, s.node.publicKey, s.node.privateKey) && |s.node.publicKey| == KEY_LEN && |t.nonce| == NONCE_LEN
    requires Create(c, s, t).Some?
    ensures Decrypt(c, Create(c, s, t).value, s.ram.secret).Some?
    ensures var h := Decrypt(c, Create(c, s, t).value, s.ram.secret).value.header;
            && h.meta.formatVersion == 1 && h.meta.householdId == Cut(s.ram.info.id, 24) && h.meta.nodeId == Cut(s.node.id, 24)
            && h.meta.nodeRole == s.node.role && h.meta.generation == s.node.generation && h.meta.timestamp == t.timestamp
            && h.meta.firmwareVersion == Cut(t.firmware, 32) && h.meta.nodePublicKey == s.node.publicKey
            && h.salt == s.ram.salt && h.nonce == t.nonce
  {
    CreatedOpens(c, s, t);
  }

  /** What the payload says of the household, member by member. */
  lemma PayloadSays(i: H.Info, settings: Settings, issuers: seq<Issuer>)
    ensures var household := Get(Some(PayloadDoc(i, settings, issuers)), "household");
            && Get(household, "household_id") == Some(Text(i.id)) && Get(household, "household_name") == Some(Text(i.name))
            && Get(household, "trust_key") == Some(Text(Hex.Encode(i.trustKey, Hex.LOWER)))
            && Get(household, "recovery_metadata") == Some(Text(Hex.Encode(i.recoveryMeta, Hex.LOWER)))
            && Get(household, "config_version") == Some(Number(i.version))
  {
    var f := PayloadDoc(i, settings, issuers).fields[0].1.fields;
    FindSkips(f, "household_id", 0);
    FindSkips(f, "household_name", 1);
    FindSkips(f, "trust_key", 2);
    FindSkips(f, "recovery_metadata", 3);
    FindSkips(f, "config_version", 4);
  }

  /** Endpoints and their keys never leave: stores that differ only in them make the same payload. */
  lemma {:induction false} EndpointsStay(a: seq<Issuer>, b: seq<Issuer>)
    requires |a| == |b| && forall k :: 0 <= k < |a| ==> a[k].id == b[k].id && a[k].publicKey == b[k].publicKey
    ensures IssuerDocs(a) == IssuerDocs(b)
  {
    if a != [] {
      EndpointsStay(a[1..], b[1..]);
    }
  }

  // ---- The restore ----

  /** Exactly which outcome a restore has, the first refusal naming it. */
  lemma OutcomesIff(c: Primitives, t: Target, blob: bytes, secret: bytes, luck: Luck)
    ensures var clear, outcome := Decrypt(c, blob, secret), Restore(c, t, blob, secret, luck).1;
            && (outcome == BAD_BLOB <==> clear.None?)
            && (clear.Some? ==>
                  var parses := c.parseJson(clear.value.payload).Some?;
                  && (outcome == BAD_JSON <==> !parses)
                  && (outcome == NO_MEMBERSHIP <==> parses && secret == []))
  {
    IdentityRefusedIff(c, t, blob, secret, luck);
    if Decrypt(c, blob, secret).Some? {
      ParseInverse(blob);
    }
  }

  /** A payload that says nothing restores a household called "Household" on a node called "Node", and no settings. */
  lemma SilentPayload(c: Primitives, t: Target, m: BackupMeta, salt: bytes, secret: bytes, luck: Luck)
    requires salt != [] && secret != [] && !HasIdentity(t.node) && luck.keys.Some? && luck.nodeSaved
    ensures var r := Install(c, t, m, salt, Object([]), secret, luck);
            && r.1 == COMPLETED && r.0.household.ram.info.name == Ascii("Household") && r.0.node.name == Ascii("Node")
            && r.0.household.ram.info.trustKey == t.household.ram.info.trustKey
            && (r.0.issuers, r.0.mqtt, r.0.misc) == (t.issuers, t.mqtt, t.misc)
  {
  }

  // ---- The pasted settings ----

  /** A flag is set by the string "true" and by nothing else; a missing port is 1883, one that is no number 0. */
  lemma SettingsRead(fields: seq<(string, Json)>, key: string)
    ensures FlagOf(Some(Object(fields)), key) == Boolean(Find(fields, key) == Some(Text(Ascii("true"))))
    ensures PortOf(Some(Object(fields))) ==
            match Find(fields, "mqtt_port")
            case None => 1883
            case Some(Number(n)) => ConfigSpec.ValueInt(n)
            case Some(Boolean(true)) => 1
            case _ => 0
  {
  }
}
