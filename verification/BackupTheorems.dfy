/** What a backup preserves, which blobs open, and exactly when a restore completes. */
module BackupTheorems {
  import opened Bytes
  import Aead
  import opened BackupHeader
  import opened BackupSpec
  import opened CredentialStore
  import opened JsonTree
  import opened NodeIdentity
  import opened NodeSettings
  import ConfigSpec
  import H = HouseholdSpec
  import Hex

  /** The blob is a version-1 header, a sealed payload bound to it, and a valid signature over both. */
  ghost predicate Authentic(c: Primitives, blob: bytes, secret: bytes, payload: bytes, h: Header, sig: bytes) {
    && Fits(h) && h.meta.formatVersion == FORMAT_VERSION && |sig| == SIG_LEN
    && var message := Layout(h) + c.aead.seal(H.DeriveBackupKey(c.kdf, secret, h.salt), h.nonce, Layout(h), payload);
       blob == message + sig && c.verify(h.meta.nodePublicKey, message, sig)
  }

  lemma DividedBlob(h: Header, ct: bytes, sig: bytes)
    requires Fits(h) && |ct| >= Aead.TAG_LEN && |sig| == SIG_LEN
    ensures var blob := Layout(h) + ct + sig;
            && Parse(blob) == Some(h) && Divides(blob, h)
            && Ciphertext(blob, h) == ct && Signature(blob, h) == sig
  {
    var blob := Layout(h) + ct + sig;
    ParseLayout(h, ct + sig);
    assert blob == Layout(h) + (ct + sig);
  }

  lemma AuthenticOpens(c: Primitives, blob: bytes, secret: bytes, payload: bytes, h: Header, sig: bytes)
    requires Laws(c) && Authentic(c, blob, secret, payload, h, sig)
    ensures Decrypt(c, blob, secret) == Some(Opened(payload, h))
  {
    var ct := c.aead.seal(H.DeriveBackupKey(c.kdf, secret, h.salt), h.nonce, Layout(h), payload);
    DividedBlob(h, ct, sig);
  }

  lemma OpenedIsAuthentic(c: Primitives, blob: bytes, secret: bytes)
    requires Laws(c) && Decrypt(c, blob, secret).Some?
    ensures var o := Decrypt(c, blob, secret).value;
            Divides(blob, o.header) && Authentic(c, blob, secret, o.payload, o.header, Signature(blob, o.header))
  {
    var o := Decrypt(c, blob, secret).value;
    ParseInverse(blob);
    BlobParts(blob, o.header);
  }

  /** Exactly the authentic blobs open, each to the one payload and header it was made from. */
  lemma DecryptIff(c: Primitives, blob: bytes, secret: bytes, payload: bytes, h: Header)
    requires Laws(c)
    ensures Decrypt(c, blob, secret) == Some(Opened(payload, h))
            <==> exists sig :: Authentic(c, blob, secret, payload, h, sig)
  {
    if Decrypt(c, blob, secret) == Some(Opened(payload, h)) {
      OpenedIsAuthentic(c, blob, secret);
    }
    if sig :| Authentic(c, blob, secret, payload, h, sig) {
      AuthenticOpens(c, blob, secret, payload, h, sig);
    }
  }

  /** A created backup opens under the secret it was made with. */
  lemma CreatedOpens(c: Primitives, s: Source, t: Stamp)
    requires Laws(c) && Paired(c, s.node.publicKey, s.node.privateKey)
    requires |s.node.publicKey| == KEY_LEN && |t.nonce| == NONCE_LEN && Create(c, s, t).Some?
    ensures Decrypt(c, Create(c, s, t).value, s.ram.secret)
            == Some(Opened(c.printJson(PayloadDoc(s.ram.info, s.settings, s.issuers)),
                           Header(Capped(MetaOf(s, t)), s.ram.salt, t.nonce)))
  {
    var h := Printed(MetaOf(s, t), s.ram.salt, t.nonce);
    HeaderRoundTrip(MetaOf(s, t), s.ram.salt, t.nonce, []);
    ParseLayout(h, []);
    assert h == Header(Capped(MetaOf(s, t)), s.ram.salt, t.nonce);
    H.DerivationsAgree(c.kdf, s.ram.secret, s.ram.salt);
    var payload := c.printJson(PayloadDoc(s.ram.info, s.settings, s.issuers));
    var message := Layout(h) + c.aead.seal(H.DeriveBackupKey(c.kdf, s.ram.secret, h.salt), h.nonce, Layout(h), payload);
    AuthenticOpens(c, Create(c, s, t).value, s.ram.secret, payload, h, c.sign(s.node.privateKey, message));
  }

  // ---- Issuers ----

  /** What a backup carries of an issuer: endpoints and the x coordinate stay behind. */
  function PublicPart(i: Issuer): Issuer {
    Issuer(i.id, Cut(i.publicKey, 32), [], [])
  }

  predicate Exportable(i: Issuer) {
    i.id != [] && |i.publicKey| >= 32
  }

  lemma AddOneDoc(issuers: seq<Issuer>, i: Issuer)
    ensures AddOne(issuers, IssuerDoc(i))
            == if Exportable(i) && !Has(issuers, i.id) then issuers + [PublicPart(i)] else issuers
  {
    IssuerDocFields(i);
    Hex.RoundTrip(i.id, Hex.LOWER);
    Hex.RoundTrip(i.publicKey, Hex.LOWER);
  }

  lemma IssuerDocFields(i: Issuer)
    ensures GetText(Some(IssuerDoc(i)), "id", []) == Hex.Encode(i.id, Hex.LOWER)
    ensures GetText(Some(IssuerDoc(i)), "public_key", []) == Hex.Encode(i.publicKey, Hex.LOWER)
  {
    var fields := IssuerDoc(i).fields;
    assert fields[1..] == [("public_key", Text(Hex.Encode(i.publicKey, Hex.LOWER)))];
    assert Find(fields, "public_key") == Find(fields[1..], "public_key");
  }

  /** The issuers a restore adds, in order: the exportable ones whose id is not there yet. */
  function Missing(present: seq<Issuer>, source: seq<Issuer>): seq<Issuer>
    decreases |source|
  {
    if source == [] then []
    else if Exportable(source[0]) && !Has(present, source[0].id)
    then [PublicPart(source[0])] + Missing(present + [PublicPart(source[0])], source[1..])
    else Missing(present, source[1..])
  }

  lemma {:induction false} AddAllDocs(present: seq<Issuer>, source: seq<Issuer>)
    ensures AddAll(present, IssuerDocs(source)) == present + Missing(present, source)
    decreases |source|
  {
    if source != [] {
      AddOneDoc(present, source[0]);
      assert IssuerDocs(source)[1..] == IssuerDocs(source[1..]);
      if Exportable(source[0]) && !Has(present, source[0].id) {
        var added := [PublicPart(source[0])];
        AddAllDocs(present + added, source[1..]);
        Associate(present, added, Missing(present + added, source[1..]));
      } else {
        AddAllDocs(present, source[1..]);
      }
    }
  }

  lemma Associate<T>(a: seq<T>, b: seq<T>, c: seq<T>)
    ensures (a + b) + c == a + (b + c)
  {
  }

  lemma HasAppend(issuers: seq<Issuer>, i: Issuer, id: bytes)
    ensures Has(issuers + [i], id) <==> Has(issuers, id) || i.id == id
  {
    var all := issuers + [i];
    assert all[|issuers|] == i;
    assert forall j :: 0 <= j < |issuers| ==> all[j] == issuers[j];
  }

  /** Exportable issuers with distinct ids that are all new come across one for one. */
  lemma {:induction false} AllMissing(present: seq<Issuer>, source: seq<Issuer>)
    requires UniqueIds(source)
    requires forall i :: 0 <= i < |source| ==> Exportable(source[i]) && !Has(present, source[i].id)
    ensures Missing(present, source) == seq(|source|, i requires 0 <= i < |source| => PublicPart(source[i]))
    decreases |source|
  {
    if source != [] {
      var next := present + [PublicPart(source[0])];
      forall i | 0 <= i < |source[1..]|
        ensures Exportable(source[1..][i]) && !Has(next, source[1..][i].id)
      {
        HasAppend(present, PublicPart(source[0]), source[i + 1].id);
      }
      AllMissing(next, source[1..]);
    }
  }

  // ---- Backup, then restore ----

  /** The root carries what this source's payload carries. */
  ghost predicate Carries(root: Json, s: Source) {
    && GetText(Get(Some(root), "household"), "household_name", Ascii("Household")) == s.ram.info.name
    && Hex.DecodeOrEmpty(GetText(Get(Some(root), "household"), "trust_key", [])) == s.ram.info.trustKey
    && Get(Some(root), "node_config") == Some(ConfigDoc(s.settings))
    && GetText(Get(Some(root), "node_config"), "device_name", Ascii("Node")) == s.settings.deviceName
    && Get(Some(root), "issuers") == Some(Array(IssuerDocs(s.issuers)))
  }

  lemma PayloadFields(s: Source)
    ensures Carries(PayloadDoc(s.ram.info, s.settings, s.issuers), s)
  {
    var fields := PayloadDoc(s.ram.info, s.settings, s.issuers).fields;
    var household := fields[0].1.fields;
    FindSkips(household, "household_name", 1);
    FindSkips(household, "trust_key", 2);
    FindSkips(fields, "node_config", 1);
    FindSkips(fields, "issuers", 2);
    Hex.RoundTrip(s.ram.info.trustKey, Hex.LOWER);
  }

  lemma {:induction false} FindSkips(fields: seq<(string, Json)>, key: string, n: nat)
    requires n < |fields| && fields[n].0 == key
    requires forall j :: 0 <= j < n ==> fields[j].0 != key
    ensures Find(fields, key) == Some(fields[n].1)
  {
    if n > 0 {
      FindSkips(fields[1..], key, n - 1);
    }
  }

  /** The membership after restoring this source's backup over `before`. */
  ghost predicate HouseholdKept(c: Primitives, s: Source, before: H.Ram, a: H.Ram) {
    && a.info.state == H.ACTIVE && a.info.hasSecret && a.info.exported
    && a.info.id == Cut(s.ram.info.id, ID_MAX) && a.info.name == s.ram.info.name
    && a.info.trustKey == (if s.ram.info.trustKey != [] then s.ram.info.trustKey else before.info.trustKey)
    && a.secret == s.ram.secret
    && (forall l :: H.DeriveKey(c.kdf, l, a.secret, a.salt) == H.DeriveKey(c.kdf, l, s.ram.secret, s.ram.salt))
  }

  /** The identity that replaces this source's, with the pair generated for it. */
  predicate NodeReplaced(c: Primitives, s: Source, keys: KeyPair, n: Node) {
    && n.role == s.node.role && n.name == s.settings.deviceName && n.householdId == Cut(s.ram.info.id, ID_MAX)
    && n.state == NodeState.ACTIVE && n.id == NodeId(n.role, n.generation)
    && (n.generation as int) == ((s.node.generation as int) + 1) % 256
    && Holds(c.sha, n, keys)
  }

  /** What a completed restore of this source's backup leaves on the target. */
  ghost predicate Preserved(c: Primitives, s: Source, keys: KeyPair, before: Target, after: Target) {
    && HouseholdKept(c, s, before.household.ram, after.household.ram)
    && NodeReplaced(c, s, keys, after.node)
    && after.issuers == before.issuers + Missing(before.issuers, s.issuers)
    && after.mqtt == UpdateText(c.parseJson, before.mqtt, MqttFields(Some(ConfigDoc(s.settings))))
    && after.misc == UpdateText(c.parseJson, before.misc, MiscFields(Some(ConfigDoc(s.settings))))
  }

  lemma MembershipKept(c: Primitives, s: Source, stamp: Stamp, root: Json, t: Target, fault: H.Fault)
    requires s.ram.secret != [] && s.ram.salt != [] && Carries(root, s)
    ensures var joined := Membership(c, t, Capped(MetaOf(s, stamp)), s.ram.salt, root, s.ram.secret, fault);
            joined.Some? && HouseholdKept(c, s, t.household.ram, joined.value.ram)
  {
  }

  /** Installing such a root completes and preserves the household. */
  lemma InstallPreserves(c: Primitives, s: Source, stamp: Stamp, root: Json, t: Target, luck: Luck)
    requires s.ram.secret != [] && s.ram.salt != [] && Carries(root, s)
    requires !HasIdentity(t.node) && luck.keys.Some? && luck.nodeSaved
    ensures var r := Install(c, t, Capped(MetaOf(s, stamp)), s.ram.salt, root, s.ram.secret, luck);
            r.1 == COMPLETED && Preserved(c, s, luck.keys.value, t, r.0)
  {
    MembershipKept(c, s, stamp, root, t, luck.fault);
    ReplacementMade(c, s, t.node, luck);
    var m := Capped(MetaOf(s, stamp));
    var joined := Membership(c, t, m, s.ram.salt, root, s.ram.secret, luck.fault).value;
    var node := Replacement(c.sha, t.node, s.node.role, s.settings.deviceName, Cut(s.ram.info.id, ID_MAX), s.node.generation, luck.keys).value;
    var moved := Configure(c, t.(household := joined, node := node), Some(ConfigDoc(s.settings)));
    IssuersInstalled(s, moved, root);
    assert Install(c, t, m, s.ram.salt, root, s.ram.secret, luck) == (WithIssuers(moved, root), COMPLETED);
  }

  lemma ReplacementMade(c: Primitives, s: Source, n: Node, luck: Luck)
    requires !HasIdentity(n) && luck.keys.Some?
    ensures var r := Replacement(c.sha, n, s.node.role, s.settings.deviceName, Cut(s.ram.info.id, ID_MAX), s.node.generation, luck.keys);
            r.Some? && NodeReplaced(c, s, luck.keys.value, r.value)
  {
  }

  lemma IssuersInstalled(s: Source, t: Target, root: Json)
    requires Carries(root, s)
    ensures WithIssuers(t, root) == t.(issuers := t.issuers + Missing(t.issuers, s.issuers))
  {
    AddAllDocs(t.issuers, s.issuers);
  }

  /**
   * Restoring a backup with the recovery secret it was made with, on a device without an identity,
   * completes and preserves the household.
   */
  lemma BackupThenRestore(c: Primitives, s: Source, stamp: Stamp, t: Target, luck: Luck)
    requires Restorable(c, s, stamp)
    requires !HasIdentity(t.node) && luck.keys.Some? && luck.nodeSaved
    ensures var r := Restore(c, t, Create(c, s, stamp).value, s.ram.secret, luck);
            r.1 == COMPLETED && Preserved(c, s, luck.keys.value, t, r.0)
  {
    CreatedOpens(c, s, stamp);
    PayloadFields(s);
    InstallPreserves(c, s, stamp, PayloadDoc(s.ram.info, s.settings, s.issuers), t, luck);
  }

  /** A backup was created, with primitives that keep their laws and a payload whose text parses back. */
  ghost predicate Restorable(c: Primitives, s: Source, stamp: Stamp) {
    && Laws(c) && Paired(c, s.node.publicKey, s.node.privateKey)
    && |s.node.publicKey| == KEY_LEN && |stamp.nonce| == NONCE_LEN && Create(c, s, stamp).Some?
    && var doc := PayloadDoc(s.ram.info, s.settings, s.issuers); c.parseJson(c.printJson(doc)) == Some(doc)
  }

  /**
   * The settings after a restore, where no value breaks out of its quotes: texts and port are the
   * source's, a secret that is the mask is not taken over, and no flag is ever set: a flag survives
   * exactly when it was off.
   */
  lemma SettingsRestored(c: Primitives, s: Source, keys: KeyPair, before: Target, after: Target)
    requires Preserved(c, s, keys, before, after) && Readable(c.parseJson, Some(ConfigDoc(s.settings)))
    requires MqttShaped(before.mqtt) && MiscShaped(before.misc)
    ensures MqttTaken(before.mqtt, after.mqtt, s.settings) && MiscTaken(before.misc, after.misc, s.settings)
    ensures after.mqtt["useSSL"] == ConfigSpec.Flag(s.settings.useSsl) <==> !s.settings.useSsl
    ensures after.misc["webAuthEnabled"] == ConfigSpec.Flag(s.settings.webAuth) <==> !s.settings.webAuth
  {
    MqttRestored(c.parseJson, before.mqtt, s.settings);
    MiscRestored(c.parseJson, before.misc, s.settings);
  }

  /** The exact conditions under which each part of the household is the source's own. */
  lemma PreservedExactly(c: Primitives, s: Source, keys: KeyPair, before: Target, after: Target)
    requires Preserved(c, s, keys, before, after)
    ensures after.household.ram.info.id == s.ram.info.id <==> |s.ram.info.id| <= ID_MAX
    ensures after.household.ram.info.trustKey == s.ram.info.trustKey
            <==> s.ram.info.trustKey != [] || before.household.ram.info.trustKey == []
    ensures after.node.generation > s.node.generation <==> s.node.generation < 255
    ensures forall prefix :: s.node.id == prefix + Ascii("-") + Pad3(s.node.generation) ==> after.node.id != s.node.id
  {
    forall prefix | s.node.id == prefix + Ascii("-") + Pad3(s.node.generation)
      ensures after.node.id != s.node.id
    {
      IdsDiffer(prefix, after.node.role, s.node.generation, after.node.generation);
    }
  }

  /** On a store with no issuers yet, exactly the source's ids and 32-byte keys arrive, in order. */
  lemma IssuersArrive(c: Primitives, s: Source, keys: KeyPair, before: Target, after: Target)
    requires Preserved(c, s, keys, before, after) && before.issuers == []
    requires UniqueIds(s.issuers) && forall i :: 0 <= i < |s.issuers| ==> Exportable(s.issuers[i])
    ensures Ids(after.issuers) == Ids(s.issuers)
    ensures forall i :: 0 <= i < |s.issuers| ==> after.issuers[i] == PublicPart(s.issuers[i])
  {
    AllMissing([], s.issuers);
    assert after.issuers == Missing([], s.issuers);
  }

  lemma InstallCompletesIff(c: Primitives, t: Target, m: BackupMeta, salt: bytes, root: Json, secret: bytes, luck: Luck)
    requires salt != []
    ensures Install(c, t, m, salt, root, secret, luck).1 == COMPLETED
            <==> secret != [] && !HasIdentity(t.node) && luck.keys.Some? && luck.nodeSaved
  {
  }

  /** Exactly when a restore completes. */
  lemma CompletesIff(c: Primitives, t: Target, blob: bytes, secret: bytes, luck: Luck)
    ensures Restore(c, t, blob, secret, luck).1 == COMPLETED <==>
              && Decrypt(c, blob, secret).Some?
              && c.parseJson(Decrypt(c, blob, secret).value.payload).Some?
              && secret != [] && !HasIdentity(t.node) && luck.keys.Some? && luck.nodeSaved
  {
    var clear := Decrypt(c, blob, secret);
    if clear.Some? && c.parseJson(clear.value.payload).Some? {
      ParseInverse(blob);
      var h := clear.value.header;
      InstallCompletesIff(c, t, h.meta, h.salt, c.parseJson(clear.value.payload).value, secret, luck);
    }
  }

  /** The blob opens, its payload parses, and a secret was given: the restore reaches the household. */
  predicate Reaches(c: Primitives, blob: bytes, secret: bytes) {
    Decrypt(c, blob, secret).Some? && c.parseJson(Decrypt(c, blob, secret).value.payload).Some? && secret != []
  }

  /** The household after the membership step of a restore that reaches it. */
  function Joined(c: Primitives, t: Target, blob: bytes, secret: bytes, fault: H.Fault): Option<H.Device>
    requires Reaches(c, blob, secret)
  {
    var o := Decrypt(c, blob, secret).value;
    Membership(c, t, o.header.meta, o.header.salt, c.parseJson(o.payload).value, secret, fault)
  }

  /**
   * The identity step refuses exactly when the household was reached and the device already has an
   * identity, or no key pair could be made, or the node could not be saved.
   */
  lemma IdentityRefusedIff(c: Primitives, t: Target, blob: bytes, secret: bytes, luck: Luck)
    ensures Restore(c, t, blob, secret, luck).1 == NO_IDENTITY <==>
              Reaches(c, blob, secret) && (HasIdentity(t.node) || luck.keys.None? || !luck.nodeSaved)
  {
    if Reaches(c, blob, secret) {
      ParseInverse(blob);
    }
  }

  /**
   * A restore that does not complete changes nothing when it does not reach the household. When it
   * does, the device is a member already, and of the rest only a node that was blank can have moved.
   */
  lemma FailedRestore(c: Primitives, t: Target, blob: bytes, secret: bytes, luck: Luck)
    requires Restore(c, t, blob, secret, luck).1 != COMPLETED
    ensures var r := Restore(c, t, blob, secret, luck).0;
            if Reaches(c, blob, secret) then
              && Joined(c, t, blob, secret, luck.fault) == Some(r.household)
              && r.household.ram.info.state == H.ACTIVE && r.household.ram.secret == secret
              && r.household.ram.info.id == Decrypt(c, blob, secret).value.header.meta.householdId
              && (HasIdentity(t.node) || luck.keys.None? ==> r.node == t.node)
              && r == t.(household := r.household, node := r.node)
            else r == t
  {
    if Reaches(c, blob, secret) {
      ParseInverse(blob);
    }
  }

  /**
   * A restore leaves the device as it was exactly when it does not reach the household, or when the
   * membership step itself changes nothing and no new identity can be made. A key pair has a
   * private half.
   */
  lemma UnchangedIff(c: Primitives, t: Target, blob: bytes, secret: bytes, luck: Luck)
    requires luck.keys.Some? ==> luck.keys.value.sk != []
    ensures Reaches(c, blob, secret) ==> Joined(c, t, blob, secret, luck.fault).Some?
    ensures Restore(c, t, blob, secret, luck).0 == t <==>
              (Reaches(c, blob, secret) ==>
                 && Joined(c, t, blob, secret, luck.fault) == Some(t.household)
                 && (HasIdentity(t.node) || luck.keys.None?))
  {
    if Reaches(c, blob, secret) {
      ParseInverse(blob);
      var o := Decrypt(c, blob, secret).value;
      InstallIdentity(c, t, o.header.meta, o.header.salt, c.parseJson(o.payload).value, secret, luck);
    }
  }

  /** Past the membership step, a new identity is what a key pair on a blank device leads to. */
  lemma InstallIdentity(c: Primitives, t: Target, m: BackupMeta, salt: bytes, root: Json, secret: bytes, luck: Luck)
    requires salt != [] && secret != [] && (luck.keys.Some? ==> luck.keys.value.sk != [])
    ensures var joined, after := Membership(c, t, m, salt, root, secret, luck.fault), Install(c, t, m, salt, root, secret, luck).0;
            && joined.Some? && after.household == joined.value
            && (if HasIdentity(t.node) || luck.keys.None? then after == t.(household := joined.value)
                else HasIdentity(after.node))
  {
  }

  /**
   * Every booted device has an identity. A created backup restored there with the right secret is
   * refused, with the source's membership already installed and node, issuers and settings as they
   * were.
   */
  lemma RefusedOnBootedDevice(c: Primitives, s: Source, stamp: Stamp, t: Target, luck: Luck)
    requires Restorable(c, s, stamp) && HasIdentity(t.node)
    ensures var r := Restore(c, t, Create(c, s, stamp).value, s.ram.secret, luck);
            && r.1 == NO_IDENTITY && HouseholdKept(c, s, t.household.ram, r.0.household.ram)
            && r.0 == t.(household := r.0.household)
  {
    CreatedOpens(c, s, stamp);
    PayloadFields(s);
    MembershipKept(c, s, stamp, PayloadDoc(s.ram.info, s.settings, s.issuers), t, luck.fault);
  }
}
