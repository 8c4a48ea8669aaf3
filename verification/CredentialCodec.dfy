/** The credential store's MessagePack document, as a tree of objects. */
module CredentialCodec {
  import opened Bytes
  import opened CredentialStore

  datatype Obj =
    | Nil
    | Bool(b: bool)
    | PosInt(n: nat)
    | NegInt(i: int)
    | Str(text: string)
    | Arr(items: seq<Obj>)
    | Dict(entries: seq<(Obj, Obj)>)

  // ---- Packing ----

  function PackInt(i: int): Obj {
    if i >= 0 then PosInt(i) else NegInt(i)
  }

  function PackBytes(b: bytes): Obj {
    Arr(seq(|b|, i requires 0 <= i < |b| => PosInt(b[i])))
  }

  function PackEndpoint(e: Endpoint): Obj {
    Dict([
      (Str("endpointId"), PackBytes(e.id)), (Str("last_used_at"), PosInt(e.usedAt)),
      (Str("counter"), PackInt(e.counter)), (Str("key_type"), PackInt(e.keyType)),
      (Str("publicKey"), PackBytes(e.publicKey)), (Str("endpoint_key_x"), PackBytes(e.publicKeyX)),
      (Str("persistent_key"), PackBytes(e.persistentKey))])
  }

  function PackIssuer(i: Issuer): Obj {
    Dict([
      (Str("issuerId"), PackBytes(i.id)), (Str("publicKey"), PackBytes(i.publicKey)),
      (Str("issuer_key_x"), PackBytes(i.publicKeyX)),
      (Str("endpoints"), Arr(seq(|i.endpoints|, k requires 0 <= k < |i.endpoints| => PackEndpoint(i.endpoints[k]))))])
  }

  /** The labels in the order the map is walked. */
  function PackLabels(labels: map<string, string>, order: seq<string>): seq<(Obj, Obj)>
    requires forall k <- order :: k in labels
  {
    seq(|order|, i requires 0 <= i < |order| => (Str(order[i]), Str(labels[order[i]])))
  }

  /** `order` walks the map: every key, and nothing else. */
  ghost predicate Walks(order: seq<string>, labels: map<string, string>) {
    (forall k <- order :: k in labels) && (forall k <- labels :: k in order)
  }

  function PackAll(s: Snapshot, order: seq<string>): Obj
    requires forall k <- order :: k in s.labels
  {
    Dict([
      (Str("reader_private_key"), PackBytes(s.identity.privateKey)), (Str("reader_public_key"), PackBytes(s.identity.publicKey)),
      (Str("reader_key_x"), PackBytes(s.identity.publicKeyX)), (Str("group_identifier"), PackBytes(s.identity.groupIdentifier)),
      (Str("unique_identifier"), PackBytes(s.identity.subIdentifier)),
      (Str("issuers"), Arr(seq(|s.issuers|, i requires 0 <= i < |s.issuers| => PackIssuer(s.issuers[i])))),
      (Str("issuer_labels"), Dict(PackLabels(s.labels, order)))])
  }

  // ---- Unpacking ----

  /** to_map: the last entry under this string key. */
  function Find(entries: seq<(Obj, Obj)>, key: string): Option<Obj> {
    if entries == [] then None
    else if entries[|entries| - 1].0 == Str(key) then Some(entries[|entries| - 1].1)
    else Find(entries[..|entries| - 1], key)
  }

  /** The 64-bit integer of an element, cut to a byte; other element types do not occur in these arrays. */
  function ByteOf(o: Obj): uint8 {
    match o
    case PosInt(n) => n % 256
    case NegInt(i) => i % 256
    case _ => 0
  }

  function UnpackBytes(entries: seq<(Obj, Obj)>, key: string, absent: bytes): bytes {
    var o := Find(entries, key);
    if o.None? || !o.value.Arr? then absent
    else seq(|o.value.items|, i requires 0 <= i < |o.value.items| => ByteOf(o.value.items[i]))
  }

  /** Only non-negative integers are taken; anything else leaves the default. */
  function UnpackInt(entries: seq<(Obj, Obj)>, key: string, absent: int): int {
    var o := Find(entries, key);
    if o.Some? && o.value.PosInt? then o.value.n else absent
  }

  /** `d` is a default-constructed endpoint. */
  function UnpackEndpoint(o: Obj, d: Endpoint): Endpoint {
    if !o.Dict? then d
    else
      var m := o.entries;
      Endpoint(UnpackBytes(m, "endpointId", d.id), UnpackInt(m, "last_used_at", d.usedAt) % 0x1_0000_0000,
               UnpackCounter(m, d.counter), UnpackInt(m, "key_type", d.keyType),
               UnpackBytes(m, "publicKey", d.publicKey), UnpackBytes(m, "endpoint_key_x", d.publicKeyX),
               UnpackBytes(m, "persistent_key", d.persistentKey))
  }

  /** The counter is read through a byte. */
  function UnpackCounter(entries: seq<(Obj, Obj)>, absent: int): int {
    var o := Find(entries, "counter");
    if o.Some? && o.value.PosInt? then o.value.n % 256 else absent
  }

  function UnpackIssuer(o: Obj, d: Endpoint): Issuer {
    if !o.Dict? then Issuer([], [], [], [])
    else
      var m := o.entries;
      var e := Find(m, "endpoints");
      Issuer(UnpackBytes(m, "issuerId", []), UnpackBytes(m, "publicKey", []), UnpackBytes(m, "issuer_key_x", []),
             if e.Some? && e.value.Arr? then
               seq(|e.value.items|, i requires 0 <= i < |e.value.items| => UnpackEndpoint(e.value.items[i], d))
             else [])
  }

  function UnpackLabels(entries: seq<(Obj, Obj)>): map<string, string> {
    if entries == [] then map[]
    else
      var n := |entries| - 1;
      var before := UnpackLabels(entries[..n]);
      if entries[n].0.Str? && entries[n].1.Str? then before[entries[n].0.text := entries[n].1.text] else before
  }

  const FRESH: Snapshot := Snapshot(ReaderIdentity([], [], [], [], []), [], map[])

  function UnpackIdentityOf(m: seq<(Obj, Obj)>): ReaderIdentity {
    ReaderIdentity(UnpackBytes(m, "reader_private_key", []), UnpackBytes(m, "reader_public_key", []),
                   UnpackBytes(m, "reader_key_x", []), UnpackBytes(m, "group_identifier", []),
                   UnpackBytes(m, "unique_identifier", []))
  }

  function UnpackLabelsOf(list: Option<Obj>): map<string, string> {
    if list.None? || !list.value.Dict? then map[] else UnpackLabels(list.value.entries)
  }

  function UnpackIssuersOf(list: Option<Obj>, d: Endpoint): seq<Issuer> {
    if list.None? || !list.value.Arr? then []
    else seq(|list.value.items|, k requires 0 <= k < |list.value.items| => UnpackIssuer(list.value.items[k], d))
  }

  function UnpackAll(o: Obj, d: Endpoint): Snapshot {
    if !o.Dict? then FRESH
    else
      var m := o.entries;
      Snapshot(
        UnpackIdentityOf(m), UnpackIssuersOf(Find(m, "issuers"), d), UnpackLabelsOf(Find(m, "issuer_labels")))
  }

  /** The document a store is packed into when its labels are walked that way. */
  ghost function PackedBy(walk: map<string, string> -> seq<string>, s: Snapshot): Obj
    requires forall m :: Walks(walk(m), m)
  {
    assert Walks(walk(s.labels), s.labels);
    PackAll(s, walk(s.labels))
  }

  // ---- The round trip ----

  lemma {:induction false} FindAt(entries: seq<(Obj, Obj)>, n: nat, key: string)
    requires n < |entries| && entries[n].0 == Str(key)
    requires forall j :: n < j < |entries| ==> entries[j].0 != Str(key)
    ensures Find(entries, key) == Some(entries[n].1)
    decreases |entries|
  {
    if n < |entries| - 1 {
      FindAt(entries[..|entries| - 1], n, key);
    }
  }

  lemma BytesBack(entries: seq<(Obj, Obj)>, key: string, b: bytes, absent: bytes)
    requires Find(entries, key) == Some(PackBytes(b))
    ensures UnpackBytes(entries, key, absent) == b
  {
  }

  /** What the wire keeps of an endpoint: a byte of the counter, and only non-negative integers. */
  function Kept(e: Endpoint, d: Endpoint): Endpoint {
    e.(counter := if e.counter >= 0 then e.counter % 256 else d.counter,
       keyType := if e.keyType >= 0 then e.keyType else d.keyType)
  }

  lemma EndpointBack(e: Endpoint, d: Endpoint)
    ensures UnpackEndpoint(PackEndpoint(e), d) == Kept(e, d)
  {
    var m := PackEndpoint(e).entries;
    EndpointFinds(e);
    BytesBack(m, "endpointId", e.id, d.id);
    BytesBack(m, "publicKey", e.publicKey, d.publicKey);
    BytesBack(m, "endpoint_key_x", e.publicKeyX, d.publicKeyX);
    BytesBack(m, "persistent_key", e.persistentKey, d.persistentKey);
  }

  lemma EndpointFinds(e: Endpoint)
    ensures var m := PackEndpoint(e).entries;
            && Find(m, "endpointId") == Some(PackBytes(e.id)) && Find(m, "last_used_at") == Some(PosInt(e.usedAt))
            && Find(m, "counter") == Some(PackInt(e.counter)) && Find(m, "key_type") == Some(PackInt(e.keyType))
            && Find(m, "publicKey") == Some(PackBytes(e.publicKey)) && Find(m, "endpoint_key_x") == Some(PackBytes(e.publicKeyX))
            && Find(m, "persistent_key") == Some(PackBytes(e.persistentKey))
  {
    var m := PackEndpoint(e).entries;
    FindAt(m, 0, "endpointId");
    FindAt(m, 1, "last_used_at");
    FindAt(m, 2, "counter");
    FindAt(m, 3, "key_type");
    FindAt(m, 4, "publicKey");
    FindAt(m, 5, "endpoint_key_x");
    FindAt(m, 6, "persistent_key");
  }

  function KeptIssuer(i: Issuer, d: Endpoint): (r: Issuer)
    ensures |r.endpoints| == |i.endpoints|
  {
    i.(endpoints := seq(|i.endpoints|, k requires 0 <= k < |i.endpoints| => Kept(i.endpoints[k], d)))
  }

  lemma IssuerBack(i: Issuer, d: Endpoint)
    ensures UnpackIssuer(PackIssuer(i), d) == KeptIssuer(i, d)
  {
    var m := PackIssuer(i).entries;
    FindAt(m, 0, "issuerId");
    FindAt(m, 1, "publicKey");
    FindAt(m, 2, "issuer_key_x");
    FindAt(m, 3, "endpoints");
    BytesBack(m, "issuerId", i.id, []);
    BytesBack(m, "publicKey", i.publicKey, []);
    BytesBack(m, "issuer_key_x", i.publicKeyX, []);
    forall k | 0 <= k < |i.endpoints|
      ensures UnpackEndpoint(PackEndpoint(i.endpoints[k]), d) == Kept(i.endpoints[k], d)
    {
      EndpointBack(i.endpoints[k], d);
    }
    assert UnpackIssuer(PackIssuer(i), d).endpoints == KeptIssuer(i, d).endpoints;
  }

  lemma {:induction false} LabelsBack(labels: map<string, string>, order: seq<string>)
    requires forall k <- order :: k in labels
    ensures UnpackLabels(PackLabels(labels, order)).Keys == set k | k in order
    ensures forall k <- order :: UnpackLabels(PackLabels(labels, order))[k] == labels[k]
    decreases |order|
  {
    if order != [] {
      var n := |order| - 1;
      LabelsBack(labels, order[..n]);
      assert PackLabels(labels, order)[..n] == PackLabels(labels, order[..n]);
      assert order == order[..n] + [order[n]];
    }
  }

  lemma IdentityFinds(s: Snapshot, order: seq<string>, d: Endpoint)
    requires forall k <- order :: k in s.labels
    ensures UnpackAll(PackAll(s, order), d).identity == s.identity
  {
    var m := PackAll(s, order).entries;
    FindAt(m, 0, "reader_private_key");
    FindAt(m, 1, "reader_public_key");
    FindAt(m, 2, "reader_key_x");
    FindAt(m, 3, "group_identifier");
    FindAt(m, 4, "unique_identifier");
    BytesBack(m, "reader_private_key", s.identity.privateKey, []);
    BytesBack(m, "reader_public_key", s.identity.publicKey, []);
    BytesBack(m, "reader_key_x", s.identity.publicKeyX, []);
    BytesBack(m, "group_identifier", s.identity.groupIdentifier, []);
    BytesBack(m, "unique_identifier", s.identity.subIdentifier, []);
  }

  lemma IssuersAndLabelsBack(s: Snapshot, order: seq<string>, d: Endpoint)
    requires Walks(order, s.labels)
    ensures var r := UnpackAll(PackAll(s, order), d);
            && r.labels == s.labels && |r.issuers| == |s.issuers|
            && forall i :: 0 <= i < |s.issuers| ==> r.issuers[i] == KeptIssuer(s.issuers[i], d)
  {
    var m := PackAll(s, order).entries;
    FindAt(m, 5, "issuers");
    FindAt(m, 6, "issuer_labels");
    LabelsBack(s.labels, order);
    var r := UnpackAll(PackAll(s, order), d);
    assert r.labels == UnpackLabels(PackLabels(s.labels, order));
    assert r.labels.Keys == s.labels.Keys;
    forall i | 0 <= i < |s.issuers|
      ensures r.issuers[i] == KeptIssuer(s.issuers[i], d)
    {
      IssuerBack(s.issuers[i], d);
    }
  }

  /** An endpoint the wire carries whole. */
  predicate Portable(e: Endpoint) {
    0 <= e.counter < 256 && e.keyType >= 0
  }

  predicate AllPortable(s: Snapshot) {
    forall i, k :: 0 <= i < |s.issuers| && 0 <= k < |s.issuers[i].endpoints| ==> Portable(s.issuers[i].endpoints[k])
  }

  /**
   * The store comes back unchanged exactly when every endpoint's counter is a byte and its key type
   * is not negative, for any number of issuers, endpoints and labels.
   */
  lemma RoundTrip(s: Snapshot, order: seq<string>, d: Endpoint)
    requires Walks(order, s.labels) && Portable(d)
    ensures UnpackAll(PackAll(s, order), d) == s <==> AllPortable(s)
  {
    IdentityFinds(s, order, d);
    IssuersAndLabelsBack(s, order, d);
    var r := UnpackAll(PackAll(s, order), d);
    if AllPortable(s) {
      forall i | 0 <= i < |s.issuers|
        ensures r.issuers[i] == s.issuers[i]
      {
        assert KeptIssuer(s.issuers[i], d).endpoints == s.issuers[i].endpoints;
      }
      assert r.issuers == s.issuers;
    } else {
      var i, k :| 0 <= i < |s.issuers| && 0 <= k < |s.issuers[i].endpoints| && !Portable(s.issuers[i].endpoints[k]);
      assert r.issuers[i].endpoints[k] == Kept(s.issuers[i].endpoints[k], d);
    }
  }

  const KNOWN: set<string> := {
    "reader_private_key", "reader_public_key", "reader_key_x", "group_identifier", "unique_identifier",
    "issuers", "issuer_labels"}

  lemma {:induction false} FindSkips(a: seq<(Obj, Obj)>, kv: (Obj, Obj), b: seq<(Obj, Obj)>, key: string)
    requires kv.0 != Str(key)
    ensures Find(a + [kv] + b, key) == Find(a + b, key)
    decreases |b|
  {
    if b == [] {
      assert a + [kv] + b == a + [kv] && a + b == a;
      assert (a + [kv])[..|a|] == a;
    } else {
      var n := |b| - 1;
      FindSkips(a, kv, b[..n], key);
      assert (a + [kv] + b)[..|a| + 1 + n] == a + [kv] + b[..n];
      assert (a + b)[..|a| + n] == a + b[..n];
    }
  }

  /** An entry under a key this firmware does not know, anywhere in the document, changes nothing. */
  lemma UnknownKeysIgnored(a: seq<(Obj, Obj)>, kv: (Obj, Obj), b: seq<(Obj, Obj)>, d: Endpoint)
    requires kv.0.Str? ==> kv.0.text !in KNOWN
    ensures UnpackAll(Dict(a + [kv] + b), d) == UnpackAll(Dict(a + b), d)
  {
    forall key | key in KNOWN
      ensures Find(a + [kv] + b, key) == Find(a + b, key)
    {
      FindSkips(a, kv, b, key);
    }
    assert forall key :: key in KNOWN ==> Find(a + [kv] + b, key) == Find(a + b, key);
  }

  // ---- The document ----

  /** A stored byte string is an array of one integer per byte. */
  lemma BytesStored(b: bytes)
    ensures PackBytes(b).Arr? && |PackBytes(b).items| == |b| && forall i :: 0 <= i < |b| ==> PackBytes(b).items[i] == PosInt(b[i])
  {
  }

  /** A stored integer keeps its value and says its sign by its kind. */
  lemma IntStored(i: int)
    ensures i >= 0 ==> PackInt(i).PosInt? && PackInt(i).n == i
    ensures i < 0 ==> PackInt(i).NegInt? && PackInt(i).i == i
  {
  }

  /** The members of a stored issuer. */
  lemma IssuerStored(i: Issuer)
    ensures var m := PackIssuer(i).entries;
            && Find(m, "issuerId") == Some(PackBytes(i.id)) && Find(m, "publicKey") == Some(PackBytes(i.publicKey))
            && Find(m, "issuer_key_x") == Some(PackBytes(i.publicKeyX))
            && Find(m, "endpoints").Some? && Find(m, "endpoints").value.Arr?
            && var e := Find(m, "endpoints").value.items;
               |e| == |i.endpoints| && forall k :: 0 <= k < |e| ==> e[k] == PackEndpoint(i.endpoints[k])
  {
    var m := PackIssuer(i).entries;
    FindAt(m, 0, "issuerId");
    FindAt(m, 1, "publicKey");
    FindAt(m, 2, "issuer_key_x");
    FindAt(m, 3, "endpoints");
  }

  /** The members of a stored reader identity. */
  lemma IdentityStored(s: Snapshot, order: seq<string>)
    requires forall k <- order :: k in s.labels
    ensures var m := PackAll(s, order).entries;
            && Find(m, "reader_private_key") == Some(PackBytes(s.identity.privateKey))
            && Find(m, "reader_public_key") == Some(PackBytes(s.identity.publicKey))
            && Find(m, "reader_key_x") == Some(PackBytes(s.identity.publicKeyX))
            && Find(m, "group_identifier") == Some(PackBytes(s.identity.groupIdentifier))
            && Find(m, "unique_identifier") == Some(PackBytes(s.identity.subIdentifier))
  {
    var m := PackAll(s, order).entries;
    FindAt(m, 0, "reader_private_key");
    FindAt(m, 1, "reader_public_key");
    FindAt(m, 2, "reader_key_x");
    FindAt(m, 3, "group_identifier");
    FindAt(m, 4, "unique_identifier");
  }

  /** A document that is no map, or misses a member, loads as a store without it. */
  lemma Defaults(o: Obj, d: Endpoint)
    ensures !o.Dict? ==> UnpackAll(o, d) == Snapshot(ReaderIdentity([], [], [], [], []), [], map[])
    ensures o == Dict([]) ==> UnpackAll(o, d) == Snapshot(ReaderIdentity([], [], [], [], []), [], map[])
    ensures !o.Dict? ==> UnpackIssuer(o, d) == Issuer([], [], [], []) && UnpackEndpoint(o, d) == d
  {
  }
}
