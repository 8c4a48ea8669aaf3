/** The credential store object: issuer changes in RAM, and the document it keeps in NVS. */
module NvsCredentials {
  import opened Bytes
  import opened CredentialCodec
  import opened CredentialStore

  method PackByteArray(b: bytes) returns (o: Obj)
    ensures o == PackBytes(b)
  {
    var items: seq<Obj> := [];
    for i := 0 to |b|
      invariant |items| == i && forall k :: 0 <= k < i ==> items[k] == PosInt(b[k])
    {
      items := items + [PosInt(b[i])];
    }
    o := Arr(items);
  }

  method PackIssuerObject(i: Issuer) returns (o: Obj)
    ensures o == PackIssuer(i)
  {
    var endpoints: seq<Obj> := [];
    for k := 0 to |i.endpoints|
      invariant |endpoints| == k && forall j :: 0 <= j < k ==> endpoints[j] == PackEndpoint(i.endpoints[j])
    {
      endpoints := endpoints + [PackEndpoint(i.endpoints[k])];
    }
    var id, key, keyX := PackBytes(i.id), PackBytes(i.publicKey), PackBytes(i.publicKeyX);
    assert endpoints == seq(|i.endpoints|, k requires 0 <= k < |i.endpoints| => PackEndpoint(i.endpoints[k]));
    o := Dict([(Str("issuerId"), id), (Str("publicKey"), key), (Str("issuer_key_x"), keyX), (Str("endpoints"), Arr(endpoints))]);
  }

  /** `order` is the order in which the label map is walked. */
  method PackStore(s: Snapshot, order: seq<string>) returns (o: Obj)
    requires forall k <- order :: k in s.labels
    ensures o == PackAll(s, order)
  {
    var sk := PackByteArray(s.identity.privateKey);
    var pk := PackByteArray(s.identity.publicKey);
    var kx := PackByteArray(s.identity.publicKeyX);
    var group := PackByteArray(s.identity.groupIdentifier);
    var sub := PackByteArray(s.identity.subIdentifier);
    var issuers: seq<Obj> := [];
    for i := 0 to |s.issuers|
      invariant |issuers| == i && forall j :: 0 <= j < i ==> issuers[j] == PackIssuer(s.issuers[j])
    {
      var packed := PackIssuerObject(s.issuers[i]);
      issuers := issuers + [packed];
    }
    var labels: seq<(Obj, Obj)> := [];
    for i := 0 to |order|
      invariant |labels| == i && forall j :: 0 <= j < i ==> labels[j] == (Str(order[j]), Str(s.labels[order[j]]))
    {
      labels := labels + [(Str(order[i]), Str(s.labels[order[i]]))];
    }
    assert labels == PackLabels(s.labels, order);
    assert issuers == seq(|s.issuers|, i requires 0 <= i < |s.issuers| => PackIssuer(s.issuers[i]));
    o := Dict([
      (Str("reader_private_key"), sk), (Str("reader_public_key"), pk), (Str("reader_key_x"), kx),
      (Str("group_identifier"), group), (Str("unique_identifier"), sub),
      (Str("issuers"), Arr(issuers)), (Str("issuer_labels"), Dict(labels))]);
  }

  /** The map finds what the entry list holds. */
  ghost predicate Agrees(m: map<string, Obj>, entries: seq<(Obj, Obj)>) {
    forall key :: Find(entries, key) == if key in m then Some(m[key]) else None
  }

  /** String keys of a dictionary; a later entry replaces an earlier one. */
  method ToMap(entries: seq<(Obj, Obj)>) returns (m: map<string, Obj>)
    ensures Agrees(m, entries)
  {
    m := map[];
    for i := 0 to |entries|
      invariant Agrees(m, entries[..i])
    {
      assert entries[..i + 1][..i] == entries[..i];
      if entries[i].0.Str? {
        m := m[entries[i].0.text := entries[i].1];
      }
    }
    assert entries[..|entries|] == entries;
  }

  method UnpackByteArray(m: map<string, Obj>, ghost entries: seq<(Obj, Obj)>, key: string, absent: bytes) returns (out: bytes)
    requires Agrees(m, entries)
    ensures out == UnpackBytes(entries, key, absent)
  {
    if key !in m || !m[key].Arr? {
      return absent;
    }
    out := [];
    for i := 0 to |m[key].items|
      invariant |out| == i && forall k :: 0 <= k < i ==> out[k] == ByteOf(m[key].items[k])
    {
      out := out + [ByteOf(m[key].items[i])];
    }
  }

  method UnpackIssuerObject(o: Obj, d: Endpoint) returns (issuer: Issuer)
    ensures issuer == UnpackIssuer(o, d)
  {
    issuer := Issuer([], [], [], []);
    if !o.Dict? {
      return;
    }
    var m := ToMap(o.entries);
    var id := UnpackByteArray(m, o.entries, "issuerId", []);
    var key := UnpackByteArray(m, o.entries, "publicKey", []);
    var keyX := UnpackByteArray(m, o.entries, "issuer_key_x", []);
    var endpoints: seq<Endpoint> := [];
    if "endpoints" in m && m["endpoints"].Arr? {
      endpoints := UnpackEndpointList(m["endpoints"].items, d);
    }
    issuer := Issuer(id, key, keyX, endpoints);
  }

  method UnpackEndpointList(items: seq<Obj>, d: Endpoint) returns (endpoints: seq<Endpoint>)
    ensures endpoints == seq(|items|, k requires 0 <= k < |items| => UnpackEndpoint(items[k], d))
  {
    endpoints := [];
    for i := 0 to |items|
      invariant |endpoints| == i && forall k :: 0 <= k < i ==> endpoints[k] == UnpackEndpoint(items[k], d)
    {
      endpoints := endpoints + [UnpackEndpoint(items[i], d)];
    }
  }

  method UnpackLabelEntries(entries: seq<(Obj, Obj)>) returns (labels: map<string, string>)
    ensures labels == UnpackLabels(entries)
  {
    labels := map[];
    for i := 0 to |entries|
      invariant labels == UnpackLabels(entries[..i])
    {
      assert entries[..i + 1][..i] == entries[..i];
      if entries[i].0.Str? && entries[i].1.Str? {
        labels := labels[entries[i].0.text := entries[i].1.text];
      }
    }
    assert entries[..|entries|] == entries;
  }

  method UnpackIssuerList(items: seq<Obj>, d: Endpoint) returns (issuers: seq<Issuer>)
    ensures issuers == seq(|items|, k requires 0 <= k < |items| => UnpackIssuer(items[k], d))
  {
    issuers := [];
    for i := 0 to |items|
      invariant |issuers| == i && forall k :: 0 <= k < i ==> issuers[k] == UnpackIssuer(items[k], d)
    {
      var issuer := UnpackIssuerObject(items[i], d);
      issuers := issuers + [issuer];
    }
  }

  method UnpackIssuers(m: map<string, Obj>, ghost entries: seq<(Obj, Obj)>, d: Endpoint) returns (issuers: seq<Issuer>)
    requires Agrees(m, entries)
    ensures issuers == UnpackIssuersOf(Find(entries, "issuers"), d)
  {
    issuers := [];
    if "issuers" in m && m["issuers"].Arr? {
      issuers := UnpackIssuerList(m["issuers"].items, d);
    }
  }

  method UnpackLabelMap(m: map<string, Obj>, ghost entries: seq<(Obj, Obj)>) returns (labels: map<string, string>)
    requires Agrees(m, entries)
    ensures labels == UnpackLabelsOf(Find(entries, "issuer_labels"))
  {
    labels := map[];
    if "issuer_labels" in m && m["issuer_labels"].Dict? {
      labels := UnpackLabelEntries(m["issuer_labels"].entries);
    }
  }

  method UnpackIdentity(m: map<string, Obj>, ghost entries: seq<(Obj, Obj)>) returns (identity: ReaderIdentity)
    requires Agrees(m, entries)
    ensures identity == UnpackIdentityOf(entries)
  {
    var sk := UnpackByteArray(m, entries, "reader_private_key", []);
    var pk := UnpackByteArray(m, entries, "reader_public_key", []);
    var kx := UnpackByteArray(m, entries, "reader_key_x", []);
    var group := UnpackByteArray(m, entries, "group_identifier", []);
    var sub := UnpackByteArray(m, entries, "unique_identifier", []);
    identity := ReaderIdentity(sk, pk, kx, group, sub);
  }

  method UnpackStore(o: Obj, d: Endpoint) returns (s: Snapshot)
    ensures s == UnpackAll(o, d)
  {
    if !o.Dict? {
      return FRESH;
    }
    var m := ToMap(o.entries);
    var identity := UnpackIdentity(m, o.entries);
    var issuers := UnpackIssuers(m, o.entries, d);
    var labels := UnpackLabelMap(m, o.entries);
    s := Snapshot(identity, issuers, labels);
  }

  class NvsCredentialStore {
    var identity: ReaderIdentity
    var issuers: seq<Issuer>
    var labels: map<string, string>
    var stored: Option<Obj>

    function State(): Snapshot
      reads this
    {
      Snapshot(identity, issuers, labels)
    }

    constructor (s: Snapshot)
      ensures State() == s && stored == None
    {
      identity, issuers, labels, stored := s.identity, s.issuers, s.labels, None;
    }

    /** Packs a snapshot and hands it to NVS; `written` is whether NVS took the blob. */
    method SaveStore(order: seq<string>, written: bool)
      requires Walks(order, labels)
      modifies this`stored
      ensures stored == if written then Some(PackAll(State(), order)) else old(stored)
    {
      var o := PackStore(Snapshot(identity, issuers, labels), order);
      if written {
        stored := Some(o);
      }
    }

    /**
     * RAM from NVS; a store never written starts empty, and one that cannot be read or parsed leaves
     * RAM as it is.
     */
    method LoadStore(d: Endpoint, readable: bool)
      modifies this
      ensures stored == old(stored)
      ensures State() == if !readable then old(State()) else if stored.None? then FRESH else UnpackAll(stored.value, d)
    {
      if !readable {
        return;
      }
      var s := FRESH;
      if stored.Some? {
        s := UnpackStore(stored.value, d);
      }
      identity, issuers, labels := s.identity, s.issuers, s.labels;
    }

    /** RAM is cleared first; `erased` is whether NVS then dropped the blob. */
    method DeleteAllReaderData(erased: bool)
      modifies this
      ensures State() == FRESH
      ensures stored == if erased then None else old(stored)
    {
      identity, issuers, labels := FRESH.identity, [], map[];
      if erased {
        stored := None;
      }
    }

    method AddIssuerIfNotExists(id: bytes, publicKey: bytes) returns (added: bool)
      requires |publicKey| >= 32
      modifies this`issuers
      ensures added <==> !Has(old(issuers), id)
      ensures issuers == AddIssuer(old(issuers), id, publicKey)
      ensures if added then |issuers| == |old(issuers)| + 1 else issuers == old(issuers)
    {
      for i := 0 to |issuers|
        invariant issuers == old(issuers)
        invariant forall j :: 0 <= j < i ==> issuers[j].id != id
      {
        if issuers[i].id == id {
          return false;
        }
      }
      issuers := issuers + [Issuer(id, publicKey[..32], [], [])];
      return true;
    }

    /** The issuer's label goes with it. */
    method RemoveIssuerIfExists(id: bytes) returns (removed: bool)
      modifies this`issuers, this`labels
      ensures removed <==> Has(old(issuers), id)
      ensures |issuers| == |old(issuers)| - if removed then 1 else 0
      ensures State() == RemoveIssuer(old(State()), id)
    {
      var i := 0;
      while i < |issuers| && issuers[i].id != id
        invariant 0 <= i <= |issuers|
        invariant forall j :: 0 <= j < i ==> issuers[j].id != id
      {
        i := i + 1;
      }
      if i == |issuers| {
        return false;
      }
      labels := labels - {LabelKey(id)};
      issuers := issuers[..i] + issuers[i + 1..];
      return true;
    }
  }
}
