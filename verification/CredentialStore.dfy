/** The credential store's contents: reader identity, enrolled issuers and the names given to them. */
module CredentialStore {
  import opened Bytes
  import Hex

  datatype Endpoint = Endpoint(
    id: bytes, usedAt: uint32, counter: int, keyType: int,
    publicKey: bytes, publicKeyX: bytes, persistentKey: bytes)

  datatype Issuer = Issuer(id: bytes, publicKey: bytes, publicKeyX: bytes, endpoints: seq<Endpoint>)

  datatype ReaderIdentity = ReaderIdentity(
    privateKey: bytes, publicKey: bytes, publicKeyX: bytes, groupIdentifier: bytes, subIdentifier: bytes)

  datatype Snapshot = Snapshot(identity: ReaderIdentity, issuers: seq<Issuer>, labels: map<string, string>)

  /** Index of the first issuer with this id, or the number of issuers. */
  function IndexOf(issuers: seq<Issuer>, id: bytes): (i: nat)
    ensures i <= |issuers|
    ensures i < |issuers| ==> issuers[i].id == id
    ensures forall j :: 0 <= j < i ==> issuers[j].id != id
  {
    if issuers == [] || issuers[0].id == id then 0 else 1 + IndexOf(issuers[1..], id)
  }

  predicate Has(issuers: seq<Issuer>, id: bytes) {
    IndexOf(issuers, id) < |issuers|
  }

  function Ids(issuers: seq<Issuer>): (ids: seq<bytes>)
    ensures |ids| == |issuers|
    ensures forall i :: 0 <= i < |ids| ==> ids[i] == issuers[i].id
  {
    seq(|issuers|, i requires 0 <= i < |issuers| => issuers[i].id)
  }

  predicate UniqueIds(issuers: seq<Issuer>) {
    forall i, j :: 0 <= i < j < |issuers| ==> issuers[i].id != issuers[j].id
  }

  function Chars(text: bytes): (s: string)
    ensures |s| == |text| && forall i :: 0 <= i < |text| ==> s[i] as int == text[i]
  {
    seq(|text|, i requires 0 <= i < |text| => (text[i] as int) as char)
  }

  function LabelKey(id: bytes): string {
    Chars(Hex.Encode(id, Hex.UPPER))
  }

  /** Two issuers never share a label key. */
  lemma LabelKeyInjective(a: bytes, b: bytes)
    ensures LabelKey(a) == LabelKey(b) <==> a == b
  {
    Hex.RoundTrip(a, Hex.UPPER);
    Hex.RoundTrip(b, Hex.UPPER);
    var x, y := Hex.Encode(a, Hex.UPPER), Hex.Encode(b, Hex.UPPER);
    if Chars(x) == Chars(y) {
      assert forall i :: 0 <= i < |x| ==> x[i] == Chars(x)[i] as int && y[i] == Chars(y)[i] as int;
      assert x == y;
    }
  }

  function AddIssuer(issuers: seq<Issuer>, id: bytes, publicKey: bytes): seq<Issuer>
    requires |publicKey| >= 32
  {
    if Has(issuers, id) then issuers else issuers + [Issuer(id, publicKey[..32], [], [])]
  }

  function RemoveIssuer(s: Snapshot, id: bytes): Snapshot {
    var i := IndexOf(s.issuers, id);
    if i == |s.issuers| then s
    else s.(issuers := s.issuers[..i] + s.issuers[i + 1..], labels := s.labels - {LabelKey(id)})
  }

  lemma AddKeepsUnique(issuers: seq<Issuer>, id: bytes, publicKey: bytes)
    requires UniqueIds(issuers) && |publicKey| >= 32
    ensures UniqueIds(AddIssuer(issuers, id, publicKey))
    ensures Has(AddIssuer(issuers, id, publicKey), id)
  {
    var out := AddIssuer(issuers, id, publicKey);
    if !Has(issuers, id) {
      assert out[|issuers|].id == id;
    }
  }
}
