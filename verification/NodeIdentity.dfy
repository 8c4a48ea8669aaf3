/** Node identity: minting, regeneration and the replacement identity a restore creates. */
module NodeIdentity {
  import opened Bytes

  datatype NodeState = UNCONFIGURED | PROVISIONING | ACTIVE | REVOKED | RECOVERY_REQUIRED

  /** `role` is the enumerator's byte; a byte outside the enumeration is named like OTHER. */
  datatype Node = Node(
    id: bytes, name: bytes, role: uint8, state: NodeState, householdId: bytes,
    generation: uint8, publicKey: bytes, privateKey: bytes, fingerprint: bytes)

  datatype KeyPair = KeyPair(pk: bytes, sk: bytes)

  const BLANK_NODE: Node := Node([], [], 5, UNCONFIGURED, [], 0, [], [], [])

  function RolePrefix(role: uint8): string {
    match role
    case 0 => "GATE"
    case 1 => "HOUSE"
    case 2 => "SMALLHOUSE"
    case 3 => "GARAGE"
    case 4 => "WORKSHOP"
    case _ => "NODE"
  }

  /** A generation printed with {:03d}. */
  function Pad3(n: uint8): (text: bytes)
    ensures |text| == 3
  {
    [48 + n / 100, 48 + n / 10 % 10, 48 + n % 10]
  }

  function NodeId(role: uint8, generation: uint8): bytes {
    Ascii(RolePrefix(role)) + Ascii("-") + Pad3(generation)
  }

  predicate HasIdentity(n: Node) {
    n.id != [] && n.privateKey != []
  }

  function Stamp(sha: bytes -> bytes, n: Node): Node {
    n.(fingerprint := sha(n.id + n.publicKey))
  }

  /** The first identity of a device; refused when one exists. */
  function Generate(sha: bytes -> bytes, n: Node, role: uint8, name: bytes, keys: Option<KeyPair>): Option<Node> {
    if HasIdentity(n) || keys.None? then None
    else Some(Stamp(sha, n.(role := role, name := name, generation := 1, id := NodeId(role, 1),
                            publicKey := keys.value.pk, privateKey := keys.value.sk)))
  }

  /** The identity a restore creates; refused when the device has one. */
  function Replacement(sha: bytes -> bytes, n: Node, role: uint8, name: bytes, householdId: bytes,
                       oldGeneration: uint8, keys: Option<KeyPair>): Option<Node> {
    if HasIdentity(n) || keys.None? then None
    else
      var generation := ((oldGeneration as int) + 1) % 256;
      Some(Stamp(sha, n.(role := role, name := name, householdId := householdId, state := ACTIVE,
                         generation := generation, id := NodeId(role, generation),
                         publicKey := keys.value.pk, privateKey := keys.value.sk)))
  }

  /** Regeneration in place: the generation steps past both the stored and the given one. */
  function Regenerated(sha: bytes -> bytes, n: Node, oldGeneration: uint8, keys: Option<KeyPair>): Option<Node> {
    if !HasIdentity(n) || keys.None? then None
    else
      var seen: int := if oldGeneration > n.generation then oldGeneration else n.generation;
      var generation := (seen + 1) % 256;
      Some(Stamp(sha, n.(generation := generation, id := NodeId(n.role, generation),
                         publicKey := keys.value.pk, privateKey := keys.value.sk)))
  }

  lemma Pad3Injective(a: uint8, b: uint8)
    requires Pad3(a) == Pad3(b)
    ensures a == b
  {
  }

  /** The digits at the end of an id tell generations apart, whatever the role in front says. */
  lemma IdsDiffer(prefix: bytes, role: uint8, earlier: uint8, generation: uint8)
    requires earlier != generation
    ensures prefix + Ascii("-") + Pad3(earlier) != NodeId(role, generation)
  {
    var a, b := prefix + Ascii("-") + Pad3(earlier), NodeId(role, generation);
    if a == b {
      assert a[|a| - 3..] == Pad3(earlier) && b[|b| - 3..] == Pad3(generation);
      Pad3Injective(earlier, generation);
    }
  }

  /** The node signs with this pair, and its fingerprint covers its id and this public key. */
  predicate Holds(sha: bytes -> bytes, n: Node, keys: KeyPair) {
    n.publicKey == keys.pk && n.privateKey == keys.sk && n.fingerprint == sha(n.id + keys.pk)
  }

  /** Whichever way an identity is made, it holds the pair that was generated for it. */
  lemma NewIdentityHolds(sha: bytes -> bytes, n: Node, role: uint8, name: bytes, householdId: bytes, earlier: uint8, keys: KeyPair)
    ensures !HasIdentity(n) ==> Holds(sha, Generate(sha, n, role, name, Some(keys)).value, keys)
    ensures !HasIdentity(n) ==> Holds(sha, Replacement(sha, n, role, name, householdId, earlier, Some(keys)).value, keys)
    ensures HasIdentity(n) ==> Holds(sha, Regenerated(sha, n, earlier, Some(keys)).value, keys)
  {
  }

  /** A replacement is active in its household, one generation on, and named for its role and generation. */
  lemma ReplacementIs(sha: bytes -> bytes, n: Node, role: uint8, name: bytes, householdId: bytes, earlier: uint8, keys: Option<KeyPair>)
    ensures var r := Replacement(sha, n, role, name, householdId, earlier, keys);
            && (r.Some? <==> !(n.id != [] && n.privateKey != []) && keys.Some?)
            && (r.Some? ==> (r.value.role, r.value.name, r.value.householdId, r.value.state) == (role, name, householdId, ACTIVE)
                            && r.value.id == NodeId(role, r.value.generation)
                            && r.value.generation == if earlier == 255 then 0 else earlier + 1)
  {
  }

  /** A device's first identity: generation one of the given role and name, in no household yet. */
  lemma FirstIdentity(sha: bytes -> bytes, n: Node, role: uint8, name: bytes, keys: Option<KeyPair>)
    ensures var g := Generate(sha, n, role, name, keys);
            && (g.Some? <==> !(n.id != [] && n.privateKey != []) && keys.Some?)
            && (g.Some? ==> (g.value.role, g.value.name, g.value.generation) == (role, name, 1)
                            && (g.value.householdId, g.value.state) == (n.householdId, n.state)
                            && g.value.id == NodeId(role, 1))
  {
  }

  lemma ShownDigits()
    ensures Pad3(7) == Ascii("007") && Pad3(45) == Ascii("045") && Pad3(100) == Ascii("100") && Pad3(255) == Ascii("255")
  {
  }

  lemma ShownId(role: uint8, generation: uint8, word: string, digits: string)
    requires RolePrefix(role) == word && Pad3(generation) == Ascii(digits)
    ensures NodeId(role, generation) == Ascii(word + "-" + digits)
  {
  }

  /** Ids as they are shown: the role's word and three digits; an unknown role is a plain node. */
  lemma ShownIds(role: uint8)
    ensures NodeId(0, 7) == Ascii("GATE" + "-" + "007") && NodeId(1, 45) == Ascii("HOUSE" + "-" + "045")
    ensures NodeId(2, 255) == Ascii("SMALLHOUSE" + "-" + "255") && NodeId(3, 100) == Ascii("GARAGE" + "-" + "100")
    ensures NodeId(4, 7) == Ascii("WORKSHOP" + "-" + "007") && (role > 4 ==> NodeId(role, 45) == Ascii("NODE" + "-" + "045"))
  {
    ShownDigits();
    ShownId(0, 7, "GATE", "007");
    ShownId(1, 45, "HOUSE", "045");
    ShownId(2, 255, "SMALLHOUSE", "255");
    ShownId(3, 100, "GARAGE", "100");
    ShownId(4, 7, "WORKSHOP", "007");
    if role > 4 { ShownId(role, 45, "NODE", "045"); }
  }

  /**
   * "Never reuse the old id: strictly larger than any seen before" holds exactly while no
   * generation seen is 255; past that the byte wraps to 0.
   */
  lemma RegeneratedGrows(sha: bytes -> bytes, n: Node, oldGeneration: uint8, keys: Option<KeyPair>)
    requires Regenerated(sha, n, oldGeneration, keys).Some?
    ensures var r := Regenerated(sha, n, oldGeneration, keys).value;
            && (r.generation > n.generation && r.generation > oldGeneration <==> n.generation < 255 && oldGeneration < 255)
            && (r.id == NodeId(r.role, r.generation) && r.fingerprint == sha(r.id + r.publicKey))
            && (r.role, r.name, r.householdId, r.state) == (n.role, n.name, n.householdId, n.state)
  {
  }

  /** At generation 255 the next identity is generation 0, under the id that goes with it. */
  lemma GenerationWraps(sha: bytes -> bytes, n: Node, keys: KeyPair)
    requires HasIdentity(n) && n.generation == 255 && n.role == 0
    ensures var r := Regenerated(sha, n, 0, Some(keys)).value;
            r.generation == 0 && r.id == Ascii("GATE-000")
  {
    assert Ascii("GATE") + Ascii("-") + Pad3(0) == Ascii("GATE-000");
  }

  class NodeIdentityManager {
    const sha: bytes -> bytes
    var info: Node

    constructor (sha: bytes -> bytes, info: Node)
      ensures this.sha == sha && this.info == info
    {
      this.sha, this.info := sha, info;
    }

    method RecomputeFingerprint()
      modifies this
      ensures info == Stamp(sha, old(info))
    {
      info := info.(fingerprint := sha(info.id + info.publicKey));
    }

    /** `saved` is whether NVS took the record; RAM holds the new identity either way. */
    method CreateReplacementIdentity(role: uint8, name: bytes, householdId: bytes, oldGeneration: uint8,
                                     keys: Option<KeyPair>, saved: bool) returns (ok: bool)
      modifies this
      ensures var r := Replacement(sha, old(info), role, name, householdId, oldGeneration, keys);
              && ok == (r.Some? && saved)
              && info == if r.Some? then r.value else old(info)
    {
      if HasIdentity(info) || keys.None? {
        return false;
      }
      info := info.(role := role, name := name, householdId := householdId, state := ACTIVE);
      info := info.(generation := ((oldGeneration as int) + 1) % 256);
      info := info.(id := NodeId(role, info.generation));
      info := info.(publicKey := keys.value.pk, privateKey := keys.value.sk);
      RecomputeFingerprint();
      return saved;
    }

    method GenerateIdentity(role: uint8, name: bytes, keys: Option<KeyPair>, saved: bool) returns (ok: bool)
      modifies this
      ensures var r := Generate(sha, old(info), role, name, keys);
              && ok == (r.Some? && saved)
              && info == if r.Some? then r.value else old(info)
    {
      if HasIdentity(info) || keys.None? {
        return false;
      }
      info := info.(role := role, name := name, generation := 1, id := NodeId(role, 1));
      info := info.(publicKey := keys.value.pk, privateKey := keys.value.sk);
      RecomputeFingerprint();
      return saved;
    }

    method RegenerateIdentity(oldGeneration: uint8, keys: Option<KeyPair>, saved: bool) returns (ok: bool)
      modifies this
      ensures var r := Regenerated(sha, old(info), oldGeneration, keys);
              && ok == (r.Some? && saved)
              && info == if r.Some? then r.value else old(info)
    {
      if !HasIdentity(info) || keys.None? {
        return false;
      }
      var seen: int := if oldGeneration > info.generation then oldGeneration else info.generation;
      info := info.(generation := (seen + 1) % 256);
      info := info.(id := NodeId(info.role, info.generation));
      info := info.(publicKey := keys.value.pk, privateKey := keys.value.sk);
      RecomputeFingerprint();
      return saved;
    }
  }
}
