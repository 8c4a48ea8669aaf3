/** The plaintext header of a household backup: its printer, its parser, and the law joining them. */
module BackupHeader {
  import opened Bytes

  const ID_MAX: nat := 24
  const FIRMWARE_MAX: nat := 32
  const KEY_LEN: nat := 32
  const SALT_LEN: nat := 16
  const NONCE_LEN: nat := 24

  /** Bytes of a header whose three strings are empty. */
  const FIXED_LEN: nat := 82

  datatype BackupMeta = BackupMeta(
    formatVersion: uint8, householdId: bytes, nodeId: bytes, nodeRole: uint8, generation: uint8,
    timestamp: uint32, firmwareVersion: bytes, nodePublicKey: bytes)

  datatype Header = Header(meta: BackupMeta, salt: bytes, nonce: bytes)

  function Le32(v: uint32): bytes {
    [v % 256, v / 256 % 256, v / 256 / 256 % 256, v / 256 / 256 / 256]
  }

  function FromLe32(b: bytes): uint32
    requires |b| == 4
  {
    var b0: int, b1: int, b2: int, b3: int := b[0], b[1], b[2], b[3];
    b0 + 256 * b1 + 65536 * b2 + 16777216 * b3
  }

  /** What the printer keeps of each string. */
  function Capped(m: BackupMeta): BackupMeta {
    m.(householdId := Cut(m.householdId, ID_MAX), nodeId := Cut(m.nodeId, ID_MAX),
       firmwareVersion := Cut(m.firmwareVersion, FIRMWARE_MAX))
  }

  /** A header whose strings fit their length bytes and whose fixed parts have their sizes. */
  predicate Fits(h: Header) {
    && |h.meta.householdId| < 256 && |h.meta.nodeId| < 256 && |h.meta.firmwareVersion| < 256
    && |h.meta.nodePublicKey| == KEY_LEN && |h.salt| == SALT_LEN && |h.nonce| == NONCE_LEN
  }

  function Counted(s: bytes): bytes
    requires |s| < 256
  {
    [|s|] + s
  }

  /** Role, generation and timestamp. */
  function Stamp(m: BackupMeta): (wire: bytes)
    ensures |wire| == 6
  {
    [m.nodeRole, m.generation] + Le32(m.timestamp)
  }

  /** The wire layout, field by field. */
  function Layout(h: Header): (wire: bytes)
    requires Fits(h)
    ensures |wire| == FIXED_LEN + |h.meta.householdId| + |h.meta.nodeId| + |h.meta.firmwareVersion|
  {
    [h.meta.formatVersion] + Counted(h.meta.householdId) + Counted(h.meta.nodeId) + Stamp(h.meta)
    + Counted(h.meta.firmwareVersion) + Keys(h)
  }

  function Keys(h: Header): bytes {
    h.meta.nodePublicKey + h.salt + h.nonce
  }

  /** The reader's position in the data, as the parser's Cursor keeps it. */
  class Cursor {
    const data: bytes
    var p: nat
    var n: nat

    predicate Valid()
      reads this
    {
      p + n == |data|
    }

    constructor (data: bytes)
      ensures Valid() && this.data == data && p == 0
    {
      this.data, p, n := data, 0, |data|;
    }

    /** Takes exactly `len` bytes, or none at all when fewer are left. */
    method Take(len: nat) returns (ok: bool, out: bytes)
      requires Valid()
      modifies this
      ensures Valid()
      ensures ok <==> len <= old(n)
      ensures ok ==> p == old(p) + len && out == data[old(p)..p]
      ensures !ok ==> p == old(p) && out == []
    {
      if n < len {
        return false, [];
      }
      out := data[p..p + len];
      p, n := p + len, n - len;
      return true, out;
    }
  }

  /** A length byte, then that many bytes of the string. */
  method AppendCapped(buf: bytes, s: bytes, max: nat) returns (out: bytes)
    requires max < 256
    ensures out == buf + Counted(Cut(s, max))
  {
    var len := Min(|s|, max);
    out := buf + [len];
    out := out + s[..len];
  }

  method BuildHeaderPrefix(m: BackupMeta, salt: bytes, nonce: bytes) returns (buf: bytes)
    requires |m.nodePublicKey| >= KEY_LEN && |salt| >= SALT_LEN && |nonce| >= NONCE_LEN
    ensures buf == Layout(Printed(m, salt, nonce))
  {
    buf := [m.formatVersion];
    buf := AppendCapped(buf, m.householdId, ID_MAX);
    buf := AppendCapped(buf, m.nodeId, ID_MAX);
    ghost var ids := buf;
    buf := buf + [m.nodeRole];
    buf := buf + [m.generation];
    buf := buf + Le32(m.timestamp);
    assert buf == ids + Stamp(m);
    buf := AppendCapped(buf, m.firmwareVersion, FIRMWARE_MAX);
    ghost var strings := buf;
    buf := buf + m.nodePublicKey[..KEY_LEN];
    buf := buf + salt[..SALT_LEN];
    buf := buf + nonce[..NONCE_LEN];
    assert buf == strings + Keys(Printed(m, salt, nonce));
  }

  /** The header the printer writes for these arguments. */
  function Printed(m: BackupMeta, salt: bytes, nonce: bytes): (h: Header)
    requires |m.nodePublicKey| >= KEY_LEN && |salt| >= SALT_LEN && |nonce| >= NONCE_LEN
    ensures Fits(h)
  {
    Header(Capped(m).(nodePublicKey := m.nodePublicKey[..KEY_LEN]), salt[..SALT_LEN], nonce[..NONCE_LEN])
  }

  /** The data starts with a complete header. */
  predicate StartsWith(data: bytes, h: Header) {
    Fits(h) && Layout(h) <= data
  }

  /** A string behind its length byte, and what follows it. */
  function TakeCounted(d: bytes): Option<(bytes, bytes)> {
    if |d| < 1 || |d| < 1 + d[0] as int then None
    else var len: int := d[0]; Some((d[1..1 + len], d[1 + len..]))
  }

  /** Public key, salt and nonce from the bytes after the strings. */
  function ParseKeys(t: bytes): Option<(bytes, bytes, bytes)> {
    if |t| < KEY_LEN + SALT_LEN + NONCE_LEN then None
    else Some((t[..KEY_LEN], t[KEY_LEN..KEY_LEN + SALT_LEN], t[KEY_LEN + SALT_LEN..KEY_LEN + SALT_LEN + NONCE_LEN]))
  }

  /** The version and the two ids, and what follows them. */
  function ParseIds(d: bytes): Option<(uint8, bytes, bytes, bytes)> {
    if |d| < 1 then None else
    var id := TakeCounted(d[1..]);
    if id.None? then None else
    var nodeId := TakeCounted(id.value.1);
    if nodeId.None? then None else Some((d[0], id.value.0, nodeId.value.0, nodeId.value.1))
  }

  /** The firmware string behind the stamp, and what follows it. */
  function ParseFirmware(r: bytes): Option<(bytes, bytes)> {
    if |r| < 6 then None else TakeCounted(r[6..])
  }

  /** The parse as a function of the data. */
  function Parse(d: bytes): Option<Header> {
    var ids := ParseIds(d);
    if ids.None? then None else
    var r := ids.value.3;
    var fw := ParseFirmware(r);
    if fw.None? then None else
    var keys := ParseKeys(fw.value.1);
    if keys.None? then None else
    Some(Header(
      BackupMeta(ids.value.0, ids.value.1, ids.value.2, r[0], r[1], FromLe32(r[2..6]), fw.value.0, keys.value.0),
      keys.value.1, keys.value.2))
  }

  lemma Le32RoundTrip(v: uint32)
    ensures FromLe32(Le32(v)) == v
  {
  }

  lemma Le32Inverse(b: bytes)
    requires |b| == 4
    ensures Le32(FromLe32(b)) == b
  {
    var b0: int, b1: int, b2: int, b3: int := b[0], b[1], b[2], b[3];
    var v: int := FromLe32(b);
    assert v == b0 + 256 * (b1 + 256 * (b2 + 256 * b3));
    assert v / 256 == b1 + 256 * (b2 + 256 * b3);
    assert v / 256 / 256 == b2 + 256 * b3;
  }

  lemma TakeCountedOf(s: bytes, rest: bytes)
    requires |s| < 256
    ensures TakeCounted(Counted(s) + rest) == Some((s, rest))
  {
  }

  lemma TakeCountedInverse(d: bytes)
    requires TakeCounted(d).Some?
    ensures |TakeCounted(d).value.0| < 256
    ensures d == Counted(TakeCounted(d).value.0) + TakeCounted(d).value.1
  {
  }

  lemma StampFields(m: BackupMeta, rest: bytes)
    ensures var r := Stamp(m) + rest;
            r[0] == m.nodeRole && r[1] == m.generation && FromLe32(r[2..6]) == m.timestamp && r[6..] == rest
  {
  }

  lemma KeysFields(h: Header, rest: bytes)
    requires Fits(h)
    ensures ParseKeys(Keys(h) + rest) == Some((h.meta.nodePublicKey, h.salt, h.nonce))
  {
    var t := Keys(h) + rest;
    assert t[..KEY_LEN] == h.meta.nodePublicKey;
    assert t[KEY_LEN..KEY_LEN + SALT_LEN] == h.salt;
    assert t[KEY_LEN + SALT_LEN..KEY_LEN + SALT_LEN + NONCE_LEN] == h.nonce;
  }

  /** The layout regrouped from the right, the way the parser consumes it. */
  lemma Regroup(h: Header, rest: bytes)
    requires Fits(h)
    ensures var m := h.meta;
            (Layout(h) + rest)[1..] == Counted(m.householdId) + (Counted(m.nodeId)
                                       + (Stamp(m) + (Counted(m.firmwareVersion) + (Keys(h) + rest))))
    ensures (Layout(h) + rest)[0] == h.meta.formatVersion
  {
    var m := h.meta;
    var a, b, c, d, e := Counted(m.householdId), Counted(m.nodeId), Stamp(m), Counted(m.firmwareVersion), Keys(h);
    RegroupFive([m.formatVersion], a, b, c, d, e + rest);
    assert Layout(h) + rest == [m.formatVersion] + a + b + c + d + (e + rest);
  }

  lemma RegroupFive(v: bytes, a: bytes, b: bytes, c: bytes, d: bytes, e: bytes)
    ensures v + a + b + c + d + e == v + (a + (b + (c + (d + e))))
  {
  }

  /** Printing then parsing gives the header back, whatever follows it. */
  lemma ParseLayout(h: Header, rest: bytes)
    requires Fits(h)
    ensures Parse(Layout(h) + rest) == Some(h)
  {
    var m := h.meta;
    var t := Keys(h) + rest;
    var f := Counted(m.firmwareVersion) + t;
    Regroup(h, rest);
    ParseIdsOf(Layout(h) + rest, m, Stamp(m) + f);
    StampFields(m, f);
    TakeCountedOf(m.firmwareVersion, t);
    KeysFields(h, rest);
  }

  lemma ParseIdsOf(d: bytes, m: BackupMeta, r: bytes)
    requires |m.householdId| < 256 && |m.nodeId| < 256 && d != []
    requires d[1..] == Counted(m.householdId) + (Counted(m.nodeId) + r)
    ensures ParseIds(d) == Some((d[0], m.householdId, m.nodeId, r))
  {
  }

  lemma StampInverse(m: BackupMeta, r: bytes)
    requires |r| >= 6 && m.nodeRole == r[0] && m.generation == r[1] && m.timestamp == FromLe32(r[2..6])
    ensures r == Stamp(m) + r[6..]
  {
    Le32Inverse(r[2..6]);
    assert r == [r[0], r[1]] + r[2..6] + r[6..];
  }

  lemma KeysInverse(h: Header, t: bytes)
    requires ParseKeys(t) == Some((h.meta.nodePublicKey, h.salt, h.nonce))
    ensures t == Keys(h) + t[KEY_LEN + SALT_LEN + NONCE_LEN..]
  {
  }

  lemma ParseIdsInverse(d: bytes)
    requires ParseIds(d).Some?
    ensures var ids := ParseIds(d).value;
            && |ids.1| < 256 && |ids.2| < 256 && ids.0 == d[0]
            && d[1..] == Counted(ids.1) + (Counted(ids.2) + ids.3)
  {
  }

  /** Everything behind the ids. */
  lemma TailInverse(h: Header, r: bytes)
    requires ParseFirmware(r).Some? && ParseFirmware(r).value.0 == h.meta.firmwareVersion
    requires h.meta.nodeRole == r[0] && h.meta.generation == r[1] && h.meta.timestamp == FromLe32(r[2..6])
    requires ParseKeys(ParseFirmware(r).value.1) == Some((h.meta.nodePublicKey, h.salt, h.nonce))
    ensures |h.meta.firmwareVersion| < 256
    ensures r == Stamp(h.meta) + (Counted(h.meta.firmwareVersion)
                 + (Keys(h) + ParseFirmware(r).value.1[KEY_LEN + SALT_LEN + NONCE_LEN..]))
  {
    StampInverse(h.meta, r);
    TakeCountedInverse(r[6..]);
    KeysInverse(h, ParseFirmware(r).value.1);
  }

  /** Whatever parses was printed: its bytes are exactly the parsed header's layout. */
  lemma ParseInverse(d: bytes)
    requires Parse(d).Some?
    ensures StartsWith(d, Parse(d).value)
  {
    var h := Parse(d).value;
    var ids := ParseIds(d).value;
    var fw := ParseFirmware(ids.3).value;
    var rest := fw.1[KEY_LEN + SALT_LEN + NONCE_LEN..];
    ParseIdsInverse(d);
    TailInverse(h, ids.3);
    LayoutOfParts(d, h, ids.3, rest);
  }

  lemma LayoutOfParts(d: bytes, h: Header, r: bytes, rest: bytes)
    requires Fits(h) && d != [] && d[0] == h.meta.formatVersion
    requires d[1..] == Counted(h.meta.householdId) + (Counted(h.meta.nodeId) + r)
    requires r == Stamp(h.meta) + (Counted(h.meta.firmwareVersion) + (Keys(h) + rest))
    ensures d == Layout(h) + rest
  {
  }

  /** A header is recognised exactly when the data starts with one, and then it is that one. */
  lemma ParseIff(d: bytes, h: Header)
    ensures Parse(d) == Some(h) <==> StartsWith(d, h)
  {
    if StartsWith(d, h) {
      ParseLayout(h, d[|Layout(h)|..]);
      assert d == Layout(h) + d[|Layout(h)|..];
    }
    if Parse(d).Some? {
      ParseInverse(d);
    }
  }

  /**
   * The printed header parses back to the metadata with its strings cut, the same salt and nonce;
   * it is the metadata itself exactly when the strings were within their caps.
   */
  lemma HeaderRoundTrip(m: BackupMeta, salt: bytes, nonce: bytes, rest: bytes)
    requires |m.nodePublicKey| == KEY_LEN && |salt| == SALT_LEN && |nonce| == NONCE_LEN
    ensures Parse(Layout(Printed(m, salt, nonce)) + rest) == Some(Header(Capped(m), salt, nonce))
    ensures Capped(m) == m <==>
              |m.householdId| <= ID_MAX && |m.nodeId| <= ID_MAX && |m.firmwareVersion| <= FIRMWARE_MAX
  {
    ParseLayout(Printed(m, salt, nonce), rest);
    assert m.nodePublicKey[..KEY_LEN] == m.nodePublicKey;
    assert salt[..SALT_LEN] == salt && nonce[..NONCE_LEN] == nonce;
  }

  /** A length byte and that many bytes, off the cursor. */
  method TakeString(c: Cursor) returns (ok: bool, s: bytes)
    requires c.Valid()
    modifies c
    ensures c.Valid()
    ensures ok <==> TakeCounted(c.data[old(c.p)..]).Some?
    ensures ok ==> TakeCounted(c.data[old(c.p)..]) == Some((s, c.data[c.p..])) && c.p == old(c.p) + 1 + |s|
  {
    ghost var d := c.data[c.p..];
    var len;
    ok, len := c.Take(1);
    if !ok {
      return false, [];
    }
    ok, s := c.Take(len[0]);
    if ok {
      var k: int := len[0];
      assert d[1..1 + k] == s && d[1 + k..] == c.data[c.p..];
    }
  }

  /** Role, generation and timestamp, off the cursor. */
  method TakeStamp(c: Cursor) returns (ok: bool, role: uint8, generation: uint8, timestamp: uint32)
    requires c.Valid()
    modifies c
    ensures c.Valid()
    ensures ok ==> c.p == old(c.p) + 6
    ensures var r := c.data[old(c.p)..];
            && (ok <==> |r| >= 6)
            && (ok ==> role == r[0] && generation == r[1] && timestamp == FromLe32(r[2..6]) && c.data[c.p..] == r[6..])
  {
    role, generation, timestamp := 0, 0, 0;
    ghost var r := c.data[c.p..];
    var one, ts;
    ok, one := c.Take(1);
    if !ok { return; }
    role := one[0];
    ok, one := c.Take(1);
    if !ok { return; }
    generation := one[0];
    ok, ts := c.Take(4);
    if !ok { return; }
    assert r[2..6] == ts;
    timestamp := FromLe32(ts);
  }

  /** The three fixed-length tails, off the cursor. */
  method TakeKeys(c: Cursor) returns (ok: bool, key: bytes, salt: bytes, nonce: bytes)
    requires c.Valid()
    modifies c
    ensures c.Valid()
    ensures ok <==> ParseKeys(c.data[old(c.p)..]).Some?
    ensures ok ==> ParseKeys(c.data[old(c.p)..]) == Some((key, salt, nonce))
    ensures ok ==> c.p == old(c.p) + KEY_LEN + SALT_LEN + NONCE_LEN
  {
    key, salt, nonce := [], [], [];
    ghost var t := c.data[c.p..];
    ok, key := c.Take(KEY_LEN);
    if !ok { return; }
    ok, salt := c.Take(SALT_LEN);
    if !ok { return; }
    ok, nonce := c.Take(NONCE_LEN);
    if !ok { return; }
    assert t[..KEY_LEN] == key && t[KEY_LEN..KEY_LEN + SALT_LEN] == salt;
    assert t[KEY_LEN + SALT_LEN..KEY_LEN + SALT_LEN + NONCE_LEN] == nonce;
  }

  /** The version and the two ids, off the cursor. */
  method TakeIds(c: Cursor) returns (ok: bool, version: uint8, id: bytes, nodeId: bytes)
    requires c.Valid()
    modifies c
    ensures c.Valid()
    ensures ok <==> ParseIds(c.data[old(c.p)..]).Some?
    ensures ok ==> ParseIds(c.data[old(c.p)..]) == Some((version, id, nodeId, c.data[c.p..]))
    ensures ok ==> c.p == old(c.p) + 3 + |id| + |nodeId|
  {
    version, id, nodeId := 0, [], [];
    ghost var d := c.data[c.p..];
    var one;
    ok, one := c.Take(1);
    if !ok { return; }
    version := one[0];
    assert d[1..] == c.data[c.p..];
    ok, id := TakeString(c);
    if !ok { return; }
    ok, nodeId := TakeString(c);
  }

  /** The parser: it never reads past the data, and `headerLen` is the length of the layout. */
  method ParseHeaderPrefix(d: bytes) returns (ok: bool, h: Header, headerLen: nat)
    ensures ok <==> Parse(d).Some?
    ensures ok ==> Parse(d) == Some(h) && StartsWith(d, h) && headerLen == |Layout(h)|
  {
    h, headerLen := Header(BackupMeta(0, [], [], 0, 0, 0, [], []), [], []), 0;
    var c := new Cursor(d);
    assert d[0..] == d;
    var version, id, nodeId, role, generation, timestamp, firmware, key, salt, nonce;
    ok, version, id, nodeId := TakeIds(c);
    if !ok { return; }
    ok, role, generation, timestamp := TakeStamp(c);
    if !ok { return; }
    ok, firmware := TakeString(c);
    if !ok { return; }
    ok, key, salt, nonce := TakeKeys(c);
    if !ok { return; }
    h := Header(BackupMeta(version, id, nodeId, role, generation, timestamp, firmware, key), salt, nonce);
    headerLen := c.p;
    ParseInverse(d);
  }

  // ---- The bytes ----

  /** Where each field of a header stands: three counted strings, two bytes, a little-endian stamp, the fixed parts. */
  lemma HeaderLayout(h: Header)
    requires Fits(h)
    ensures var w, m := Layout(h), h.meta; var a, b, f := |m.householdId|, |m.nodeId|, |m.firmwareVersion|;
            && |w| == 82 + a + b + f && w[0] == m.formatVersion
            && (w[1] as int) == a && w[2..2 + a] == m.householdId
            && (w[2 + a] as int) == b && w[3 + a..3 + a + b] == m.nodeId
            && w[3 + a + b] == m.nodeRole && w[4 + a + b] == m.generation
            && (m.timestamp as int) == (w[5 + a + b] as int) + 256 * (w[6 + a + b] as int)
                                       + 65536 * (w[7 + a + b] as int) + 16777216 * (w[8 + a + b] as int)
            && (w[9 + a + b] as int) == f && w[10 + a + b..10 + a + b + f] == m.firmwareVersion
    ensures var w, m := Layout(h), h.meta; var at := 10 + |m.householdId| + |m.nodeId| + |m.firmwareVersion|;
            w[at..at + 32] == m.nodePublicKey && w[at + 32..at + 48] == h.salt && w[at + 48..] == h.nonce
  {
    var m := h.meta;
    var front := [m.formatVersion] + Counted(m.householdId) + Counted(m.nodeId);
    var stamp := front + Stamp(m);
    var text := stamp + Counted(m.firmwareVersion);
    Le32RoundTrip(m.timestamp);
    assert Layout(h) == text + Keys(h);
    assert stamp[|front| + 2..|front| + 6] == Le32(m.timestamp);
  }

  /** What the printer keeps: at most 24, 24 and 32 bytes of the strings, the rest as it is. */
  lemma HeaderCaps(m: BackupMeta)
    ensures var k := Capped(m);
            && k.householdId <= m.householdId && |k.householdId| == Min(|m.householdId|, 24)
            && k.nodeId <= m.nodeId && |k.nodeId| == Min(|m.nodeId|, 24)
            && k.firmwareVersion <= m.firmwareVersion && |k.firmwareVersion| == Min(|m.firmwareVersion|, 32)
            && (k.formatVersion, k.nodeRole, k.generation, k.timestamp, k.nodePublicKey)
               == (m.formatVersion, m.nodeRole, m.generation, m.timestamp, m.nodePublicKey)
  {
  }
}
