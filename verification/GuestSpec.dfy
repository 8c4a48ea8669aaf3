/** Guest cards: the stored records, the table operations, the card payload and its verification. */
module GuestSpec {
  import opened Bytes
  import opened JsonTree
  import Aead
  import Hex

  const MAX_TAGS: nat := 16
  const LABEL_LEN: nat := 16
  const UID_MAX: nat := 10
  const TOKEN_LEN: nat := 16
  const PAYLOAD_LEN: nat := 80
  const PLAINTEXT_LEN: nat := 32
  const CARD_FORMAT: uint8 := 1
  const BLOB_VERSION: uint8 := 1

  /** Ten years, the ceiling on the default validity. */
  const VALIDITY_CAP: uint32 := 315360000

  datatype RawRecord = RawRecord(
    tagRaw: bytes, uidLen: uint8, enabled: uint8, token: bytes, uid: bytes,
    validFrom: uint32, validUntil: uint32, createdAt: uint32, lastUsedAt: uint32, useCount: uint32, cardLabel: bytes)

  /** The packed record: every byte field has its fixed size. */
  predicate Sized(r: RawRecord) {
    && |r.tagRaw| == 4 && |r.token| == TOKEN_LEN && |r.uid| == UID_MAX && |r.cardLabel| == LABEL_LEN
    && r.uidLen <= UID_MAX
  }

  function Zeros(n: nat): (z: bytes)
    ensures |z| == n
  {
    seq(n, _ => 0)
  }

  const ZERO_RAW: RawRecord :=
    RawRecord([0, 0, 0, 0], 0, 0, [0, 0, 0, 0, 0, 0, 0, 0, 0, 0, 0, 0, 0, 0, 0, 0], [0, 0, 0, 0, 0, 0, 0, 0, 0, 0],
              0, 0, 0, 0, 0, [0, 0, 0, 0, 0, 0, 0, 0, 0, 0, 0, 0, 0, 0, 0, 0])

  type Record = r: RawRecord | Sized(r) witness ZERO_RAW

  const ZERO: Record := ZERO_RAW

  /** The table in RAM. */
  datatype Table = Table(globalEnabled: bool, defaultValidity: uint32, tags: seq<Record>)

  /** The NVS blob: its header, and as many whole record slots as it has room for. */
  datatype Blob = Blob(version: uint8, count: uint8, enabledByte: uint8, defaultValidity: uint32, slots: seq<Record>)

  /** `published` counts announcements of a local change. */
  datatype Guest = Guest(table: Table, stored: Option<Blob>, published: nat)

  /** Whether nvs_set_blob and nvs_commit succeed; a set that succeeds is on flash. */
  datatype SaveLuck = SaveLuck(setOk: bool, commitOk: bool)

  predicate Saved(luck: SaveLuck) {
    luck.setOk && luck.commitOk
  }

  const EMPTY: Table := Table(false, 0, [])

  // ---- Lookup ----

  predicate IsCard(r: Record, uid: bytes) {
    (r.uidLen as int) == |uid| && r.uid[..r.uidLen] == uid
  }

  /** The first record that satisfies the test, or the number of records. */
  function First(tags: seq<Record>, test: Record -> bool): (i: nat)
    ensures i <= |tags|
    ensures i < |tags| ==> test(tags[i])
    ensures forall j :: 0 <= j < i ==> !test(tags[j])
  {
    if tags == [] || test(tags[0]) then 0 else 1 + First(tags[1..], test)
  }

  /** No card has an empty UID or one longer than ten bytes. */
  function ByUid(tags: seq<Record>, uid: bytes): (i: nat)
    ensures i <= |tags| && (i < |tags| ==> IsCard(tags[i], uid) && 0 < |uid| <= UID_MAX)
    ensures 0 < |uid| <= UID_MAX ==> forall j :: 0 <= j < i ==> !IsCard(tags[j], uid)
  {
    if uid == [] || |uid| > UID_MAX then |tags| else First(tags, (r: Record) => IsCard(r, uid))
  }

  function ByTag(tags: seq<Record>, raw: bytes): (i: nat)
    ensures i <= |tags| && (i < |tags| ==> tags[i].tagRaw == raw)
    ensures forall j :: 0 <= j < i ==> tags[j].tagRaw != raw
  {
    First(tags, (r: Record) => r.tagRaw == raw)
  }

  function Without(tags: seq<Record>, i: nat): seq<Record>
    requires i < |tags|
  {
    tags[..i] + tags[i + 1..]
  }

  /** commitTag's slot: the card already taught, for a record that is bound to one. */
  function SlotOf(tags: seq<Record>, rec: Record): nat {
    if rec.uidLen == 0 then |tags| else ByUid(tags, rec.uid[..rec.uidLen])
  }

  // ---- Persistence ----

  function Padded(tags: seq<Record>): seq<Record>
    requires |tags| <= MAX_TAGS
  {
    tags + seq(MAX_TAGS - |tags|, _ => ZERO)
  }

  function BlobOf(t: Table): Blob
    requires |t.tags| <= MAX_TAGS
  {
    Blob(BLOB_VERSION, |t.tags|, if t.globalEnabled then 1 else 0, t.defaultValidity, Padded(t.tags))
  }

  /** Boot: a missing or unknown blob leaves the table empty. */
  function Load(stored: Option<Blob>): Table {
    if stored.None? || stored.value.version != BLOB_VERSION then EMPTY
    else
      var b := stored.value;
      Table(b.enabledByte != 0, b.defaultValidity, b.slots[..Min(Min(b.count, MAX_TAGS), |b.slots|)])
  }

  function Save(g: Guest, luck: SaveLuck): Guest
    requires |g.table.tags| <= MAX_TAGS
  {
    if luck.setOk then g.(stored := Some(BlobOf(g.table))) else g
  }

  // ---- Table operations: the new state and what the call returns ----

  function Put(g: Guest, i: nat, rec: Record, luck: SaveLuck): (Guest, bool)
    requires i < |g.table.tags| <= MAX_TAGS
  {
    (Save(g.(table := g.table.(tags := g.table.tags[i := rec])), luck), Saved(luck))
  }

  /** An append whose save fails is taken back from RAM; flash keeps whatever the set wrote. */
  function Append(g: Guest, rec: Record, luck: SaveLuck, announce: bool): (Guest, bool)
    requires |g.table.tags| < MAX_TAGS
  {
    var appended := Save(g.(table := g.table.(tags := g.table.tags + [rec])), luck);
    if Saved(luck) then (appended.(published := g.published + if announce then 1 else 0), true)
    else (appended.(table := g.table), false)
  }

  function Commit(g: Guest, rec: Record, luck: SaveLuck): (Guest, bool)
    requires |g.table.tags| <= MAX_TAGS
  {
    var i := SlotOf(g.table.tags, rec);
    if i < |g.table.tags| then Put(g, i, rec, luck)
    else if |g.table.tags| >= MAX_TAGS then (g, false)
    else Append(g, rec, luck, true)
  }

  function Import(g: Guest, rec: Record, luck: SaveLuck): (Guest, bool)
    requires |g.table.tags| <= MAX_TAGS
  {
    var i := ByTag(g.table.tags, rec.tagRaw);
    if i < |g.table.tags| then Put(g, i, rec, luck)
    else if |g.table.tags| >= MAX_TAGS then (g, false)
    else Append(g, rec, luck, false)
  }

  /** A revocation is not taken back when its save fails; it is announced only when it succeeds. */
  function Revoke(g: Guest, raw: bytes, luck: SaveLuck): (Guest, bool)
    requires |g.table.tags| <= MAX_TAGS
  {
    var tags := g.table.tags;
    var i := ByTag(tags, raw);
    if i >= |tags| then (g, false)
    else
      var g' := Save(g.(table := g.table.(tags := Without(tags, i))), luck);
      (if Saved(luck) then g'.(published := g.published + 1) else g', Saved(luck))
  }

  function SetTagEnabled(g: Guest, raw: bytes, enabled: bool, luck: SaveLuck): (Guest, bool)
    requires |g.table.tags| <= MAX_TAGS
  {
    var i := ByTag(g.table.tags, raw);
    if i >= |g.table.tags| then (g, false)
    else Put(g, i, g.table.tags[i].(enabled := if enabled then 1 else 0), luck)
  }

  function SetGlobal(g: Guest, enabled: bool, luck: SaveLuck): (Guest, bool)
    requires |g.table.tags| <= MAX_TAGS
  {
    var g' := Save(g.(table := g.table.(globalEnabled := enabled)), luck);
    (if Saved(luck) then g'.(published := g.published + 1) else g', Saved(luck))
  }

  function SetDefault(g: Guest, seconds: uint32, luck: SaveLuck): (Guest, bool)
    requires |g.table.tags| <= MAX_TAGS
  {
    var g' := Save(g.(table := g.table.(defaultValidity := if seconds < VALIDITY_CAP then seconds else VALIDITY_CAP)), luck);
    (if Saved(luck) then g'.(published := g.published + 1) else g', Saved(luck))
  }

  function MarkUsed(g: Guest, raw: bytes, now: uint32, luck: SaveLuck): Guest
    requires |g.table.tags| <= MAX_TAGS
  {
    var i := ByTag(g.table.tags, raw);
    if i >= |g.table.tags| then g
    else
      var r := g.table.tags[i];
      Put(g, i, r.(lastUsedAt := now, useCount := ((r.useCount as int) + 1) % 0x1_0000_0000), luck).0
  }

  function Boot(g: Guest): Guest {
    g.(table := Load(g.stored))
  }

  // ---- Minting ----

  /** snprintf of a C string into a field of `size` bytes: cut to leave a NUL, padded with NULs. */
  function CString(s: bytes, size: nat): (field: bytes)
    requires size > 0
    ensures |field| == size
  {
    var kept := Cut(UntilNul(s), size - 1);
    kept + Zeros(size - |kept|)
  }

  function UntilNul(s: bytes): bytes {
    if s == [] || s[0] == 0 then [] else [s[0]] + UntilNul(s[1..])
  }

  /** The window a mint gives a record when the caller asked for none; `now` 0 means no clock. */
  function Window(t: Table, from: uint32, until: uint32, now: uint32): (uint32, uint32) {
    if from == 0 && until == 0 && t.defaultValidity > 0 && now > 0
    then (now, ((now as int) + (t.defaultValidity as int)) % 0x1_0000_0000)
    else (from, until)
  }

  function Mint(t: Table, name: bytes, from: uint32, until: uint32, now: uint32, raw: bytes, token: bytes): Option<Record>
    requires |raw| == 4 && |token| == TOKEN_LEN
  {
    if |t.tags| >= MAX_TAGS then None
    else
      var w := Window(t, from, until, now);
      var r: Record := RawRecord(raw, 0, 1, token, ZERO.uid, w.0, w.1, now, 0, 0, CString(name, LABEL_LEN));
      Some(r)
  }

  // ---- The card payload ----

  /** The AEAD and the derivation of a card key from a record's token. */
  datatype CardCrypto = CardCrypto(aead: Aead.Cipher, cardKey: bytes -> bytes)

  function Le32(v: uint32): bytes {
    [v % 256, v / 256 % 256, v / 256 / 256 % 256, v / 256 / 256 / 256]
  }

  function Plaintext(r: Record): (pt: bytes)
    ensures |pt| == PLAINTEXT_LEN && pt[..4] == r.tagRaw
  {
    r.tagRaw + ([1, 0, 0, 0] + Le32(r.validFrom) + Le32(r.validUntil) + CString(r.cardLabel, LABEL_LEN))
  }

  /** magic "HKG1", format, a reserved byte, the nonce, the sealed plaintext, two bytes of padding. */
  function Payload(c: CardCrypto, r: Record, uid: bytes, nonce: bytes): bytes {
    [72, 75, 71, 49, CARD_FORMAT, 0] + nonce + c.aead.seal(c.cardKey(r.token), nonce, uid, Plaintext(r)) + [0, 0]
  }

  /** A UID of no or more than ten bytes has no payload. */
  function Build(c: CardCrypto, r: Record, uid: bytes, nonce: bytes): Option<bytes> {
    if uid == [] || |uid| > UID_MAX then None else Some(Payload(c, r, uid, nonce))
  }

  predicate Framed(payload: bytes) {
    |payload| == PAYLOAD_LEN && payload[..4] == [72, 75, 71, 49] && payload[4] == CARD_FORMAT
  }

  function Sealed(payload: bytes): bytes
    requires |payload| == PAYLOAD_LEN
  {
    payload[30..78]
  }

  /** The payload opens under the record's token and this UID, and names the record. */
  predicate Parses(c: CardCrypto, payload: bytes, uid: bytes, r: Record) {
    && Framed(payload)
    && var pt := c.aead.open(c.cardKey(r.token), payload[6..30], uid, Sealed(payload));
       pt.Some? && |pt.value| == PLAINTEXT_LEN && pt.value[..4] == r.tagRaw
  }

  datatype Verdict = Accepted | NoRecord | Disabled | NotYetValid | Expired | BadPayload | NoClock

  /** The verdict on a tap of the card this record is bound to. */
  function Judge(c: CardCrypto, globalEnabled: bool, r: Record, uid: bytes, payload: bytes, now: uint32): Verdict {
    if !globalEnabled || r.enabled == 0 then Disabled
    else if !Parses(c, payload, uid, r) then BadPayload
    else if r.validFrom != 0 || r.validUntil != 0 then
      if now == 0 then NoClock
      else if r.validFrom != 0 && now < r.validFrom then NotYetValid
      else if r.validUntil != 0 && now > r.validUntil then Expired
      else Accepted
    else Accepted
  }

  function Verify(c: CardCrypto, t: Table, uid: bytes, payload: bytes, now: uint32): Verdict {
    var i := ByUid(t.tags, uid);
    if i >= |t.tags| then NoRecord else Judge(c, t.globalEnabled, t.tags[i], uid, payload, now)
  }

  // ---- The household sync document ----

  function TagIdFromHex(text: bytes): Option<bytes> {
    if |text| == 8 && Hex.IsHex(text) then Some(Hex.Decode(text)) else None
  }

  /** uidFromHex: at least one byte and at most `cap` bytes of hex. The firmware has one cap, UID_MAX. */
  function BytesFromHex(text: bytes, cap: nat): (b: Option<bytes>)
    ensures b.Some? ==> 0 < |b.value| <= cap
  {
    if text == [] || |text| > 2 * cap || !Hex.IsHex(text) then None else Some(Hex.Decode(text))
  }

  function RecordToJson(r: Record): Json {
    Object([
      ("tag_id", Text(Hex.Encode(r.tagRaw, Hex.UPPER))), ("uid", Text(Hex.Encode(r.uid[..r.uidLen], Hex.UPPER))),
      ("label", Text(UntilNul(r.cardLabel))), ("enabled", Boolean(r.enabled != 0)),
      ("valid_from", Number(r.validFrom)), ("valid_until", Number(r.validUntil)), ("created_at", Number(r.createdAt)),
      ("last_used_at", Number(r.lastUsedAt)), ("use_count", Number(r.useCount)),
      ("token", Text(Hex.Encode(r.token, Hex.UPPER)))])
  }

  function NumberOr(j: Json, key: string): uint32 {
    var n := Get(Some(j), key);
    if n.Some? && n.value.Number? && n.value.n >= 0 then n.value.n % 0x1_0000_0000 else 0
  }

  /**
   * A record from its sync document. `tokenCap` is the cap of the hex parser the token goes through;
   * the firmware reads the token with the UID parser, so there it is UID_MAX.
   */
  function RecordFromJson(j: Json, tokenCap: nat): Option<Record> {
    var tagId, uidItem, tokenItem := Get(Some(j), "tag_id"), Get(Some(j), "uid"), Get(Some(j), "token");
    if !(tagId.Some? && tagId.value.Text? && uidItem.Some? && uidItem.value.Text? && tokenItem.Some? && tokenItem.value.Text?)
    then None else
    var raw, uid := TagIdFromHex(tagId.value.text), BytesFromHex(uidItem.value.text, UID_MAX);
    var token := BytesFromHex(tokenItem.value.text, tokenCap);
    if raw.None? || uid.None? || token.None? || |token.value| != TOKEN_LEN then None
    else Some(Assembled(j, raw.value, uid.value, token.value))
  }

  /** The optional members around the three required ones. */
  function Assembled(j: Json, raw: bytes, uid: bytes, token: bytes): Record
    requires |raw| == 4 && |uid| <= UID_MAX && |token| == TOKEN_LEN
  {
    var name, enabled := Get(Some(j), "label"), Get(Some(j), "enabled");
    RawRecord(
      raw, |uid|, if enabled.Some? && enabled.value.Boolean? then (if enabled.value.b then 1 else 0) else 1,
      token, uid + Zeros(UID_MAX - |uid|),
      NumberOr(j, "valid_from"), NumberOr(j, "valid_until"), NumberOr(j, "created_at"), NumberOr(j, "last_used_at"),
      NumberOr(j, "use_count"),
      if name.Some? && name.value.Text? then CString(name.value.text, LABEL_LEN) else Zeros(LABEL_LEN))
  }

  /** The records a table document yields, malformed ones skipped. */
  function Parsed(items: seq<Json>, tokenCap: nat): seq<Record> {
    Present(seq(|items|, i requires 0 <= i < |items| => RecordFromJson(items[i], tokenCap)))
  }

  function Present(found: seq<Option<Record>>): seq<Record> {
    if found == [] then []
    else (if found[0].Some? then [found[0].value] else []) + Present(found[1..])
  }

  /** Importing a list of records, every save succeeding. */
  function ImportAll(tags: seq<Record>, recs: seq<Record>): seq<Record>
    decreases |recs|
  {
    if recs == [] then tags else ImportOne(ImportAll(tags, recs[..|recs| - 1]), recs[|recs| - 1])
  }

  /** An import finds the record's id, or room for it. */
  predicate Takes(tags: seq<Record>, rec: Record) {
    ByTag(tags, rec.tagRaw) < |tags| || |tags| < MAX_TAGS
  }

  /** How many of the imports succeed. */
  function TakenOf(tags: seq<Record>, recs: seq<Record>): (n: nat)
    ensures n <= |recs|
    decreases |recs|
  {
    if recs == [] then 0
    else
      var n := |recs| - 1;
      TakenOf(tags, recs[..n]) + if Takes(ImportAll(tags, recs[..n]), recs[n]) then 1 else 0
  }

  function ImportOne(tags: seq<Record>, rec: Record): seq<Record> {
    var i := ByTag(tags, rec.tagRaw);
    if i < |tags| then tags[i := rec] else if |tags| >= MAX_TAGS then tags else tags + [rec]
  }

  /** One item of a table document, under this luck of its save: the table, and whether it counts as imported. */
  function ImportItem(g: Guest, item: Json, tokenCap: nat, luck: SaveLuck): (Guest, bool)
    requires |g.table.tags| <= MAX_TAGS
  {
    var r := RecordFromJson(item, tokenCap);
    if r.None? then (g, false) else Import(g, r.value, luck)
  }

  /** All items in order; `luck(k)` is that of the k-th item's save. The count is of the imported ones. */
  function ImportEach(g: Guest, items: seq<Json>, tokenCap: nat, luck: nat -> SaveLuck): (r: (Guest, nat))
    requires |g.table.tags| <= MAX_TAGS
    ensures |r.0.table.tags| <= MAX_TAGS && r.1 <= |items|
    decreases |items|
  {
    if items == [] then (g, 0)
    else
      var n := |items| - 1;
      var before := ImportEach(g, items[..n], tokenCap, luck);
      var last := ImportItem(before.0, items[n], tokenCap, luck(n));
      (last.0, before.1 + if last.1 then 1 else 0)
  }

  /** The items a node looks at: none for a document of its own, or without a list. */
  function TableItems(root: Option<Json>, ownId: bytes): Option<seq<Json>> {
    var origin, tags := Get(root, "origin"), Get(root, "tags");
    if origin.Some? && origin.value == Text(ownId) then None
    else if tags.Some? && tags.value.Array? then Some(tags.value.items) else None
  }
}
