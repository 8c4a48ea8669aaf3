/** What each operation on the guest table means for the cards it holds, and what is on the wire. */
module GuestLaws {
  import opened Bytes
  import opened GuestSpec
  import opened GuestTheorems
  import opened JsonTree
  import Aead
  import Hex

  // ---- Revoking ----

  /** Slot `i` is the first with this tag id. */
  predicate FirstWith(tags: seq<Record>, raw: bytes, i: nat) {
    i < |tags| && tags[i].tagRaw == raw && forall j :: 0 <= j < i ==> tags[j].tagRaw != raw
  }

  lemma FirstIsByTag(tags: seq<Record>, raw: bytes, i: nat)
    requires FirstWith(tags, raw, i)
    ensures ByTag(tags, raw) == i
  {
  }

  /**
   * Revoking a tag id takes its slot out and moves those behind it one forward; settings stay. When
   * no other slot has the id, none has it afterwards. An id that is not there changes nothing.
   */
  lemma RevokeEffect(g: Guest, raw: bytes, luck: SaveLuck, i: nat)
    requires |g.table.tags| <= MAX_TAGS && FirstWith(g.table.tags, raw, i)
    ensures var tags, r := g.table.tags, Revoke(g, raw, luck);
            && |r.0.table.tags| == |tags| - 1
            && (forall j :: 0 <= j < i ==> r.0.table.tags[j] == tags[j])
            && (forall j :: i <= j < |tags| - 1 ==> r.0.table.tags[j] == tags[j + 1])
            && ((forall j :: 0 <= j < |tags| && j != i ==> tags[j].tagRaw != raw)
                ==> forall j :: 0 <= j < |tags| - 1 ==> r.0.table.tags[j].tagRaw != raw)
            && (r.0.table.globalEnabled, r.0.table.defaultValidity) == (g.table.globalEnabled, g.table.defaultValidity)
            && r.1 == (luck.setOk && luck.commitOk) && r.0.published == g.published + if r.1 then 1 else 0
  {
    FirstIsByTag(g.table.tags, raw, i);
  }

  lemma RevokeUnknown(g: Guest, raw: bytes, luck: SaveLuck)
    requires |g.table.tags| <= MAX_TAGS && forall j :: 0 <= j < |g.table.tags| ==> g.table.tags[j].tagRaw != raw
    ensures Revoke(g, raw, luck) == (g, false)
  {
  }

  /** After the revocation a tap of that card is unknown, unless another slot is bound to it too. */
  lemma RevokedIsUnknown(c: CardCrypto, g: Guest, raw: bytes, luck: SaveLuck, i: nat, uid: bytes, payload: bytes, now: uint32)
    requires |g.table.tags| <= MAX_TAGS && FirstWith(g.table.tags, raw, i)
    requires forall j :: 0 <= j < |g.table.tags| && j != i ==> !IsCard(g.table.tags[j], uid)
    ensures Verify(c, Revoke(g, raw, luck).0.table, uid, payload, now) == NoRecord
  {
    RevokeEffect(g, raw, luck, i);
    var after := Revoke(g, raw, luck).0.table.tags;
    assert forall j :: 0 <= j < |after| ==> after[j] == if j < i then g.table.tags[j] else g.table.tags[j + 1];
  }

  /** Every other card's taps are decided as before. */
  lemma RevokeSparesOthers(c: CardCrypto, g: Guest, raw: bytes, luck: SaveLuck, i: nat, uid: bytes, payload: bytes, now: uint32)
    requires |g.table.tags| <= MAX_TAGS && FirstWith(g.table.tags, raw, i) && !IsCard(g.table.tags[i], uid)
    ensures Verify(c, Revoke(g, raw, luck).0.table, uid, payload, now) == Verify(c, g.table, uid, payload, now)
  {
    FirstIsByTag(g.table.tags, raw, i);
    LookupWithout(g.table.tags, i, uid);
  }

  /** Taking a slot out leaves what any other card finds. */
  lemma LookupWithout(tags: seq<Record>, i: nat, uid: bytes)
    requires i < |tags| && !IsCard(tags[i], uid)
    ensures var after := Without(tags, i); var k, k' := ByUid(tags, uid), ByUid(after, uid);
            if k < |tags| then k' < |after| && after[k'] == tags[k] else k' == |after|
  {
    var after := Without(tags, i);
    var k := ByUid(tags, uid);
    assert forall j :: 0 <= j < |after| ==> after[j] == if j < i then tags[j] else tags[j + 1];
    if k < |tags| {
      var at := if k < i then k else k - 1;
      assert after[at] == tags[k];
      assert ByUid(after, uid) == at;
    }
  }

  // ---- Committing and importing ----

  /**
   * A commit announces exactly the cards it appends. A card of the table is re-taught in its slot; a
   * new one goes behind the others while there is room for sixteen.
   */
  lemma CommitEffect(g: Guest, rec: Record, luck: SaveLuck)
    requires |g.table.tags| <= MAX_TAGS
    ensures var tags, r := g.table.tags, Commit(g, rec, luck); var known := SlotOf(tags, rec) < |tags|;
            && (known ==> r.0.table.tags == tags[SlotOf(tags, rec) := rec])
            && (!known && |tags| < 16 ==> r.0.table.tags == if luck.setOk && luck.commitOk then tags + [rec] else tags)
            && (!known && |tags| == 16 ==> r == (g, false))
            && (known || |tags| < 16 ==> r.1 == (luck.setOk && luck.commitOk))
            && r.0.published == g.published + if r.1 && !known then 1 else 0
  {
  }

  // ---- Enabling ----

  /**
   * Disabling the record of a card turns its taps away, enabling it lets the rest of the checks
   * decide, and no other card notices.
   */
  lemma EnableEffect(c: CardCrypto, g: Guest, raw: bytes, enabled: bool, luck: SaveLuck, i: nat, uid: bytes, payload: bytes, now: uint32)
    requires |g.table.tags| <= MAX_TAGS && FirstWith(g.table.tags, raw, i)
    ensures var r := SetTagEnabled(g, raw, enabled, luck); var v := Verify(c, r.0.table, uid, payload, now);
            && r.0.table.tags == g.table.tags[i := g.table.tags[i].(enabled := if enabled then 1 else 0)]
            && r.1 == (luck.setOk && luck.commitOk) && r.0.published == g.published
            && (ByUid(g.table.tags, uid) == i && !enabled ==> v == Disabled)
            && (ByUid(g.table.tags, uid) == i && enabled && g.table.globalEnabled ==> v != Disabled && v != NoRecord)
            && (ByUid(g.table.tags, uid) != i ==> v == Verify(c, g.table, uid, payload, now))
  {
    FirstIsByTag(g.table.tags, raw, i);
    SameCards(g.table.tags, i, g.table.tags[i].(enabled := if enabled then 1 else 0), uid);
  }

  /** With guest access off no tap is accepted: a known card is disabled, any other unknown. */
  lemma GlobalEffect(c: CardCrypto, g: Guest, enabled: bool, luck: SaveLuck, uid: bytes, payload: bytes, now: uint32)
    requires |g.table.tags| <= MAX_TAGS
    ensures var r := SetGlobal(g, enabled, luck); var v := Verify(c, r.0.table, uid, payload, now);
            && r.0.table == g.table.(globalEnabled := enabled)
            && (!enabled ==> v == if ByUid(g.table.tags, uid) < |g.table.tags| then Disabled else NoRecord)
            && r.1 == (luck.setOk && luck.commitOk) && r.0.published == g.published + if r.1 then 1 else 0
  {
  }

  /** The default window is what was asked for, up to ten years of 365 days. */
  lemma DefaultEffect(g: Guest, seconds: uint32, luck: SaveLuck)
    requires |g.table.tags| <= MAX_TAGS
    ensures var r := SetDefault(g, seconds, luck);
            && r.0.table == g.table.(defaultValidity := r.0.table.defaultValidity)
            && (seconds <= 10 * 365 * 24 * 3600 ==> r.0.table.defaultValidity == seconds)
            && (seconds > 10 * 365 * 24 * 3600 ==> r.0.table.defaultValidity == 10 * 365 * 24 * 3600)
            && r.1 == (luck.setOk && luck.commitOk) && r.0.published == g.published + if r.1 then 1 else 0
  {
  }

  /** A use is stamped and counted on the first record with the id, and on nothing else. */
  lemma UseEffect(g: Guest, raw: bytes, now: uint32, luck: SaveLuck, i: nat)
    requires |g.table.tags| <= MAX_TAGS && FirstWith(g.table.tags, raw, i)
    ensures var r := MarkUsed(g, raw, now, luck).table;
            && r == g.table.(tags := g.table.tags[i := r.tags[i]])
            && r.tags[i] == g.table.tags[i].(lastUsedAt := now, useCount := r.tags[i].useCount)
            && (g.table.tags[i].useCount < 4294967295 ==> r.tags[i].useCount == g.table.tags[i].useCount + 1)
            && (g.table.tags[i].useCount == 4294967295 ==> r.tags[i].useCount == 0)
  {
    FirstIsByTag(g.table.tags, raw, i);
  }

  // ---- Minting ----

  /**
   * A mint is refused exactly by a full table. What it gives is enabled, bound to no card and unused,
   * with the drawn id and token; a window that was asked for is kept, and none is made up without a
   * clock or a default.
   */
  lemma MintEffect(t: Table, name: bytes, from: uint32, until: uint32, now: uint32, raw: bytes, token: bytes)
    requires |raw| == 4 && |token| == TOKEN_LEN
    ensures var m := Mint(t, name, from, until, now, raw, token);
            && (m.None? <==> |t.tags| >= 16)
            && (m.Some? ==>
                  && m.value.tagRaw == raw && m.value.token == token && m.value.enabled == 1 && m.value.uidLen == 0
                  && m.value.createdAt == now && m.value.lastUsedAt == 0 && m.value.useCount == 0
                  && (from != 0 || until != 0 || now == 0 || t.defaultValidity == 0 ==>
                        m.value.validFrom == from && m.value.validUntil == until)
                  && (from == 0 && until == 0 && now != 0 && t.defaultValidity != 0 ==> m.value.validFrom == now)
                  && (from == 0 && until == 0 && now != 0 && t.defaultValidity != 0
                      && (now as int) + (t.defaultValidity as int) <= 4294967295 ==>
                        m.value.validUntil == now + t.defaultValidity)
                  && UntilNul(m.value.cardLabel) == Cut(UntilNul(name), 15))
  {
    LabelBack(name, 16);
  }

  /** A label reads back as the part of the name before its first NUL, cut to leave room for one. */
  lemma LabelBack(s: bytes, size: nat)
    requires size > 0
    ensures UntilNul(CString(s, size)) == Cut(UntilNul(s), size - 1)
  {
    var kept := Cut(UntilNul(s), size - 1);
    NoNulBefore(s);
    NulEnds(kept, Zeros(size - |kept|));
  }

  lemma {:induction false} NoNulBefore(s: bytes)
    ensures forall i :: 0 <= i < |UntilNul(s)| ==> UntilNul(s)[i] != 0
  {
    if s != [] && s[0] != 0 {
      NoNulBefore(s[1..]);
    }
  }

  lemma {:induction false} NulEnds(a: bytes, b: bytes)
    requires b != [] && b[0] == 0 && forall i :: 0 <= i < |a| ==> a[i] != 0
    ensures UntilNul(a + b) == a
  {
    if a == [] {
      assert a + b == b;
    } else {
      assert (a + b)[1..] == a[1..] + b;
      NulEnds(a[1..], b);
      assert a == [a[0]] + a[1..];
    }
  }

  // ---- Cards ----

  /** A record is bound to exactly one UID: its own bytes, no more and no fewer. */
  lemma CardIff(r: Record, uid: bytes)
    ensures IsCard(r, uid) <==> |uid| == (r.uidLen as int) && forall k :: 0 <= k < |uid| ==> uid[k] == r.uid[k]
  {
    if |uid| == (r.uidLen as int) && forall k :: 0 <= k < |uid| ==> uid[k] == r.uid[k] {
      assert r.uid[..r.uidLen] == uid;
    }
  }

  /** What a UID finds is bound to it, so no two UIDs ever find the same record. */
  lemma OneCardPerRecord(tags: seq<Record>, a: bytes, b: bytes)
    requires ByUid(tags, a) < |tags| && ByUid(tags, a) == ByUid(tags, b)
    ensures a == b
  {
    CardIff(tags[ByUid(tags, a)], a);
    CardIff(tags[ByUid(tags, a)], b);
  }

  // ---- Verdicts ----

  /**
   * Exactly which answer a tap gets, the earliest reason first: unknown card, something switched
   * off, a payload not sealed for this card and record, no clock for a bounded record, too early,
   * too late.
   */
  lemma VerdictsIff(c: CardCrypto, t: Table, uid: bytes, payload: bytes, now: uint32)
    requires Aead.Lawful(c.aead)
    ensures var v, i := Verify(c, t, uid, payload, now), ByUid(t.tags, uid);
            && (v == NoRecord <==> forall j :: 0 <= j < |t.tags| ==> uid == [] || |uid| > 10 || !IsCard(t.tags[j], uid))
            && (v != NoRecord ==>
                  var r := t.tags[i]; var sealed := SealedFor(c, payload, uid, r); var on := t.globalEnabled && r.enabled != 0;
                  var bounded := r.validFrom != 0 || r.validUntil != 0;
                  && (v == Disabled <==> !on)
                  && (v == BadPayload <==> on && !sealed)
                  && (v == NoClock <==> on && sealed && bounded && now == 0)
                  && (v == NotYetValid <==> on && sealed && now != 0 && now < r.validFrom)
                  && (v == Expired <==> on && sealed && now != 0 && now >= r.validFrom && r.validUntil != 0 && now > r.validUntil))
  {
    var i := ByUid(t.tags, uid);
    if i < |t.tags| {
      ParsesIff(c, payload, uid, t.tags[i]);
    }
  }

  // ---- The wire ----

  /** Little-endian at this offset. */
  predicate Word(b: bytes, at: nat, v: uint32) {
    at + 4 <= |b| && (v as int) == (b[at] as int) + 256 * (b[at + 1] as int) + 65536 * (b[at + 2] as int) + 16777216 * (b[at + 3] as int)
  }

  lemma WordOf(v: uint32)
    ensures Word(Le32(v), 0, v)
  {
    var q1: int := v / 256;
    var q2 := q1 / 256;
    assert v == v % 256 + 256 * q1 && q1 == q1 % 256 + 256 * q2 && q2 == q2 % 256 + 256 * (q2 / 256);
  }

  /** The plaintext: tag id, the flag 1 and three spare bytes, the window, the label. */
  lemma PlaintextLayout(r: Record)
    ensures var pt := Plaintext(r);
            && |pt| == 32 && pt[..4] == r.tagRaw && pt[4..8] == [1, 0, 0, 0]
            && Word(pt, 8, r.validFrom) && Word(pt, 12, r.validUntil)
            && pt[16..32] == CString(r.cardLabel, 16)
  {
    WordOf(r.validFrom);
    WordOf(r.validUntil);
    assert Plaintext(r)[8..12] == Le32(r.validFrom) && Plaintext(r)[12..16] == Le32(r.validUntil);
  }

  /** The payload: "HKG1", version 1, a spare byte, the nonce, what was sealed, two zeros. */
  lemma PayloadLayout(c: CardCrypto, r: Record, uid: bytes, nonce: bytes)
    requires Aead.Lawful(c.aead) && |nonce| == 24
    ensures var b := Build(c, r, uid, nonce);
            && (b.None? <==> uid == [] || |uid| > 10)
            && (b.Some? ==>
                  && |b.value| == 80 && b.value[..4] == Ascii("HKG1") && b.value[4..6] == [1, 0] && b.value[6..30] == nonce
                  && b.value[30..78] == c.aead.seal(c.cardKey(r.token), nonce, uid, Plaintext(r)) && b.value[78..] == [0, 0])
  {
    BuiltParses(c, r, uid, nonce);
    assert Ascii("HKG1") == [72, 75, 71, 49];
  }

  /** The NVS blob: version 1, the count, the flag as a byte, and sixteen slots with zeros behind the records. */
  lemma BlobLayout(t: Table)
    requires |t.tags| <= 16
    ensures var b := BlobOf(t);
            && b.version == 1 && b.count == |t.tags| && b.enabledByte == (if t.globalEnabled then 1 else 0)
            && b.defaultValidity == t.defaultValidity && |b.slots| == 16 && b.slots[..|t.tags|] == t.tags
            && forall i :: |t.tags| <= i < 16 ==> b.slots[i] == ZERO
  {
  }

  /** A blob of another version is not guessed at, and a count beyond the table or the blob is cut. */
  lemma ForeignBlob(b: Blob)
    ensures b.version != 1 ==> Load(Some(b)) == Table(false, 0, [])
    ensures b.version == 1 ==>
              var t := Load(Some(b));
              && (t.globalEnabled <==> b.enabledByte != 0) && t.defaultValidity == b.defaultValidity
              && |t.tags| <= 16 && |t.tags| <= b.count && t.tags <= b.slots
              && (|t.tags| == 16 || |t.tags| == b.count || |t.tags| == |b.slots|)
    ensures Load(None) == Table(false, 0, [])
  {
  }

  /** What a record document without its optional members means: enabled, unbounded, unused, unnamed. */
  lemma RecordDefaults(tagId: bytes, uid: bytes, token: bytes, tokenCap: nat)
    requires |tagId| == 8 && Hex.IsHex(tagId) && uid != [] && |uid| <= 20 && Hex.IsHex(uid)
    requires |token| == 32 && Hex.IsHex(token) && tokenCap >= 16
    ensures var r := RecordFromJson(Object([("tag_id", Text(tagId)), ("uid", Text(uid)), ("token", Text(token))]), tokenCap);
            && r.Some? && r.value.enabled == 1 && r.value.validFrom == 0 && r.value.validUntil == 0
            && r.value.createdAt == 0 && r.value.lastUsedAt == 0 && r.value.useCount == 0 && r.value.cardLabel == Zeros(16)
            && r.value.tagRaw == Hex.Decode(tagId) && r.value.token == Hex.Decode(token)
            && (r.value.uidLen as int) == |Hex.Decode(uid)| && r.value.uid[..r.value.uidLen] == Hex.Decode(uid)
  {
    var fields := [("tag_id", Text(tagId)), ("uid", Text(uid)), ("token", Text(token))];
    FindAt(fields, 0);
    FindAt(fields, 1);
    FindAt(fields, 2);
    OptionalsAbsent(tagId, uid, token);
  }

  lemma OptionalsAbsent(tagId: bytes, uid: bytes, token: bytes)
    ensures var j := Some(Object([("tag_id", Text(tagId)), ("uid", Text(uid)), ("token", Text(token))]));
            && Get(j, "label") == None && Get(j, "enabled") == None && Get(j, "valid_from") == None
            && Get(j, "valid_until") == None && Get(j, "created_at") == None && Get(j, "last_used_at") == None
            && Get(j, "use_count") == None
  {
    var fields := [("tag_id", Text(tagId)), ("uid", Text(uid)), ("token", Text(token))];
    Missing(fields, "label");
    Missing(fields, "enabled");
    Missing(fields, "valid_from");
    Missing(fields, "valid_until");
    Missing(fields, "created_at");
    Missing(fields, "last_used_at");
    Missing(fields, "use_count");
  }

  predicate Absent(fields: seq<(string, Json)>, key: string) {
    forall i :: 0 <= i < |fields| ==> fields[i].0 != key
  }

  lemma {:induction false} Missing(fields: seq<(string, Json)>, key: string)
    requires Absent(fields, key)
    ensures Find(fields, key) == None
  {
    if fields != [] {
      Missing(fields[1..], key);
    }
  }

  /** A node looks at the list of any document but its own. */
  lemma TableLookedAt(origin: bytes, items: seq<Json>, ownId: bytes)
    ensures var root := Some(Object([("origin", Text(origin)), ("tags", Array(items))]));
            TableItems(root, ownId) == if origin == ownId then None else Some(items)
    ensures TableItems(Some(Object([("tags", Array(items))])), ownId) == Some(items)
    ensures TableItems(Some(Object([("origin", Text(origin))])), ownId) == None && TableItems(None, ownId) == None
  {
    var fields := [("origin", Text(origin)), ("tags", Array(items))];
    FindAt(fields, 0);
    FindAt(fields, 1);
    FindAt([("tags", Array(items))], 0);
    Missing([("tags", Array(items))], "origin");
    FindAt([("origin", Text(origin))], 0);
    Missing([("origin", Text(origin))], "tags");
  }
}
