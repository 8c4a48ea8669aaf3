/** GuestTagManager: a fixed array of sixteen records, of which the first `count` are in use. */
module GuestTags {
  import opened Bytes
  import opened GuestSpec
  import opened JsonTree
  import Aead
  import GuestTheorems

  class GuestTagManager {
    const c: CardCrypto
    const tags: array<Record>
    var count: nat
    var globalEnabled: bool
    var defaultValidity: uint32
    var stored: Option<Blob>
    var published: nat

    /** Spare slots are zero. */
    ghost predicate Valid()
      reads this, tags
    {
      && tags.Length == MAX_TAGS && count <= MAX_TAGS
      && forall i :: count <= i < MAX_TAGS ==> tags[i] == ZERO
    }

    ghost function State(): Guest
      reads this, tags
      requires Valid()
    {
      Guest(Table(globalEnabled, defaultValidity, tags[..count]), stored, published)
    }

    /** Boot over whatever NVS holds. */
    constructor (c: CardCrypto, stored: Option<Blob>)
      ensures Valid() && fresh(tags) && this.c == c
      ensures State() == Guest(GuestSpec.Load(stored), stored, 0)
    {
      this.c, this.stored := c, stored;
      count, globalEnabled, defaultValidity, published := 0, false, 0, 0;
      tags := new Record[MAX_TAGS](_ => ZERO);
      new;
      if stored.None? || stored.value.version != BLOB_VERSION {
        return;
      }
      var b := stored.value;
      globalEnabled := b.enabledByte != 0;
      defaultValidity := b.defaultValidity;
      var n := Min(Min(b.count, MAX_TAGS), |b.slots|);
      for i := 0 to n
        invariant tags[..i] == b.slots[..i]
        invariant forall j :: i <= j < MAX_TAGS ==> tags[j] == ZERO
        invariant this.stored == stored && published == 0
        invariant globalEnabled == (b.enabledByte != 0) && defaultValidity == b.defaultValidity
      {
        tags[i] := b.slots[i];
        assert tags[..i + 1] == tags[..i] + [tags[i]];
      }
      count := n;
    }

    method SaveTable(luck: SaveLuck) returns (ok: bool)
      requires Valid()
      modifies this`stored
      ensures Valid() && State() == Save(old(State()), luck)
      ensures ok <==> Saved(luck)
    {
      var slots := seq(MAX_TAGS, _ => ZERO);
      for i := 0 to count
        invariant |slots| == MAX_TAGS && stored == old(stored)
        invariant slots[..i] == tags[..i] && forall j :: i <= j < MAX_TAGS ==> slots[j] == ZERO
      {
        slots := slots[i := tags[i]];
        assert slots[..i + 1] == slots[..i] + [slots[i]];
      }
      assert slots == Padded(tags[..count]);
      if !luck.setOk {
        return false;
      }
      stored := Some(Blob(BLOB_VERSION, count, if globalEnabled then 1 else 0, defaultValidity, slots));
      return luck.commitOk;
    }

    method FindByUid(uid: bytes) returns (i: nat)
      requires Valid()
      ensures i == ByUid(tags[..count], uid)
    {
      if uid == [] || |uid| > UID_MAX {
        return count;
      }
      i := 0;
      while i < count
        invariant 0 <= i <= count
        invariant forall j :: 0 <= j < i ==> !IsCard(tags[j], uid)
      {
        if (tags[i].uidLen as int) == |uid| && tags[i].uid[..tags[i].uidLen] == uid {
          break;
        }
        i := i + 1;
      }
      ghost var s := tags[..count];
      assert forall j :: 0 <= j < count ==> s[j] == tags[j];
      FirstCard(s, uid, i);
    }

    /** The first card is the only index at which the search can have stopped. */
    lemma FirstCard(s: seq<Record>, uid: bytes, i: nat)
      requires 0 < |uid| <= UID_MAX && i <= |s|
      requires i < |s| ==> IsCard(s[i], uid)
      requires forall j :: 0 <= j < i ==> !IsCard(s[j], uid)
      ensures i == ByUid(s, uid)
    {
    }

    method FindByTag(raw: bytes) returns (i: nat)
      requires Valid()
      ensures i == ByTag(tags[..count], raw)
    {
      i := 0;
      while i < count
        invariant 0 <= i <= count
        invariant forall j :: 0 <= j < i ==> tags[j].tagRaw != raw
      {
        if tags[i].tagRaw == raw {
          break;
        }
        i := i + 1;
      }
      ghost var s := tags[..count];
      assert forall j :: 0 <= j < count ==> s[j] == tags[j];
    }

    method PutAt(i: nat, rec: Record, luck: SaveLuck) returns (ok: bool)
      requires Valid() && i < count
      modifies this, tags
      ensures Valid() && (State(), ok) == Put(old(State()), i, rec, luck)
    {
      tags[i] := rec;
      assert tags[..count] == old(tags[..count])[i := rec];
      ok := SaveTable(luck);
    }

    /** A failed save takes the appended record back and zeroes its slot. */
    method AppendRecord(rec: Record, luck: SaveLuck, announce: bool) returns (ok: bool)
      requires Valid() && count < MAX_TAGS
      modifies this, tags
      ensures Valid() && (State(), ok) == Append(old(State()), rec, luck, announce)
    {
      tags[count] := rec;
      count := count + 1;
      assert tags[..count] == old(tags[..count]) + [rec];
      ok := SaveTable(luck);
      if !ok {
        count := count - 1;
        tags[count] := ZERO;
        assert tags[..count] == old(tags[..count]);
        return;
      }
      if announce {
        published := published + 1;
      }
    }

    method CommitTag(rec: Record, luck: SaveLuck) returns (ok: bool)
      requires Valid()
      modifies this, tags
      ensures Valid() && (State(), ok) == Commit(old(State()), rec, luck)
    {
      var i := count;
      if rec.uidLen > 0 {
        i := FindByUid(rec.uid[..rec.uidLen]);
      }
      if i < count {
        ok := PutAt(i, rec, luck);
        return;
      }
      if count >= MAX_TAGS {
        return false;
      }
      ok := AppendRecord(rec, luck, true);
    }

    method ImportTag(rec: Record, luck: SaveLuck) returns (ok: bool)
      requires Valid()
      modifies this, tags
      ensures Valid() && (State(), ok) == Import(old(State()), rec, luck)
    {
      var i := FindByTag(rec.tagRaw);
      if i < count {
        ok := PutAt(i, rec, luck);
        return;
      }
      if count >= MAX_TAGS {
        return false;
      }
      ok := AppendRecord(rec, luck, false);
    }

    /** Moves every record behind slot `i` one slot forward. */
    method CloseGap(i: nat)
      requires Valid() && i < count
      modifies tags
      ensures tags[..count - 1] == Without(old(tags[..count]), i)
      ensures forall k :: count <= k < MAX_TAGS ==> tags[k] == ZERO
    {
      ghost var was, spare := tags[..count], tags[count..];
      assert tags[..] == was + spare;
      for j := i + 1 to count
        invariant tags[..] == Shifted(was, i, j) + spare
      {
        ShiftOne(was, i, j, spare);
        MoveDown(j);
      }
      GapClosed(was, spare, i, tags[..]);
      assert tags[..count - 1] == tags[..][..count - 1];
    }

    method MoveDown(j: nat)
      requires 0 < j < tags.Length
      modifies tags
      ensures tags[..] == old(tags[..])[j - 1 := old(tags[..])[j]]
    {
      tags[j - 1] := tags[j];
    }

    /** Compacts the table in place and zeroes the slot it frees. */
    method RevokeTag(raw: bytes, luck: SaveLuck) returns (ok: bool)
      requires Valid()
      modifies this, tags
      ensures Valid() && (State(), ok) == Revoke(old(State()), raw, luck)
    {
      var i := FindByTag(raw);
      if i >= count {
        return false;
      }
      RemoveAt(i);
      ok := SaveTable(luck);
      if ok {
        published := published + 1;
      }
    }

    method RemoveAt(i: nat)
      requires Valid() && i < count
      modifies this`count, tags
      ensures Valid() && count == old(count) - 1
      ensures tags[..count] == Without(old(tags[..count]), i)
    {
      CloseGap(i);
      count := count - 1;
      ghost var kept := tags[..count];
      tags[count] := ZERO;
      assert tags[..count] == kept;
    }

    method SetTagEnabled(raw: bytes, enabled: bool, luck: SaveLuck) returns (ok: bool)
      requires Valid()
      modifies this, tags
      ensures Valid() && (State(), ok) == GuestSpec.SetTagEnabled(old(State()), raw, enabled, luck)
    {
      var i := FindByTag(raw);
      if i >= count {
        return false;
      }
      ok := PutAt(i, tags[i].(enabled := if enabled then 1 else 0), luck);
    }

    method SetDefaultValiditySeconds(seconds: uint32, luck: SaveLuck) returns (ok: bool)
      requires Valid()
      modifies this
      ensures Valid() && (State(), ok) == SetDefault(old(State()), seconds, luck)
    {
      defaultValidity := if seconds < VALIDITY_CAP then seconds else VALIDITY_CAP;
      ok := SaveTable(luck);
      if ok {
        published := published + 1;
      }
    }

    method SetGlobalEnabled(enabled: bool, luck: SaveLuck) returns (ok: bool)
      requires Valid()
      modifies this
      ensures Valid() && (State(), ok) == SetGlobal(old(State()), enabled, luck)
    {
      globalEnabled := enabled;
      ok := SaveTable(luck);
      if ok {
        published := published + 1;
      }
    }

    method MarkTagUsed(raw: bytes, now: uint32, luck: SaveLuck)
      requires Valid()
      modifies this, tags
      ensures Valid() && State() == MarkUsed(old(State()), raw, now, luck)
    {
      var i := FindByTag(raw);
      if i < count {
        var r := tags[i];
        var _ := PutAt(i, r.(lastUsedAt := now, useCount := ((r.useCount as int) + 1) % 0x1_0000_0000), luck);
      }
    }

    method MintTag(name: bytes, from: uint32, until: uint32, now: uint32, raw: bytes, token: bytes) returns (out: Option<Record>)
      requires Valid() && |raw| == 4 && |token| == TOKEN_LEN
      ensures out == Mint(State().table, name, from, until, now, raw, token)
    {
      if count >= MAX_TAGS {
        return None;
      }
      var w := (from, until);
      if from == 0 && until == 0 && defaultValidity > 0 && now > 0 {
        w := (now, ((now as int) + (defaultValidity as int)) % 0x1_0000_0000);
      }
      var r: Record := RawRecord(raw, 0, 1, token, ZERO.uid, w.0, w.1, now, 0, 0, CString(name, LABEL_LEN));
      return Some(r);
    }

    method VerifyTap(uid: bytes, payload: bytes, now: uint32) returns (v: Verdict, record: Option<Record>)
      requires Valid()
      ensures v == Verify(c, State().table, uid, payload, now)
      ensures record.Some? <==> v != NoRecord
      ensures record.Some? ==> record.value == tags[..count][ByUid(tags[..count], uid)]
    {
      var i := FindByUid(uid);
      if i >= count {
        return NoRecord, None;
      }
      var r := tags[i];
      assert tags[..count][i] == r;
      if !globalEnabled || r.enabled == 0 {
        return Disabled, Some(r);
      }
      if !Parses(c, payload, uid, r) {
        return BadPayload, Some(r);
      }
      if r.validFrom != 0 || r.validUntil != 0 {
        if now == 0 {
          return NoClock, Some(r);
        }
        if r.validFrom != 0 && now < r.validFrom {
          return NotYetValid, Some(r);
        }
        if r.validUntil != 0 && now > r.validUntil {
          return Expired, Some(r);
        }
      }
      return Accepted, Some(r);
    }
  }

  /** The records behind slot `i` moved forward, up to but not including slot `j`'s. */
  ghost function Shifted(was: seq<Record>, i: nat, j: nat): (now: seq<Record>)
    requires i < j <= |was|
    ensures |now| == |was| && (j == i + 1 ==> now == was)
    ensures j == |was| ==> now[..j - 1] == Without(was, i)
  {
    was[..i] + was[i + 1..j] + was[j - 1..]
  }

  lemma GapClosed(was: seq<Record>, spare: seq<Record>, i: nat, all: seq<Record>)
    requires i < |was| && all == Shifted(was, i, |was|) + spare && forall k :: 0 <= k < |spare| ==> spare[k] == ZERO
    ensures all[..|was| - 1] == Without(was, i)
    ensures forall k :: |was| <= k < |all| ==> all[k] == ZERO
  {
    assert all[..|was| - 1] == Shifted(was, i, |was|)[..|was| - 1];
  }

  lemma ShiftOne(was: seq<Record>, i: nat, j: nat, spare: seq<Record>)
    requires i < j < |was|
    ensures var now := Shifted(was, i, j) + spare;
            now[j - 1 := now[j]] == Shifted(was, i, j + 1) + spare
  {
    assert Shifted(was, i, j)[j - 1 := was[j]] == Shifted(was, i, j + 1);
  }

  /** One item of a table document. */
  method ImportItem(guests: GuestTagManager, item: Json, tokenCap: nat, luck: SaveLuck) returns (ok: bool)
    requires guests.Valid()
    modifies guests, guests.tags
    ensures guests.Valid() && (guests.State(), ok) == GuestSpec.ImportItem(old(guests.State()), item, tokenCap, luck)
  {
    var rec := RecordFromJson(item, tokenCap);
    ok := false;
    if rec.Some? {
      ok := guests.ImportTag(rec.value, luck);
    }
  }

  /**
   * MqttManager::handleGuestTable: `root` is the parsed document, `ownId` this node's id, `tokenCap`
   * the token parser's cap, UID_MAX in the firmware. The status is published again, never the
   * table, and only when something was imported.
   */
  method HandleGuestTable(guests: GuestTagManager, root: Option<Json>, ownId: bytes, tokenCap: nat, luck: nat -> SaveLuck)
    returns (imported: nat, skipped: nat, publishStatus: bool)
    requires guests.Valid()
    modifies guests, guests.tags
    ensures guests.Valid()
    ensures var items := TableItems(root, ownId);
            if items.None? then guests.State() == old(guests.State()) && imported == skipped == 0
            else
              && (guests.State(), imported) == ImportEach(old(guests.State()), items.value, tokenCap, luck)
              && skipped == |items.value| - imported
    ensures publishStatus <==> imported > 0
  {
    imported, skipped, publishStatus := 0, 0, false;
    var origin, tags := Get(root, "origin"), Get(root, "tags");
    if origin.Some? && origin.value.Text? && origin.value.text == ownId {
      return;
    }
    if tags.None? || !tags.value.Array? {
      return;
    }
    imported, skipped := ImportTable(guests, tags.value.items, tokenCap, luck);
    publishStatus := imported > 0;
  }

  method ImportTable(guests: GuestTagManager, items: seq<Json>, tokenCap: nat, luck: nat -> SaveLuck)
    returns (imported: nat, skipped: nat)
    requires guests.Valid()
    modifies guests, guests.tags
    ensures guests.Valid() && (guests.State(), imported) == ImportEach(old(guests.State()), items, tokenCap, luck)
    ensures skipped == |items| - imported
  {
    imported, skipped := 0, 0;
    ghost var start := guests.State();
    for k := 0 to |items|
      invariant guests.Valid() && (guests.State(), imported) == ImportEach(start, items[..k], tokenCap, luck)
      invariant imported + skipped == k
    {
      EachNext(start, items, k, tokenCap, luck);
      var ok := ImportItem(guests, items[k], tokenCap, luck(k));
      if ok {
        imported := imported + 1;
      } else {
        skipped := skipped + 1;
      }
    }
    assert items[..|items|] == items;
  }

  lemma EachNext(g: Guest, items: seq<Json>, k: nat, tokenCap: nat, luck: nat -> SaveLuck)
    requires |g.table.tags| <= MAX_TAGS && k < |items|
    ensures var before := ImportEach(g, items[..k], tokenCap, luck);
            var last := GuestSpec.ImportItem(before.0, items[k], tokenCap, luck(k));
            ImportEach(g, items[..k + 1], tokenCap, luck) == (last.0, before.1 + if last.1 then 1 else 0)
  {
    assert items[..k + 1][..k] == items[..k];
  }

  /** Whatever saves fail: no tag id disappears or moves, capacity holds, and nothing is announced. */
  lemma {:induction false} EachKeeps(g: Guest, items: seq<Json>, tokenCap: nat, luck: nat -> SaveLuck)
    requires |g.table.tags| <= MAX_TAGS
    ensures var r := ImportEach(g, items, tokenCap, luck).0;
            && GuestTheorems.Extends(g.table.tags, r.table.tags) && |r.table.tags| <= MAX_TAGS
            && r.published == g.published
            && (r.table.globalEnabled, r.table.defaultValidity) == (g.table.globalEnabled, g.table.defaultValidity)
    decreases |items|
  {
    if items != [] {
      var n := |items| - 1;
      EachKeeps(g, items[..n], tokenCap, luck);
      var r := RecordFromJson(items[n], tokenCap);
      if r.Some? {
        ImportKeeps(ImportEach(g, items[..n], tokenCap, luck).0, r.value, luck(n));
      }
    }
  }

  lemma ImportKeeps(g: Guest, rec: Record, luck: SaveLuck)
    requires |g.table.tags| <= MAX_TAGS
    ensures var r := Import(g, rec, luck).0;
            && GuestTheorems.Extends(g.table.tags, r.table.tags) && |r.table.tags| <= MAX_TAGS
            && r.published == g.published
            && (r.table.globalEnabled, r.table.defaultValidity) == (g.table.globalEnabled, g.table.defaultValidity)
  {
  }

  /** With every save succeeding, the items are the fold of their well-formed records. */
  lemma {:induction false} EachIsAll(g: Guest, items: seq<Json>, tokenCap: nat, luck: nat -> SaveLuck)
    requires |g.table.tags| <= MAX_TAGS && forall k: nat :: Saved(luck(k))
    ensures var r := ImportEach(g, items, tokenCap, luck);
            && r.0.table.tags == ImportAll(g.table.tags, Parsed(items, tokenCap))
            && r.1 == TakenOf(g.table.tags, Parsed(items, tokenCap))
    decreases |items|
  {
    if items != [] {
      var n := |items| - 1;
      EachIsAll(g, items[..n], tokenCap, luck);
      var before := ImportEach(g, items[..n], tokenCap, luck).0;
      ParsedAppend(items[..n], items[n], tokenCap);
      assert items == items[..n] + [items[n]];
      var r := RecordFromJson(items[n], tokenCap);
      if r.Some? {
        ImportedWhole(before, r.value, luck(n));
        ImportOneMore(g.table.tags, Parsed(items[..n], tokenCap), [r.value]);
      } else {
        assert Parsed(items[..n], tokenCap) + [] == Parsed(items[..n], tokenCap);
      }
    }
  }

  lemma ImportedWhole(g: Guest, rec: Record, luck: SaveLuck)
    requires |g.table.tags| <= MAX_TAGS && Saved(luck)
    ensures Import(g, rec, luck).0.table.tags == ImportOne(g.table.tags, rec)
    ensures ImportAll(g.table.tags, [rec]) == ImportOne(g.table.tags, rec)
    ensures Import(g, rec, luck).1 <==> Takes(g.table.tags, rec)
  {
    assert [rec][..0] == [];
  }

  lemma ImportOneMore(start: seq<Record>, before: seq<Record>, one: seq<Record>)
    requires |one| <= 1
    ensures ImportAll(start, before + one) == ImportAll(ImportAll(start, before), one)
    ensures TakenOf(start, before + one)
            == TakenOf(start, before) + (if one != [] && Takes(ImportAll(start, before), one[0]) then 1 else 0)
  {
    if one != [] {
      assert (before + one)[..|before|] == before && one[..0] == [];
    } else {
      assert before + one == before;
    }
  }

  lemma ParsedAppend(items: seq<Json>, item: Json, tokenCap: nat)
    ensures var r := RecordFromJson(item, tokenCap);
            Parsed(items + [item], tokenCap) == Parsed(items, tokenCap) + if r.Some? then [r.value] else []
  {
    var all := items + [item];
    var found := seq(|items|, i requires 0 <= i < |items| => RecordFromJson(items[i], tokenCap));
    PresentAppend(found, RecordFromJson(item, tokenCap));
    assert seq(|all|, i requires 0 <= i < |all| => RecordFromJson(all[i], tokenCap)) == found + [RecordFromJson(item, tokenCap)];
  }

  lemma {:induction false} PresentAppend(found: seq<Option<Record>>, r: Option<Record>)
    ensures Present(found + [r]) == Present(found) + if r.Some? then [r.value] else []
  {
    if found == [] {
      assert [r][1..] == [];
    } else {
      PresentAppend(found[1..], r);
      assert (found + [r])[1..] == found[1..] + [r];
    }
  }
}
