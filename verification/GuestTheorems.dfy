/** What the guest table keeps, what a tap decides, and what household sync brings across. */
module GuestTheorems {
  import opened Bytes
  import opened GuestSpec
  import opened JsonTree
  import Aead
  import Hex

  // ---- Reachable states ----

  datatype Step =
    | CommitStep(rec: Record, luck: SaveLuck)
    | ImportStep(rec: Record, luck: SaveLuck)
    | RevokeStep(raw: bytes, luck: SaveLuck)
    | EnableStep(raw: bytes, enabled: bool, luck: SaveLuck)
    | GlobalStep(enabled: bool, luck: SaveLuck)
    | DefaultStep(seconds: uint32, luck: SaveLuck)
    | UsedStep(raw: bytes, now: uint32, luck: SaveLuck)
    | BootStep

  predicate WithinCaps(t: Table) {
    |t.tags| <= MAX_TAGS && t.defaultValidity <= VALIDITY_CAP
  }

  /** Flash, once written, holds a blob this code wrote: bounded, padded, and loadable. */
  predicate Inv(g: Guest) {
    && WithinCaps(g.table)
    && (g.stored.Some? ==> WithinCaps(Load(g.stored)) && g.stored == Some(BlobOf(Load(g.stored))))
  }

  function Next(g: Guest, step: Step): Guest
    requires Inv(g)
  {
    match step
    case CommitStep(rec, luck) => Commit(g, rec, luck).0
    case ImportStep(rec, luck) => Import(g, rec, luck).0
    case RevokeStep(raw, luck) => Revoke(g, raw, luck).0
    case EnableStep(raw, enabled, luck) => SetTagEnabled(g, raw, enabled, luck).0
    case GlobalStep(enabled, luck) => SetGlobal(g, enabled, luck).0
    case DefaultStep(seconds, luck) => SetDefault(g, seconds, luck).0
    case UsedStep(raw, now, luck) => MarkUsed(g, raw, now, luck)
    case BootStep => Boot(g)
  }

  /** A stored table loads back as it was: count, settings and every record. */
  lemma LoadsBack(t: Table)
    requires |t.tags| <= MAX_TAGS
    ensures Load(Some(BlobOf(t))) == t
  {
  }

  lemma SaveKeeps(g: Guest, luck: SaveLuck)
    requires Inv(g.(table := EMPTY)) && WithinCaps(g.table)
    ensures Inv(Save(g, luck))
    ensures luck.setOk ==> Load(Save(g, luck).stored) == g.table
  {
  }

  lemma PutKeeps(g: Guest, i: nat, rec: Record, luck: SaveLuck)
    requires Inv(g) && i < |g.table.tags|
    ensures Inv(Put(g, i, rec, luck).0)
  {
  }

  lemma AppendKeeps(g: Guest, rec: Record, luck: SaveLuck, announce: bool)
    requires Inv(g) && |g.table.tags| < MAX_TAGS
    ensures Inv(Append(g, rec, luck, announce).0)
  {
  }

  lemma RevokeKeeps(g: Guest, raw: bytes, luck: SaveLuck)
    requires Inv(g)
    ensures Inv(Revoke(g, raw, luck).0)
  {
  }

  lemma EnableKeeps(g: Guest, raw: bytes, enabled: bool, luck: SaveLuck)
    requires Inv(g)
    ensures Inv(SetTagEnabled(g, raw, enabled, luck).0)
  {
  }

  lemma UsedKeeps(g: Guest, raw: bytes, now: uint32, luck: SaveLuck)
    requires Inv(g)
    ensures Inv(MarkUsed(g, raw, now, luck))
  {
  }

  lemma StepKeeps(g: Guest, step: Step)
    requires Inv(g)
    ensures Inv(Next(g, step))
  {
    var tags := g.table.tags;
    match step
    case CommitStep(rec, luck) =>
      if SlotOf(tags, rec) < |tags| { PutKeeps(g, SlotOf(tags, rec), rec, luck); }
      else if |tags| < MAX_TAGS { AppendKeeps(g, rec, luck, true); }
    case ImportStep(rec, luck) =>
      if ByTag(tags, rec.tagRaw) < |tags| { PutKeeps(g, ByTag(tags, rec.tagRaw), rec, luck); }
      else if |tags| < MAX_TAGS { AppendKeeps(g, rec, luck, false); }
    case RevokeStep(raw, luck) => RevokeKeeps(g, raw, luck);
    case EnableStep(raw, enabled, luck) => EnableKeeps(g, raw, enabled, luck);
    case GlobalStep(enabled, luck) => SaveKeeps(g.(table := g.table.(globalEnabled := enabled)), luck);
    case DefaultStep(seconds, luck) =>
      SaveKeeps(g.(table := g.table.(defaultValidity := if seconds < VALIDITY_CAP then seconds else VALIDITY_CAP)), luck);
    case UsedStep(raw, now, luck) => UsedKeeps(g, raw, now, luck);
    case BootStep =>
  }

  /** From an empty device on; nothing is said of what would follow a state outside `Inv`. */
  ghost predicate Run(states: seq<Guest>, steps: seq<Step>) {
    && |states| == |steps| + 1 && states[0] == Guest(EMPTY, None, 0)
    && forall i :: 0 <= i < |steps| ==> Follows(states[i], steps[i], states[i + 1])
  }

  predicate Follows(g: Guest, step: Step, g': Guest) {
    Inv(g) ==> g' == Next(g, step)
  }

  /** The capacity and the ten-year cap hold in every state of every run, reboots included. */
  lemma {:induction false} RunInv(states: seq<Guest>, steps: seq<Step>)
    requires Run(states, steps)
    ensures Inv(states[|steps|])
  {
    if steps != [] {
      var n := |steps| - 1;
      assert Run(states[..n + 1], steps[..n]);
      RunInv(states[..n + 1], steps[..n]);
      StepKeeps(states[n], steps[n]);
    }
  }

  /**
   * In a reachable state a minted default window never wraps while the clock is at most
   * 3979607295, and that bound is the exact one for the longest default the device accepts.
   */
  lemma WindowNeverWraps(states: seq<Guest>, steps: seq<Step>, now: uint32)
    requires Run(states, steps) && 0 < now
    ensures var t := states[|steps|].table;
            (t.defaultValidity > 0 && now <= 3979607295 ==>
               Window(t, 0, 0, now) == (now, (now as int) + (t.defaultValidity as int)))
            && (t.defaultValidity == VALIDITY_CAP ==>
                  (now <= 3979607295 <==> Window(t, 0, 0, now).1 > now))
  {
    RunInv(states, steps);
  }

  /** The next boot finds exactly the table that is in RAM now. */
  predicate Durable(g: Guest) {
    g.stored.Some? && Load(g.stored) == g.table
  }

  /** After a call that reports success the table is durable. */
  lemma SuccessIsDurable(g: Guest, step: Step)
    requires Inv(g)
    ensures (step.CommitStep? && Commit(g, step.rec, step.luck).1) || (step.ImportStep? && Import(g, step.rec, step.luck).1)
            || (step.RevokeStep? && Revoke(g, step.raw, step.luck).1)
            || (step.EnableStep? && SetTagEnabled(g, step.raw, step.enabled, step.luck).1)
            || (step.GlobalStep? && SetGlobal(g, step.enabled, step.luck).1)
            || (step.DefaultStep? && SetDefault(g, step.seconds, step.luck).1)
            ==> Durable(Next(g, step))
  {
    StepKeeps(g, step);
    LoadsBack(Next(g, step).table);
  }

  /** A commit that fails leaves the old table in RAM exactly when it was not replacing a card's slot. */
  lemma FailedCommit(g: Guest, rec: Record, luck: SaveLuck)
    requires Inv(g) && !Commit(g, rec, luck).1
    ensures var i := SlotOf(g.table.tags, rec);
            && Commit(g, rec, luck).0.published == g.published
            && (Commit(g, rec, luck).0.table == g.table
                <==> (i < |g.table.tags| ==> g.table.tags[i] == rec))
  {
  }

  /**
   * A commit that fails on a durable table leaves RAM and flash agreeing exactly when the set
   * worked or nothing was replaced; an append taken back from RAM agrees only when the set failed,
   * for one that worked is on flash and comes back with the next boot.
   */
  lemma FailedCommitDurable(g: Guest, rec: Record, luck: SaveLuck)
    requires Inv(g) && Durable(g) && !Commit(g, rec, luck).1
    ensures var i, tags := SlotOf(g.table.tags, rec), g.table.tags;
            Durable(Commit(g, rec, luck).0) <==>
              if i < |tags| then luck.setOk || tags[i] == rec else |tags| >= MAX_TAGS || !luck.setOk
  {
    var i, tags := SlotOf(g.table.tags, rec), g.table.tags;
    if i < |tags| {
      LoadsBack(g.table.(tags := tags[i := rec]));
      assert tags[i := rec][i] == rec;
    } else if |tags| < MAX_TAGS {
      LoadsBack(g.table.(tags := tags + [rec]));
      assert |tags + [rec]| != |tags|;
    }
  }

  /** One such re-teach: neither set nor commit works, and yet the card's record is the new one in RAM. */
  lemma FailedReteach(former: Record, next: Record, g: Guest)
    requires former.uidLen == next.uidLen == 1 && former.uid == next.uid && former != next && g.table.tags == [former]
    ensures var r := Commit(g, next, SaveLuck(false, false));
            !r.1 && r.0.table.tags == [next] && r.0.stored == g.stored
  {
    assert IsCard(former, next.uid[..next.uidLen]);
    assert ByUid([former], next.uid[..next.uidLen]) == 0;
  }

  /** One such append: the set works, the commit does not, and the next boot knows the refused card. */
  lemma RefusedCardComesBack(rec: Record, g: Guest)
    requires Inv(g) && g.table.tags == [] && rec.uidLen == 1
    ensures var r := Commit(g, rec, SaveLuck(true, false));
            !r.1 && r.0.table == g.table && Boot(r.0).table.tags == [rec]
  {
    LoadsBack(g.table.(tags := [rec]));
    assert [] + [rec] == [rec];
  }

  // ---- Taps ----

  /** The payload is the sealed plaintext of some record with this tag id, bound to this UID. */
  ghost predicate SealedFor(c: CardCrypto, payload: bytes, uid: bytes, r: Record) {
    && |payload| == 80 && payload[..4] == [72, 75, 71, 49] && payload[4] == 1
    && exists pt: bytes ::
         |pt| == 32 && pt[..4] == r.tagRaw && payload[30..78] == c.aead.seal(c.cardKey(r.token), payload[6..30], uid, pt)
  }

  lemma ParsesIff(c: CardCrypto, payload: bytes, uid: bytes, r: Record)
    requires Aead.Lawful(c.aead)
    ensures Parses(c, payload, uid, r) <==> SealedFor(c, payload, uid, r)
  {
  }

  /** `now` lies in the record's window; a bounded window needs a clock. */
  predicate InWindow(r: Record, now: uint32) {
    (r.validFrom == 0 && r.validUntil == 0)
    || (now != 0 && r.validFrom <= now && (r.validUntil == 0 || now <= r.validUntil))
  }

  /**
   * A tap is accepted exactly when the table knows the card, guest access and the record are
   * enabled, the payload was sealed for this card and record, and the time is in the window.
   */
  lemma AcceptedIff(c: CardCrypto, t: Table, uid: bytes, payload: bytes, now: uint32)
    requires Aead.Lawful(c.aead)
    ensures Verify(c, t, uid, payload, now) == Accepted <==>
              var i := ByUid(t.tags, uid);
              && i < |t.tags| && t.globalEnabled && t.tags[i].enabled != 0
              && SealedFor(c, payload, uid, t.tags[i]) && InWindow(t.tags[i], now)
  {
  }

  lemma BuiltParses(c: CardCrypto, r: Record, uid: bytes, nonce: bytes)
    requires Aead.Lawful(c.aead) && |nonce| == Aead.NONCE_LEN
    ensures Parses(c, Payload(c, r, uid, nonce), uid, r)
  {
    var p := Payload(c, r, uid, nonce);
    assert p[6..30] == nonce;
    assert p[30..78] == c.aead.seal(c.cardKey(r.token), nonce, uid, Plaintext(r));
  }

  /** The record handleGuestWrite commits: the armed one, bound to the card. */
  predicate BoundTo(armed: Record, committed: Record, uid: bytes) {
    && 0 < |uid| <= UID_MAX
    && (committed.uidLen as int) == |uid| && committed.uid[..committed.uidLen] == uid
    && committed == armed.(uidLen := committed.uidLen, uid := committed.uid)
  }

  /** After a successful commit the card's UID finds the committed record, whatever else is in the table. */
  lemma CommittedIsFound(g: Guest, rec: Record, uid: bytes, luck: SaveLuck)
    requires |g.table.tags| <= MAX_TAGS && 0 < |uid| <= UID_MAX && IsCard(rec, uid)
    requires Commit(g, rec, luck).1
    ensures var t := Commit(g, rec, luck).0.table;
            && ByUid(t.tags, uid) < |t.tags| && t.tags[ByUid(t.tags, uid)] == rec
            && t.globalEnabled == g.table.globalEnabled
  {
    var tags := g.table.tags;
    var i := SlotOf(tags, rec);
    var t := Commit(g, rec, luck).0.table;
    assert i == ByUid(tags, uid);
    assert IsCard(t.tags[i], uid);
    assert forall j :: 0 <= j < i ==> t.tags[j] == tags[j];
    assert ByUid(t.tags, uid) == i;
  }

  /**
   * Teach, then tap. The armed record is bound to the card, its payload is on the card, and the
   * commit succeeded: a tap of that card decides by the enable flags and the window alone.
   */
  lemma TeachThenTap(c: CardCrypto, g: Guest, armed: Record, committed: Record, uid: bytes, nonce: bytes,
                     luck: SaveLuck, now: uint32)
    requires Aead.Lawful(c.aead) && |nonce| == Aead.NONCE_LEN
    requires |g.table.tags| <= MAX_TAGS && BoundTo(armed, committed, uid) && Commit(g, committed, luck).1
    ensures Build(c, armed, uid, nonce).Some?
    ensures var t := Commit(g, committed, luck).0.table;
            var v := Verify(c, t, uid, Build(c, armed, uid, nonce).value, now);
            && (v == Accepted <==> g.table.globalEnabled && armed.enabled != 0 && InWindow(armed, now))
            && (v == Disabled <==> !g.table.globalEnabled || armed.enabled == 0)
            && (v == NoClock ==> now == 0) && (v == NotYetValid ==> now < armed.validFrom)
            && (v == Expired ==> now > armed.validUntil) && v != NoRecord && v != BadPayload
  {
    CommittedIsFound(g, committed, uid, luck);
    BuiltParses(c, armed, uid, nonce);
    assert Payload(c, committed, uid, nonce) == Payload(c, armed, uid, nonce);
    var t := Commit(g, committed, luck).0.table;
    assert Parses(c, Payload(c, armed, uid, nonce), uid, t.tags[ByUid(t.tags, uid)]);
  }

  /** Being used does not change what a later tap decides. */
  lemma UseChangesNothing(c: CardCrypto, g: Guest, raw: bytes, at: uint32, luck: SaveLuck, uid: bytes, payload: bytes, now: uint32)
    requires |g.table.tags| <= MAX_TAGS
    ensures Verify(c, MarkUsed(g, raw, at, luck).table, uid, payload, now) == Verify(c, g.table, uid, payload, now)
  {
    var i := ByTag(g.table.tags, raw);
    if i < |g.table.tags| {
      var r := g.table.tags[i];
      var used := r.(lastUsedAt := at, useCount := ((r.useCount as int) + 1) % 0x1_0000_0000);
      SameCards(g.table.tags, i, used, uid);
      assert Judge(c, g.table.globalEnabled, used, uid, payload, now) == Judge(c, g.table.globalEnabled, r, uid, payload, now);
    }
  }

  /** Replacing a record by one bound to the same card changes no lookup. */
  lemma SameCards(tags: seq<Record>, i: nat, rec: Record, uid: bytes)
    requires i < |tags| && rec.uidLen == tags[i].uidLen && rec.uid == tags[i].uid
    ensures ByUid(tags[i := rec], uid) == ByUid(tags, uid)
  {
    var a, b := ByUid(tags, uid), ByUid(tags[i := rec], uid);
    assert a < |tags| ==> IsCard(tags[i := rec][a], uid);
    assert b < |tags| ==> IsCard(tags[b], uid);
  }

  /** Teaching another card does not disturb this one. */
  lemma OtherCardKept(g: Guest, rec: Record, uid: bytes, luck: SaveLuck)
    requires |g.table.tags| <= MAX_TAGS && !IsCard(rec, uid) && ByUid(g.table.tags, uid) < |g.table.tags|
    ensures var t := Commit(g, rec, luck).0.table;
            && ByUid(t.tags, uid) < |t.tags|
            && t.tags[ByUid(t.tags, uid)] == g.table.tags[ByUid(g.table.tags, uid)]
  {
    var tags := g.table.tags;
    var after := Commit(g, rec, luck).0.table.tags;
    var i := ByUid(tags, uid);
    var s := SlotOf(tags, rec);
    assert s < |tags| ==> IsCard(tags[s], rec.uid[..rec.uidLen]);
    assert after[i] == tags[i];
    assert forall j :: 0 <= j < i ==> after[j] == tags[j] || after[j] == rec;
    assert ByUid(after, uid) == i;
  }

  // ---- Household sync ----

  /** `b` still has every slot of `a`, under the same tag ids and in the same order. */
  predicate Extends(a: seq<Record>, b: seq<Record>) {
    |a| <= |b| && forall j :: 0 <= j < |a| ==> b[j].tagRaw == a[j].tagRaw
  }

  /** The last record of the list with this tag id, or the number of records. */
  function LastWith(recs: seq<Record>, raw: bytes): (i: nat)
    ensures i <= |recs| && (i < |recs| ==> recs[i].tagRaw == raw)
    ensures i == |recs| ==> forall j :: 0 <= j < |recs| ==> recs[j].tagRaw != raw
    decreases |recs|
  {
    if recs == [] then 0
    else if recs[|recs| - 1].tagRaw == raw then |recs| - 1
    else
      var i := LastWith(recs[..|recs| - 1], raw);
      if i == |recs| - 1 then |recs| else i
  }

  /** The value slot `i` must hold after importing `recs` into a table that had `tags`. */
  predicate Settled(tags: seq<Record>, recs: seq<Record>, out: seq<Record>, i: nat)
    requires i < |out|
  {
    var k := LastWith(recs, out[i].tagRaw);
    if ByTag(out, out[i].tagRaw) == i && k < |recs| then out[i] == recs[k]
    else i < |tags| && out[i] == tags[i]
  }

  predicate AllSettled(tags: seq<Record>, recs: seq<Record>, out: seq<Record>) {
    forall i :: 0 <= i < |out| ==> Settled(tags, recs, out, i)
  }

  /** Each listed id is in the table, or the table is full. */
  predicate Covered(recs: seq<Record>, out: seq<Record>) {
    |out| >= MAX_TAGS || forall j :: 0 <= j < |recs| ==> ByTag(out, recs[j].tagRaw) < |out|
  }

  /**
   * Importing any list into any table: no tag id disappears, the order of the old ones stays, the
   * table outgrows neither its capacity nor itself, every slot is settled by the last record of its
   * id, and each listed id is there unless the table is full.
   */
  lemma {:induction false} ImportAllFacts(tags: seq<Record>, recs: seq<Record>)
    ensures var out := ImportAll(tags, recs);
            && Extends(tags, out) && (|out| <= MAX_TAGS || |out| == |tags|)
            && AllSettled(tags, recs, out) && Covered(recs, out)
    decreases |recs|
  {
    if recs != [] {
      var n := |recs| - 1;
      var mid := ImportAll(tags, recs[..n]);
      ImportAllFacts(tags, recs[..n]);
      assert recs[..n] + [recs[n]] == recs;
      ImportOneExtends(tags, mid, recs[n]);
      ImportOneSettles(tags, recs[..n], mid, recs[n]);
      ImportOneCovers(recs[..n], mid, recs[n]);
    }
  }

  lemma ImportOneExtends(tags: seq<Record>, mid: seq<Record>, rec: Record)
    requires Extends(tags, mid) && (|mid| <= MAX_TAGS || |mid| == |tags|)
    ensures var out := ImportOne(mid, rec);
            Extends(tags, out) && (|out| <= MAX_TAGS || |out| == |tags|)
  {
  }

  lemma SameSlot(a: seq<Record>, b: seq<Record>, raw: bytes)
    requires Extends(a, b)
    ensures ByTag(a, raw) < |a| ==> ByTag(b, raw) == ByTag(a, raw)
    ensures ByTag(a, raw) == |a| ==> ByTag(b, raw) >= |a|
  {
  }

  lemma ImportOneSettles(tags: seq<Record>, recs: seq<Record>, mid: seq<Record>, rec: Record)
    requires Extends(tags, mid) && AllSettled(tags, recs, mid)
    ensures AllSettled(tags, recs + [rec], ImportOne(mid, rec))
  {
    var out, all := ImportOne(mid, rec), recs + [rec];
    assert all[..|recs|] == recs;
    forall i | 0 <= i < |out|
      ensures Settled(tags, all, out, i)
    {
      SameSlot(mid, out, out[i].tagRaw);
      assert i < |mid| ==> Settled(tags, recs, mid, i);
    }
  }

  lemma ImportOneCovers(recs: seq<Record>, mid: seq<Record>, rec: Record)
    requires Covered(recs, mid)
    ensures Covered(recs + [rec], ImportOne(mid, rec))
  {
    var out, all := ImportOne(mid, rec), recs + [rec];
    forall j | 0 <= j < |all| && |out| < MAX_TAGS
      ensures ByTag(out, all[j].tagRaw) < |out|
    {
      SameSlot(mid, out, all[j].tagRaw);
      if j < |recs| {
        assert all[j] == recs[j];
      } else if |out| > |mid| {
        assert out[|mid|].tagRaw == rec.tagRaw;
      }
    }
  }

  /** Each listed id is in the table. */
  predicate AllIn(recs: seq<Record>, tags: seq<Record>) {
    forall j :: 0 <= j < |recs| ==> ByTag(tags, recs[j].tagRaw) < |tags|
  }

  /** Every import of a list succeeds exactly when the table ends up with every listed id. */
  lemma {:induction false} AllTakenIff(tags: seq<Record>, recs: seq<Record>)
    ensures TakenOf(tags, recs) == |recs| <==> AllIn(recs, ImportAll(tags, recs))
    decreases |recs|
  {
    if recs != [] {
      var n := |recs| - 1;
      AllTakenIff(tags, recs[..n]);
      assert Covered(recs[..n], ImportAll(tags, recs[..n])) by {
        ImportAllFacts(tags, recs[..n]);
      }
      TakenStep(recs, ImportAll(tags, recs[..n]));
    }
  }

  lemma TakenStep(recs: seq<Record>, mid: seq<Record>)
    requires recs != [] && Covered(recs[..|recs| - 1], mid)
    ensures var n := |recs| - 1;
            AllIn(recs, ImportOne(mid, recs[n])) <==> Takes(mid, recs[n]) && AllIn(recs[..n], mid)
  {
    var n := |recs| - 1;
    var out := ImportOne(mid, recs[n]);
    forall j | 0 <= j <= n
      ensures ByTag(mid, recs[j].tagRaw) < |mid| ==> ByTag(out, recs[j].tagRaw) < |out|
    {
      SameSlot(mid, out, recs[j].tagRaw);
    }
    if |out| > |mid| {
      assert out[|mid|].tagRaw == recs[n].tagRaw;
      assert AllIn(recs[..n], mid);
    }
  }

  /** With every listed id present, or no room, another import adds no slot. */
  lemma {:induction false} NoGrowth(tags: seq<Record>, recs: seq<Record>)
    requires Covered(recs, tags)
    ensures |ImportAll(tags, recs)| == |tags|
    decreases |recs|
  {
    if recs != [] {
      var n := |recs| - 1;
      var mid := ImportAll(tags, recs[..n]);
      NoGrowth(tags, recs[..n]);
      ImportAllFacts(tags, recs[..n]);
      SameSlot(tags, mid, recs[n].tagRaw);
    }
  }

  /** Importing the same list again changes nothing: not a slot, not a record. */
  lemma ImportIdempotent(tags: seq<Record>, recs: seq<Record>)
    ensures ImportAll(ImportAll(tags, recs), recs) == ImportAll(tags, recs)
  {
    var once := ImportAll(tags, recs);
    var twice := ImportAll(once, recs);
    ImportAllFacts(tags, recs);
    ImportAllFacts(once, recs);
    NoGrowth(once, recs);
    forall i | 0 <= i < |once|
      ensures twice[i] == once[i]
    {
      SettledTwice(tags, recs, once, twice, i);
    }
  }

  lemma SettledTwice(tags: seq<Record>, recs: seq<Record>, once: seq<Record>, twice: seq<Record>, i: nat)
    requires i < |once| == |twice| && Extends(once, twice)
    requires Settled(tags, recs, once, i) && Settled(once, recs, twice, i)
    ensures twice[i] == once[i]
  {
  }

  /** A successful import never announces a change, and one whose save works is one ImportOne. */
  lemma ImportIsQuiet(g: Guest, rec: Record, luck: SaveLuck)
    requires |g.table.tags| <= MAX_TAGS
    ensures Import(g, rec, luck).0.published == g.published
    ensures Saved(luck) ==> Import(g, rec, luck).0.table == g.table.(tags := ImportOne(g.table.tags, rec))
  {
  }

  // ---- The sync document ----

  /** A record as a mint and a teach leave it: UID padded with zeros, flag a bit, label a C string. */
  predicate Plain(r: Record) {
    && 0 < r.uidLen && r.uid == r.uid[..r.uidLen] + Zeros(UID_MAX - (r.uidLen as int)) && r.enabled <= 1
    && CString(UntilNul(r.cardLabel), LABEL_LEN) == r.cardLabel
  }

  lemma {:induction false} FindAt(fields: seq<(string, Json)>, n: nat)
    requires n < |fields| && forall j :: 0 <= j < n ==> fields[j].0 != fields[n].0
    ensures Find(fields, fields[n].0) == Some(fields[n].1)
  {
    if n > 0 {
      assert fields[1..][n - 1] == fields[n];
      FindAt(fields[1..], n - 1);
    }
  }

  lemma RequiredMembers(r: Record)
    ensures var j := RecordToJson(r);
            && Get(Some(j), "tag_id") == Some(Text(Hex.Encode(r.tagRaw, Hex.UPPER)))
            && Get(Some(j), "uid") == Some(Text(Hex.Encode(r.uid[..r.uidLen], Hex.UPPER)))
            && Get(Some(j), "token") == Some(Text(Hex.Encode(r.token, Hex.UPPER)))
  {
    var f := RecordToJson(r).fields;
    FindAt(f, 0);
    FindAt(f, 1);
    FindAt(f, 9);
  }

  lemma NameAndFlag(r: Record)
    ensures var j := RecordToJson(r);
            Get(Some(j), "label") == Some(Text(UntilNul(r.cardLabel))) && Get(Some(j), "enabled") == Some(Boolean(r.enabled != 0))
  {
    var f := RecordToJson(r).fields;
    FindAt(f, 2);
    FindAt(f, 3);
  }

  lemma WindowNumbers(r: Record)
    ensures var j := RecordToJson(r);
            NumberOr(j, "valid_from") == r.validFrom && NumberOr(j, "valid_until") == r.validUntil
  {
    var f := RecordToJson(r).fields;
    FindAt(f, 4);
    FindAt(f, 5);
  }

  lemma UseNumbers(r: Record)
    ensures var j := RecordToJson(r);
            && NumberOr(j, "created_at") == r.createdAt && NumberOr(j, "last_used_at") == r.lastUsedAt
            && NumberOr(j, "use_count") == r.useCount
  {
    var f := RecordToJson(r).fields;
    FindAt(f, 6);
    FindAt(f, 7);
    FindAt(f, 8);
  }

  /**
   * A record survives its sync document exactly when the parser the token goes through admits
   * sixteen bytes.
   */
  lemma SyncRoundTrip(r: Record, tokenCap: nat)
    requires Plain(r)
    ensures RecordFromJson(RecordToJson(r), tokenCap) == Some(r) <==> tokenCap >= TOKEN_LEN
    ensures tokenCap < TOKEN_LEN ==> RecordFromJson(RecordToJson(r), tokenCap) == None
  {
    RequiredMembers(r);
    NameAndFlag(r);
    WindowNumbers(r);
    UseNumbers(r);
    Hex.RoundTrip(r.tagRaw, Hex.UPPER);
    Hex.RoundTrip(r.uid[..r.uidLen], Hex.UPPER);
    Hex.RoundTrip(r.token, Hex.UPPER);
  }

  /** The firmware's cap is ten bytes: no document whatever yields a record, so sync imports nothing. */
  lemma SyncImportsNothing(items: seq<Json>)
    ensures Parsed(items, UID_MAX) == []
  {
    NonePresent(seq(|items|, i requires 0 <= i < |items| => RecordFromJson(items[i], UID_MAX)));
  }

  lemma {:induction false} NonePresent(found: seq<Option<Record>>)
    requires forall i :: 0 <= i < |found| ==> found[i].None?
    ensures Present(found) == []
  {
    if found != [] {
      NonePresent(found[1..]);
    }
  }
}
