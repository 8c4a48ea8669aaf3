/** The teaching half of NfcManager: the arming, the card write, and the tap that follows. */
module NfcTeaching {
  import opened Bytes
  import opened GuestSpec
  import opened TeachSpec
  import Aead
  import GuestTags
  import GuestTheorems
  import NtagCardIo

  /** The record with the card's UID copied over the front of its UID field. */
  function Bound(rec: Record, uid: bytes): (bound: Record)
    requires 0 < |uid| <= UID_MAX
    ensures GuestTheorems.BoundTo(rec, bound, uid)
  {
    rec.(uidLen := |uid|, uid := uid + rec.uid[|uid|..])
  }

  /** The payload area as a read finds it; on a card that has one it is bytes 16 to 95. */
  function CardPayload(mem: bytes): bytes {
    if mem == [] then [] else NtagCardIo.Rolled(mem, NtagCardIo.USER_FIRST_PAGE, PAYLOAD_LEN)
  }

  lemma PayloadOnCard(mem: bytes)
    requires 96 <= |mem| <= NtagCardIo.MEM_MAX
    ensures CardPayload(mem) == mem[16..96]
  {
    NtagCardIo.RolledInRange(mem, NtagCardIo.USER_FIRST_PAGE, PAYLOAD_LEN);
  }

  /** The card has the whole payload area. */
  predicate Roomy(mem: bytes) {
    NtagCardIo.InRange(mem, NtagCardIo.USER_FIRST_PAGE, PAYLOAD_LEN)
  }

  class NfcManager {
    const guests: GuestTags.GuestTagManager
    const reader: NtagCardIo.Reader
    const canWrite: bool
    var writeArmed: bool
    var armedWrite: Record
    var deadlineMs: uint32
    var lastResult: LastResult
    var guestTaps: seq<(Verdict, Record)>
    var genericTaps: seq<bytes>

    ghost function Shared(): Desk<Record>
      reads this
    {
      Desk(if writeArmed then Some(armedWrite) else None, deadlineMs, lastResult)
    }

    constructor (guests: GuestTags.GuestTagManager, reader: NtagCardIo.Reader, canWrite: bool)
      ensures this.guests == guests && this.reader == reader && this.canWrite == canWrite
      ensures Shared() == Desk(None, 0, NoResult) && guestTaps == [] && genericTaps == []
    {
      guestTaps, genericTaps := [], [];
      this.guests, this.reader, this.canWrite := guests, reader, canWrite;
      writeArmed, armedWrite, deadlineMs, lastResult := false, ZERO, 0, NoResult;
    }

    method ArmGuestWrite(rec: Record, timeout: uint32, now: uint32) returns (ok: bool)
      modifies this
      ensures canWrite ==> (Shared(), ok) == ArmDesk(old(Shared()), rec, now, timeout)
      ensures !canWrite ==> !ok && Shared() == old(Shared()).(result := Unsupported)
    {
      if !canWrite {
        lastResult := Unsupported;
        return false;
      }
      if writeArmed {
        return false;
      }
      armedWrite := rec;
      writeArmed := true;
      var hold: int := if timeout == 0 then 60 else timeout;
      deadlineMs := ((now as int) + hold * 1000) % 0x1_0000_0000;
      lastResult := Armed;
      return true;
    }

    method TakeArmedGuestWrite() returns (out: Option<Record>)
      modifies this
      ensures (Shared(), out) == TakeDesk(old(Shared()))
    {
      if !writeArmed {
        return None;
      }
      out := Some(armedWrite);
      writeArmed := false;
      deadlineMs := 0;
    }

    method CancelGuestWrite() returns (had: bool)
      modifies this
      ensures (Shared(), had) == CancelDesk(old(Shared()))
    {
      had := writeArmed;
      writeArmed := false;
      deadlineMs := 0;
      if had {
        lastResult := Cancelled;
      }
    }

    method ClearArmedGuestWrite(result: LastResult)
      modifies this`writeArmed, this`deadlineMs, this`lastResult
      ensures Shared() == ClearDesk(old(Shared()), result)
    {
      writeArmed := false;
      deadlineMs := 0;
      lastResult := result;
    }

    method ExpireGuestWrite(now: uint32)
      modifies this
      ensures Shared() == ExpireDesk(old(Shared()), now)
    {
      if writeArmed && deadlineMs != 0 && now > deadlineMs {
        writeArmed := false;
        deadlineMs := 0;
        lastResult := TimedOut;
      }
    }

    /**
     * Writes the armed record to the card in the field and commits it. `userBytes` is what identify
     * found, None when the card was not a Type 2 tag. The record is committed only once the card
     * verifiably carries its payload, and success is reported only once it is committed; over a
     * steady link, on a card with room, nothing but the identification, the UID and the commit
     * decides the outcome. What the card claims of its size is not trusted.
     */
    method HandleGuestWrite(rec: Record, uid: bytes, userBytes: Option<nat>, nonce: bytes, luck: SaveLuck)
      returns (success: bool, ghost committed: Record)
      requires guests.Valid() && |nonce| == Aead.NONCE_LEN && Aead.Lawful(guests.c.aead)
      modifies this`writeArmed, this`deadlineMs, this`lastResult, guests, guests.tags, reader
      ensures guests.Valid() && |reader.mem| == |old(reader.mem)|
      ensures Shared() == ClearDesk(old(Shared()), if success then Success else Failed)
      ensures guests.State() != old(guests.State()) || success ==>
                && GuestTheorems.BoundTo(rec, committed, uid)
                && (guests.State(), success) == Commit(old(guests.State()), committed, luck)
                && Some(CardPayload(reader.mem)) == Build(guests.c, rec, uid, nonce)
      ensures reader.steady && Roomy(reader.mem) ==>
                (success <==> canWrite && userBytes.Some? && userBytes.value >= PAYLOAD_LEN && 0 < |uid| <= UID_MAX
                              && Commit(old(guests.State()), committed, luck).1)
      ensures committed == if 0 < |uid| <= UID_MAX then Bound(rec, uid) else rec
      ensures forall k :: 0 <= k < |reader.mem| && !(16 <= k < 96) ==> reader.mem[k] == old(reader.mem)[k]
    {
      forall k: nat
        ensures NtagCardIo.Addressed(NtagCardIo.USER_FIRST_PAGE, PAYLOAD_LEN, k) <==> 16 <= k < 96
      {
        NtagCardIo.AddressedIff(NtagCardIo.USER_FIRST_PAGE, PAYLOAD_LEN, k);
      }
      committed := if 0 < |uid| <= UID_MAX then Bound(rec, uid) else rec;
      success := false;
      if !canWrite || userBytes.None? || userBytes.value < PAYLOAD_LEN || uid == [] || |uid| > UID_MAX {
        ClearArmedGuestWrite(Failed);
        return;
      }
      var payload := Payload(guests.c, rec, uid, nonce);
      var written := NtagCardIo.WritePages(reader, NtagCardIo.USER_FIRST_PAGE, payload);
      if !written {
        ClearArmedGuestWrite(Failed);
        return;
      }
      success := guests.CommitTag(Bound(rec, uid), luck);
      if !success {
        ClearArmedGuestWrite(Failed);
        return;
      }
      ClearArmedGuestWrite(Success);
    }

    /** The payload area of the card that answers the poll. */
    method ReadGuestPayload(present: bool) returns (got: bool, payload: bytes)
      ensures got ==> payload == CardPayload(reader.mem)
      ensures reader.steady && Roomy(reader.mem) ==> (got <==> canWrite && present)
    {
      if !canWrite || !present {
        return false, [];
      }
      var buffer := new uint8[PAYLOAD_LEN];
      got := NtagCardIo.ReadPages(reader, NtagCardIo.USER_FIRST_PAGE, buffer);
      payload := buffer[..];
    }

    /**
     * A tap that is not a HomeKey: the card's payload, if the table holds records and it can be
     * read, and the table's verdict on it. `present` is whether the card answers the poll before
     * the read. A verdict on a known card is announced with its record; anything but an accepted
     * tap goes on as a generic tag.
     */
    method HandleGuestTap(uid: bytes, present: bool, now: uint32, luck: SaveLuck) returns (verdict: Option<Verdict>)
      requires guests.Valid()
      modifies this`guestTaps, this`genericTaps, guests, guests.tags
      ensures guests.Valid()
      ensures verdict.Some? ==> verdict.value == Verify(guests.c, old(guests.State().table), uid, CardPayload(reader.mem), now)
      ensures reader.steady && Roomy(reader.mem) ==> (verdict.Some? <==> old(guests.count) > 0 && canWrite && present)
      ensures verdict != Some(Accepted) ==> guests.State() == old(guests.State())
      ensures verdict == Some(Accepted) ==>
                var t := old(guests.State().table);
                ByUid(t.tags, uid) < |t.tags|
                && guests.State() == MarkUsed(old(guests.State()), t.tags[ByUid(t.tags, uid)].tagRaw, now, luck)
      ensures genericTaps == old(genericTaps) + if verdict == Some(Accepted) then [] else [uid]
      ensures var tags := old(guests.State().table.tags);
              if verdict.None? || verdict.value == NoRecord then guestTaps == old(guestTaps)
              else ByUid(tags, uid) < |tags| && guestTaps == old(guestTaps) + [(verdict.value, tags[ByUid(tags, uid)])]
    {
      verdict := None;
      if guests.count > 0 {
        var got, payload := ReadGuestPayload(present);
        if got {
          var v, record := guests.VerifyTap(uid, payload, now);
          verdict := Some(v);
          if v != NoRecord {
            guestTaps := guestTaps + [(v, record.value)];
            if v == Accepted {
              guests.MarkTagUsed(record.value.tagRaw, now, luck);
              return;
            }
          }
        }
      }
      genericTaps := genericTaps + [uid];
    }
  }

  /**
   * A card is taught and then tapped, its memory and the table untouched in between. Whatever else
   * the table holds and whatever the card claims of its size, the tap is accepted exactly when guest
   * access and the record are enabled and the time is in the record's window; over a steady link to
   * a card with room there is always a verdict.
   */
  method TeachAndTap(nfc: NfcManager, rec: Record, uid: bytes, userBytes: Option<nat>, nonce: bytes, luck: SaveLuck,
                     now: uint32, tapLuck: SaveLuck)
    returns (taught: bool, verdict: Option<Verdict>)
    requires nfc.guests.Valid() && |nonce| == Aead.NONCE_LEN && Aead.Lawful(nfc.guests.c.aead)
    modifies nfc, nfc.guests, nfc.guests.tags, nfc.reader
    ensures nfc.guests.Valid()
    ensures taught && verdict.Some? ==>
              (verdict.value == Accepted <==>
                 old(nfc.guests.globalEnabled) && rec.enabled != 0 && GuestTheorems.InWindow(rec, now))
    ensures taught && nfc.reader.steady && Roomy(nfc.reader.mem) ==> verdict.Some?
  {
    ghost var before := nfc.guests.State();
    ghost var committed;
    taught, committed := nfc.HandleGuestWrite(rec, uid, userBytes, nonce, luck);
    verdict := None;
    if taught {
      GuestTheorems.TeachThenTap(nfc.guests.c, before, rec, committed, uid, nonce, luck, now);
      GuestTheorems.CommittedIsFound(before, committed, uid, luck);
      verdict := nfc.HandleGuestTap(uid, true, now, tapLuck);
    }
  }
}
