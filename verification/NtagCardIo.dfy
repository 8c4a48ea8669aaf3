/** Page I/O on a Type 2 card: reads come back honest or not at all, writes may silently fail. */
module NtagCardIo {
  import opened Bytes

  const PAGE_SIZE: nat := 4
  const USER_FIRST_PAGE: nat := 4

  /** Page numbers travel as one byte, so a card has at most 1024 addressable bytes. */
  const MEM_MAX: nat := 1024

  /** The sixteen bytes a READ of this page answers; past the last page it starts over. */
  function ReadAnswer(mem: bytes, page: nat): (b: bytes)
    requires |mem| > 0
    ensures |b| == 16
  {
    seq(16, i => mem[(4 * (page % 256) + i) % |mem|])
  }

  /** The memory after four bytes were written at `at`. */
  function Patched(mem: bytes, at: nat, data: bytes): (m: bytes)
    requires |data| == 4 && at + 4 <= |mem|
    ensures |m| == |mem| && m[at..at + 4] == data
    ensures forall k :: 0 <= k < |mem| && !(at <= k < at + 4) ==> m[k] == mem[k]
  {
    mem[..at] + data + mem[at + 4..]
  }

  /** The reader with one card in its field; over a steady link every command is carried out. */
  class Reader {
    const steady: bool
    var mem: bytes

    constructor (mem: bytes, steady: bool)
      ensures this.mem == mem && this.steady == steady
    {
      this.mem, this.steady := mem, steady;
    }

    /** READ: unanswered, refused with no data, or the card's bytes. */
    method TransceiveRead(page: nat) returns (answered: bool, resp: bytes)
      ensures answered && |resp| >= 16 ==> 4 * (page % 256) < |mem| && resp == ReadAnswer(mem, page)
      ensures steady && 4 * (page % 256) < |mem| ==> answered && |resp| >= 16
    {
      answered, resp := steady, [];
      if * {
        answered := true;
      }
      if answered && 4 * (page % 256) < |mem| {
        if * {
          resp := ReadAnswer(mem, page);
        } else if steady {
          resp := ReadAnswer(mem, page);
        }
      }
    }

    /** WRITE: no answer tells whether the four bytes landed. */
    method TransceiveWrite(page: nat, data: bytes)
      requires |data| == 4
      modifies this
      ensures |mem| == |old(mem)|
      ensures mem == old(mem) || (4 * (page % 256) + 4 <= |mem| && mem == Patched(old(mem), 4 * (page % 256), data))
      ensures steady && 4 * (page % 256) + 4 <= |mem| ==> mem == Patched(old(mem), 4 * (page % 256), data)
    {
      var lands := steady;
      if * {
        lands := true;
      }
      if lands && 4 * (page % 256) + 4 <= |mem| {
        mem := Patched(mem, 4 * (page % 256), data);
      }
    }
  }

  method ReadFourPages(reader: Reader, page: nat) returns (ok: bool, out: bytes)
    ensures ok ==> 4 * (page % 256) < |reader.mem| && out == ReadAnswer(reader.mem, page)
    ensures reader.steady && 4 * (page % 256) < |reader.mem| ==> ok
  {
    var answered, resp := reader.TransceiveRead(page);
    if !answered || |resp| < 16 {
      return false, [];
    }
    return true, resp[..16];
  }

  // ---- Where a read looks ----

  /** The byte a read from `page` on finds at offset `k`: page numbers wrap at 256, memory rolls over. */
  function Spot(size: nat, page: nat, k: nat): (at: nat)
    requires size > 0
    ensures at < size
  {
    (4 * ((page + 4 * (k / 16)) % 256) + k % 16) % size
  }

  /** What a read of `len` bytes from `page` on finds. */
  function Rolled(mem: bytes, page: nat, len: nat): (b: bytes)
    requires mem != []
    ensures |b| == len
  {
    seq(len, k requires 0 <= k < len => mem[Spot(|mem|, page, k)])
  }

  /** A range that lies on the card, addressable by one byte. */
  predicate InRange(mem: bytes, page: nat, len: nat) {
    4 * page + len <= |mem| <= MEM_MAX
  }

  lemma SmallMod(a: nat, b: nat)
    requires a < b
    ensures a % b == a
  {
  }

  lemma SpotInRange(size: nat, page: nat, k: nat)
    requires 4 * page + k < size <= MEM_MAX
    ensures Spot(size, page, k) == 4 * page + k
  {
    SmallMod(page + 4 * (k / 16), 256);
    SmallMod(4 * page + k, size);
  }

  /** On the card, a read finds exactly the addressed bytes. */
  lemma RolledInRange(mem: bytes, page: nat, len: nat)
    requires mem != [] && InRange(mem, page, len)
    ensures Rolled(mem, page, len) == mem[4 * page..4 * page + len]
  {
    forall k | 0 <= k < len
      ensures Rolled(mem, page, len)[k] == mem[4 * page..4 * page + len][k]
    {
      SpotInRange(|mem|, page, k);
    }
  }

  /** The part of an answer that is kept is the next stretch of the read. */
  lemma AnswerIsRolled(mem: bytes, page: nat, len: nat, done: nat, take: nat)
    requires mem != [] && done % 16 == 0 && take <= 16 && done + take <= len
    ensures ReadAnswer(mem, page + done / 4)[..take] == Rolled(mem, page, len)[done..done + take]
  {
    var answer, found := ReadAnswer(mem, page + done / 4)[..take], Rolled(mem, page, len)[done..done + take];
    forall i | 0 <= i < take
      ensures answer[i] == found[i]
    {
      SameChunk(done, i);
    }
  }

  lemma SameChunk(done: nat, i: nat)
    requires done % 16 == 0 && i < 16
    ensures (done + i) / 16 == done / 16 && (done + i) % 16 == i && done / 4 == 4 * (done / 16)
  {
  }

  // ---- Reading and writing ----

  /** Fills the buffer from `page` on, sixteen bytes at a time, a partial last chunk included. */
  method ReadPages(reader: Reader, page: nat, out: array<uint8>) returns (ok: bool)
    modifies out
    ensures ok ==> out.Length > 0 && out.Length % PAGE_SIZE == 0
    ensures ok ==> reader.mem != [] && out[..] == Rolled(reader.mem, page, out.Length)
    ensures ok && InRange(reader.mem, page, out.Length) ==> out[..] == reader.mem[4 * page..4 * page + out.Length]
    ensures reader.steady && InRange(reader.mem, page, out.Length) && out.Length > 0 && out.Length % PAGE_SIZE == 0 ==> ok
  {
    if out.Length == 0 || out.Length % PAGE_SIZE != 0 {
      return false;
    }
    var done, current := 0, page;
    while done < out.Length
      invariant done <= out.Length && (done % 16 == 0 || done == out.Length)
      invariant done < out.Length ==> current == page + done / 4
      invariant done > 0 ==> reader.mem != []
      invariant reader.mem != [] ==> out[..done] == Rolled(reader.mem, page, out.Length)[..done]
    {
      var got, take := ReadChunk(reader, page, current, out, done);
      if !got {
        return false;
      }
      NextChunk(done, take, out.Length);
      done := done + take;
      current := current + 4;
    }
    if InRange(reader.mem, page, out.Length) {
      RolledInRange(reader.mem, page, out.Length);
    }
    assert out[..] == out[..done];
    return true;
  }

  lemma NextChunk(done: nat, take: nat, len: nat)
    requires done % 16 == 0 && done < len && take == Min(16, len - done)
    ensures done + take == len || ((done + take) % 16 == 0 && (done + take) / 4 == done / 4 + 4)
  {
  }

  /** One READ into the buffer: sixteen bytes, or what is left to read. */
  method ReadChunk(reader: Reader, page: nat, current: nat, out: array<uint8>, done: nat) returns (ok: bool, take: nat)
    requires done < out.Length && done % 16 == 0 && current == page + done / 4
    requires reader.mem != [] ==> out[..done] == Rolled(reader.mem, page, out.Length)[..done]
    modifies out
    ensures reader.steady && InRange(reader.mem, page, out.Length) ==> ok
    ensures ok ==> take == Min(16, out.Length - done)
    ensures ok ==> reader.mem != [] && out[..done + take] == Rolled(reader.mem, page, out.Length)[..done + take]
  {
    var before := out[..done];
    var buf;
    take := Min(16, out.Length - done);
    if InRange(reader.mem, page, out.Length) {
      SmallMod(current, 256);
    }
    ok, buf := ReadFourPages(reader, current);
    if ok {
      AnswerIsRolled(reader.mem, page, out.Length, done, take);
      CopyInto(out, done, buf[..take]);
      assert out[..done] == before;
      Joined(out[..], Rolled(reader.mem, page, out.Length), done, done + take);
    }
  }

  lemma Joined(out: bytes, wanted: bytes, done: nat, next: nat)
    requires done <= next <= |out| == |wanted|
    requires out[..done] == wanted[..done] && out[done..next] == wanted[done..next]
    ensures out[..next] == wanted[..next]
  {
    assert out[..next] == out[..done] + out[done..next];
    assert wanted[..next] == wanted[..done] + wanted[done..next];
  }

  /** memcpy into the buffer at `at`. */
  method CopyInto(out: array<uint8>, at: nat, data: bytes)
    requires at + |data| <= out.Length
    modifies out
    ensures out[at..at + |data|] == data
    ensures forall k :: 0 <= k < out.Length && !(at <= k < at + |data|) ==> out[k] == old(out[k])
  {
    forall k | 0 <= k < |data| {
      out[at + k] := data[k];
    }
  }

  /** The byte at `k` is on the page the `j`-th write from `page` on addresses. */
  predicate OnPage(page: nat, j: nat, k: nat) {
    k / 4 == (page + j) % 256
  }

  /** Some write of `len` bytes from `page` on addresses the byte at `k`. */
  ghost predicate Addressed(page: nat, len: nat, k: nat) {
    exists j: nat | 4 * j < len :: OnPage(page, j, k)
  }

  /** Without a wrap of the page number those are the bytes of the range. */
  lemma AddressedIff(page: nat, len: nat, k: nat)
    requires len % 4 == 0 && 4 * page + len <= MEM_MAX
    ensures Addressed(page, len, k) <==> 4 * page <= k < 4 * page + len
  {
    if j: nat :| 4 * j < len && OnPage(page, j, k) {
      SmallMod(page + j, 256);
    }
    if 4 * page <= k < 4 * page + len {
      SmallMod(k / 4, 256);
      assert OnPage(page, k / 4 - page, k);
    }
  }

  /** One more page in place behind those already written. */
  lemma PageAdded(mem: bytes, data: bytes, page: nat, done: nat)
    requires done + 4 <= |data| && 4 * page + |data| <= |mem|
    requires mem[4 * page..4 * page + done] == data[..done]
    ensures Patched(mem, 4 * page + done, data[done..done + 4])[4 * page..4 * page + done + 4] == data[..done + 4]
  {
  }

  lemma WholePage(done: nat, len: nat)
    requires done < len && done % 4 == 0 && len % 4 == 0
    ensures done + 4 <= len
  {
  }

  /**
   * Writes page by page, then reads the range back. A true result means the next read finds the
   * data, and over a steady link that is the result for a range on the card; bytes no write
   * addresses are untouched either way.
   */
  method WritePages(reader: Reader, page: nat, data: bytes) returns (ok: bool)
    modifies reader
    ensures |reader.mem| == |old(reader.mem)|
    ensures forall k :: 0 <= k < |reader.mem| && !Addressed(page, |data|, k) ==> reader.mem[k] == old(reader.mem)[k]
    ensures ok ==> |data| > 0 && reader.mem != [] && Rolled(reader.mem, page, |data|) == data
    ensures ok && InRange(reader.mem, page, |data|) ==> reader.mem[4 * page..4 * page + |data|] == data
    ensures reader.steady && InRange(reader.mem, page, |data|) && |data| > 0 && |data| % PAGE_SIZE == 0 ==> ok
  {
    if |data| == 0 || |data| % PAGE_SIZE != 0 {
      return false;
    }
    ghost var start := reader.mem;
    var current, done := page, 0;
    while done < |data|
      invariant current >= page && done == 4 * (current - page) <= |data|
      invariant |reader.mem| == |start|
      invariant forall k :: 0 <= k < |reader.mem| && !Addressed(page, |data|, k) ==> reader.mem[k] == start[k]
      invariant reader.steady && InRange(reader.mem, page, |data|) ==> reader.mem[4 * page..4 * page + done] == data[..done]
    {
      WholePage(done, |data|);
      WriteOnePage(reader, page, current - page, data);
      done := done + PAGE_SIZE;
      current := current + 1;
    }
    var verify := new uint8[|data|];
    ok := ReadPages(reader, page, verify);
    if ok && verify[..] != data {
      return false;
    }
  }

  /** The `j`-th page of the data. */
  method WriteOnePage(reader: Reader, page: nat, j: nat, data: bytes)
    requires 4 * j + 4 <= |data|
    modifies reader
    ensures |reader.mem| == |old(reader.mem)|
    ensures forall k :: 0 <= k < |reader.mem| && !OnPage(page, j, k) ==> reader.mem[k] == old(reader.mem)[k]
    ensures reader.steady && InRange(reader.mem, page, |data|) && old(reader.mem)[4 * page..4 * page + 4 * j] == data[..4 * j] ==>
              reader.mem[4 * page..4 * page + 4 * j + 4] == data[..4 * j + 4]
  {
    ghost var before := reader.mem;
    reader.TransceiveWrite(page + j, data[4 * j..4 * j + 4]);
    if InRange(before, page, |data|) && before[4 * page..4 * page + 4 * j] == data[..4 * j] {
      SmallMod(page + j, 256);
      PageAdded(before, data, page, 4 * j);
    }
  }
}
