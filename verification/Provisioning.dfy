/** One-time provisioning codes: an unbiased draw, and a code that is consumed once. */
module Provisioning {
  import opened Bytes

  const ALPHABET: string := "abcdefghijkmnopqrstuvwxyzABCDEFGHJKLMNPQRSTUVWXYZ23456789"
  const ALPHABET_SIZE: nat := 57
  const CODE_LENGTH: nat := 8

  // ---- Drawing a code ----

  lemma AlphabetSize()
    ensures |ALPHABET| == ALPHABET_SIZE
  {
  }

  /** Bytes at or above the largest multiple of 57 are thrown away. */
  predicate Usable(b: uint8) {
    b < 256 - 256 % ALPHABET_SIZE
  }

  /** Every glyph is drawn by exactly four byte values, so the draw is unbiased. */
  lemma FourBytesPerGlyph(glyph: nat)
    requires glyph < ALPHABET_SIZE
    ensures (set b: int | 0 <= b < 256 && Usable(b) && b % ALPHABET_SIZE == glyph)
            == {glyph, glyph + 57, glyph + 114, glyph + 171}
    ensures |set b: int | 0 <= b < 256 && Usable(b) && b % ALPHABET_SIZE == glyph| == 4
  {
  }

  /** The glyphs a stream of random bytes yields. */
  function Glyphs(stream: bytes): string {
    if stream == [] then []
    else
      var n := |stream| - 1;
      AlphabetSize();
      Glyphs(stream[..n]) + if Usable(stream[n]) then [ALPHABET[stream[n] % ALPHABET_SIZE]] else []
  }

  /**
   * Draws buffers of 32 random bytes until eight glyphs are there: the code is the first eight
   * glyphs of the stream. `ok` is false when the given stream runs out first.
   */
  method DrawCode(stream: bytes) returns (ok: bool, code: string)
    ensures |code| <= CODE_LENGTH && (ok <==> |code| == CODE_LENGTH)
    ensures exists used: nat :: used <= |stream| && code == Glyphs(stream[..used]) && (!ok ==> |stream| - used < 32)
  {
    code := [];
    var used := 0;
    while |code| < CODE_LENGTH && |stream| - used >= 32
      invariant used <= |stream| && |code| <= CODE_LENGTH && code == Glyphs(stream[..used])
      decreases |stream| - used
    {
      var buffer := stream[used..used + 32];
      var start := used;
      for i := 0 to 32
        invariant used == start + i && used <= |stream| && |code| < CODE_LENGTH && code == Glyphs(stream[..used])
      {
        AlphabetSize();
        assert stream[..used + 1][..used] == stream[..used] && stream[used] == buffer[i];
        var byte := buffer[i];
        used := used + 1;
        if byte >= 256 - 256 % ALPHABET_SIZE {
          continue;
        }
        code := code + [ALPHABET[byte % ALPHABET_SIZE]];
        if |code| == CODE_LENGTH {
          break;
        }
      }
    }
    ok := |code| == CODE_LENGTH;
  }

  /**
   * A drawn byte gives the glyph at its remainder by 57, or nothing from 228 on; the code of a whole
   * draw is what its usable bytes give, in order.
   */
  lemma GlyphOf(stream: bytes, b: uint8)
    ensures |ALPHABET| == 57
    ensures Glyphs(stream + [b]) == Glyphs(stream) + if b < 228 then [ALPHABET[b % 57]] else []
  {
    AlphabetSize();
    assert (stream + [b])[..|stream|] == stream;
  }

  // ---- The life of a code ----

  datatype Record = Record(hash: bytes, expiry: nat, used: bool)

  /** The three NVS values of a record, each absent or set. */
  datatype Flash = Flash(hash: Option<bytes>, expiry: Option<nat>, used: Option<bool>)

  datatype State = State(ram: Record, flash: Flash)

  /** Nothing stored yet counts as used. */
  const BLANK: Record := Record([], 0, true)
  const NOTHING: Flash := Flash(None, None, None)

  /** Where a save stops: after `writes` of its three writes, and whether the commit then succeeds. */
  datatype Fault = Fault(writes: nat, commitOk: bool)

  /** Times are uptime seconds. */
  datatype Step =
    | Issue(code: string, now: nat, ttl: uint32, fault: Fault)
    | Validate(code: string, now: nat, fault: Fault)
    | Reboot

  /** An empty hash is erased rather than stored. */
  function HashBlob(hash: bytes): Option<bytes> {
    if hash == [] then None else Some(hash)
  }

  /** Flash after the writes that landed: hash, then expiry, then the flag. */
  function SavedFlash(r: Record, f: Flash, fault: Fault): Flash {
    Flash(if fault.writes >= 1 then HashBlob(r.hash) else f.hash,
          if fault.writes >= 2 then Some(r.expiry) else f.expiry,
          if fault.writes >= 3 then Some(r.used) else f.used)
  }

  /** Every write landed. */
  predicate Landed(fault: Fault) {
    fault.writes >= 3
  }

  /** Boot: without a flag nothing is looked at. */
  function Load(f: Flash): Record {
    if f.used.None? then BLANK
    else Record(if f.hash.Some? then f.hash.value else [], if f.expiry.Some? then f.expiry.value else 0, f.used.value)
  }

  function Persist(s: State, r: Record, fault: Fault): State {
    State(r, SavedFlash(r, s.flash, fault))
  }

  predicate Outstanding(r: Record) {
    !r.used && r.hash != []
  }

  predicate Valid(h: string -> bytes, s: State, code: string, now: nat) {
    Outstanding(s.ram) && now <= s.ram.expiry && h(code) == s.ram.hash
  }

  function Next(h: string -> bytes, s: State, step: Step): State {
    match step
    case Issue(code, now, ttl, fault) => Persist(s, Record(h(code), now + (ttl as int), false), fault)
    case Validate(code, now, fault) =>
      if !Outstanding(s.ram) then s
      else if now > s.ram.expiry || h(code) == s.ram.hash then Persist(s, s.ram.(used := true), fault)
      else s
    case Reboot => State(Load(s.flash), s.flash)
  }

  ghost predicate Run(h: string -> bytes, states: seq<State>, steps: seq<Step>) {
    && |states| == |steps| + 1 && states[0] == State(BLANK, NOTHING)
    && forall i :: 0 <= i < |steps| ==> states[i + 1] == Next(h, states[i], steps[i])
  }

  /** No two codes share a hash, and no hash is empty. */
  ghost predicate IdealHash(h: string -> bytes) {
    (forall a, b :: h(a) == h(b) ==> a == b) && (forall a :: h(a) != [])
  }

  predicate Persisted(step: Step) {
    (step.Issue? ==> Landed(step.fault)) && (step.Validate? ==> Landed(step.fault))
  }

  /** Step `i` is a validation that succeeds. */
  ghost predicate Succeeds(h: string -> bytes, states: seq<State>, steps: seq<Step>, i: nat)
    requires |states| == |steps| + 1 && i < |steps|
  {
    steps[i].Validate? && Valid(h, states[i], steps[i].code, steps[i].now)
  }

  /** Step `k` is the latest issue before step `n`. */
  predicate LatestIssue(steps: seq<Step>, k: nat, n: nat) {
    k < n <= |steps| && steps[k].Issue? && forall m :: k < m < n ==> !steps[m].Issue?
  }

  /** The outstanding code is the latest issued, unused since, and expires when it was meant to. */
  ghost predicate Tracks(h: string -> bytes, states: seq<State>, steps: seq<Step>, n: nat)
    requires |states| == |steps| + 1 && n <= |steps|
  {
    && states[n].ram == Load(states[n].flash)
    && (Outstanding(states[n].ram) ==>
          exists k: nat :: LatestIssue(steps, k, n)
            && states[n].ram == Record(h(steps[k].code), steps[k].now + (steps[k].ttl as int), false)
            && forall m :: k < m < n ==> !Succeeds(h, states, steps, m))
  }

  lemma TracksStep(h: string -> bytes, states: seq<State>, steps: seq<Step>, n: nat)
    requires Run(h, states, steps) && n < |steps| && Tracks(h, states, steps, n) && Persisted(steps[n])
    ensures Tracks(h, states, steps, n + 1)
  {
  }

  lemma {:induction false} RunTracks(h: string -> bytes, states: seq<State>, steps: seq<Step>, n: nat)
    requires Run(h, states, steps) && n <= |steps| && forall i :: 0 <= i < |steps| ==> Persisted(steps[i])
    ensures Tracks(h, states, steps, n)
    decreases n
  {
    if n > 0 {
      RunTracks(h, states, steps, n - 1);
      TracksStep(h, states, steps, n - 1);
    }
  }

  /**
   * A validation succeeds only with the latest issued code, before its expiry, and only if no
   * validation has succeeded since that issue.
   */
  lemma OnlyTheLatestOnce(h: string -> bytes, states: seq<State>, steps: seq<Step>, n: nat)
    requires Run(h, states, steps) && IdealHash(h) && forall i :: 0 <= i < |steps| ==> Persisted(steps[i])
    requires n < |steps| && Succeeds(h, states, steps, n)
    ensures exists k: nat :: LatestIssue(steps, k, n) && steps[n].code == steps[k].code
                     && steps[n].now <= steps[k].now + (steps[k].ttl as int)
                     && forall m :: k < m < n ==> !Succeeds(h, states, steps, m)
  {
    RunTracks(h, states, steps, n);
    var k: nat :| LatestIssue(steps, k, n)
      && states[n].ram == Record(h(steps[k].code), steps[k].now + (steps[k].ttl as int), false)
      && forall m :: k < m < n ==> !Succeeds(h, states, steps, m);
    assert h(steps[n].code) == h(steps[k].code);
  }

  /**
   * Single use, whatever happens to every other save: after a success whose own save landed, no
   * validation succeeds again before another code is issued.
   */
  lemma SingleUse(h: string -> bytes, states: seq<State>, steps: seq<Step>, i: nat, j: nat)
    requires Run(h, states, steps) && i < j < |steps|
    requires Succeeds(h, states, steps, i) && Landed(steps[i].fault) && Succeeds(h, states, steps, j)
    ensures exists k :: i < k < j && steps[k].Issue?
  {
    if forall k :: i < k < j ==> !steps[k].Issue? {
      Spent(h, states, steps, i, j);
    }
  }

  /** Until the next issue a consumed code stays consumed, in RAM and on flash. */
  lemma {:induction false} Spent(h: string -> bytes, states: seq<State>, steps: seq<Step>, i: nat, n: nat)
    requires Run(h, states, steps) && i < n <= |steps|
    requires Succeeds(h, states, steps, i) && Landed(steps[i].fault) && forall k :: i < k < n ==> !steps[k].Issue?
    ensures states[n].ram.used && states[n].flash.used == Some(true)
    decreases n
  {
    assert states[n] == Next(h, states[n - 1], steps[n - 1]);
    if n - 1 > i {
      Spent(h, states, steps, i, n - 1);
    }
  }

  /** A wrong guess is refused without consuming the code. */
  lemma WrongGuess(h: string -> bytes, s: State, guess: string, now: nat, fault: Fault)
    requires Outstanding(s.ram) && now <= s.ram.expiry && h(guess) != s.ram.hash
    ensures !Valid(h, s, guess, now) && Next(h, s, Validate(guess, now, fault)) == s
  {
  }

  /**
   * The result of persisting is not looked at when a code is consumed: after a success, the same
   * code succeeds again after a reboot exactly when the flag, the last of the three writes, did not
   * land and the new uptime has not passed the old expiry.
   */
  lemma ReuseAfterLostWrite(h: string -> bytes, s: State, code: string, now: nat, fault: Fault, later: nat)
    requires Valid(h, s, code, now) && s.ram == Load(s.flash)
    ensures Valid(h, Next(h, Next(h, s, Validate(code, now, fault)), Reboot), code, later)
            <==> !Landed(fault) && later <= s.ram.expiry
  {
  }

  /** One such run: the code is consumed at 10 with no write landing, and is good again after a reboot. */
  lemma ReusedCode(h: string -> bytes, code: string)
    requires h(code) != []
    ensures var issued := Next(h, State(BLANK, NOTHING), Issue(code, 0, 60, Fault(3, true)));
            var consumed := Next(h, issued, Validate(code, 10, Fault(0, false)));
            Valid(h, issued, code, 10) && !Valid(h, consumed, code, 10) && Valid(h, Next(h, consumed, Reboot), code, 5)
  {
  }

  /**
   * Which codes a torn issue leaves good after a reboot. With no write landed, those that flash held.
   * Otherwise at most the new code, and only when all three writes landed or the flag on flash still
   * says unused; a torn one runs to the old expiry until the new one is written. So a torn issue
   * revives nothing where nothing was outstanding, and never an older code.
   */
  lemma TornIssueIff(h: string -> bytes, s: State, code: string, now: nat, ttl: uint32, fault: Fault, c: string, later: nat)
    requires h(code) != []
    ensures var before := Load(s.flash);
            Valid(h, Next(h, Next(h, s, Issue(code, now, ttl, fault)), Reboot), c, later) <==>
              if fault.writes == 0 then Valid(h, State(before, s.flash), c, later)
              else
                && h(c) == h(code) && (Landed(fault) || s.flash.used == Some(false))
                && later <= if fault.writes >= 2 then now + (ttl as int) else before.expiry
  {
  }

  /** After an issue, exactly the issued code is good, from then to the end of its time and no longer. */
  lemma IssuedIsValid(h: string -> bytes, s: State, code: string, now: nat, ttl: uint32, fault: Fault, guess: string, later: nat)
    requires IdealHash(h)
    ensures Valid(h, Next(h, s, Issue(code, now, ttl, fault)), guess, later) <==> guess == code && later <= now + ttl
  {
  }

  /** A success consumes the code, and so does any attempt after its time; then nothing is good until the next issue. */
  lemma AttemptConsumes(h: string -> bytes, s: State, code: string, now: nat, fault: Fault, guess: string, later: nat)
    requires Valid(h, s, code, now) || now > s.ram.expiry
    ensures !Valid(h, Next(h, s, Validate(code, now, fault)), guess, later)
  {
  }

  /** Boot: the three values of flash, nothing at all without the flag, and no time and no code where one is missing. */
  lemma BootReads(f: Flash)
    ensures f.used == None ==> Load(f) == Record([], 0, true)
    ensures f.used != None ==>
              && Load(f).used == f.used.value
              && Load(f).hash == (match f.hash case Some(hash) => hash case None => [])
              && Load(f).expiry == (match f.expiry case Some(expiry) => expiry case None => 0)
  {
  }

  /** Without a stored hash no code is good, whatever the flag and the time say. */
  lemma NoHashNoSuccess(h: string -> bytes, f: Flash, code: string, now: nat)
    requires f.hash == None
    ensures !Valid(h, State(Load(f), f), code, now)
  {
  }

  class ProvisioningManager {
    const h: string -> bytes
    var codeHash: bytes
    var expirySeconds: nat
    var used: bool
    var flash: Flash

    ghost function Fields(): State
      reads this
    {
      State(Record(codeHash, expirySeconds, used), flash)
    }

    /** Boot over whatever is stored. */
    constructor (h: string -> bytes, flash: Flash)
      ensures this.h == h && Fields() == State(Load(flash), flash)
    {
      this.h, this.flash := h, flash;
      codeHash, expirySeconds, used := [], 0, true;
      if flash.used.Some? {
        used := flash.used.value;
        if flash.expiry.Some? {
          expirySeconds := flash.expiry.value;
        }
        if flash.hash.Some? {
          codeHash := flash.hash.value;
        }
      }
    }

    /** Three writes and a commit; the first that fails ends it. */
    method PersistRecord(fault: Fault) returns (ok: bool)
      modifies this`flash
      ensures Fields() == Persist(old(Fields()), old(Fields()).ram, fault)
      ensures ok <==> Landed(fault) && fault.commitOk
    {
      if fault.writes < 1 {
        return false;
      }
      flash := flash.(hash := HashBlob(codeHash));
      if fault.writes < 2 {
        return false;
      }
      flash := flash.(expiry := Some(expirySeconds));
      if fault.writes < 3 {
        return false;
      }
      flash := flash.(used := Some(used));
      return fault.commitOk;
    }

    /** The code is handed out only when its record was persisted. */
    method IssueCode(code: string, now: nat, ttl: uint32, fault: Fault) returns (out: Option<string>)
      modifies this
      ensures Fields() == Next(h, old(Fields()), Issue(code, now, ttl, fault))
      ensures out == if Landed(fault) && fault.commitOk then Some(code) else None
    {
      codeHash := h(code);
      expirySeconds := now + (ttl as int);
      used := false;
      var persisted := PersistRecord(fault);
      return if persisted then Some(code) else None;
    }

    method ValidateAndConsume(code: string, now: nat, fault: Fault) returns (ok: bool)
      modifies this
      ensures ok <==> Valid(h, old(Fields()), code, now)
      ensures Fields() == Next(h, old(Fields()), Validate(code, now, fault))
    {
      if used || codeHash == [] {
        return false;
      }
      if now > expirySeconds {
        used := true;
        var _ := PersistRecord(fault);
        return false;
      }
      if h(code) != codeHash {
        return false;
      }
      used := true;
      var _ := PersistRecord(fault);
      return true;
    }
  }
}
