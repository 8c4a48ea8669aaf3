/** Hex text as BackupManager, RestoreManager, GuestTagManager and the credential store spell it. */
module Hex {
  import opened Bytes

  /** ASCII code of a nibble, letters starting at `ten` ('a' or 'A'). */
  function Digit(n: nat, ten: uint8): uint8
    requires n < 16 && ten < 128
  {
    if n < 10 then 48 + n else ten + (n - 10)
  }

  const LOWER: uint8 := 97
  const UPPER: uint8 := 65

  function DigitValue(c: uint8): (v: Option<nat>)
    ensures v.Some? ==> v.value < 16
  {
    if 48 <= c <= 57 then Some(c - 48)
    else if 97 <= c <= 102 then Some(c - 97 + 10)
    else if 65 <= c <= 70 then Some(c - 65 + 10)
    else None
  }

  function Encode(b: bytes, ten: uint8): (text: bytes)
    requires ten < 128
    ensures |text| == 2 * |b|
  {
    if b == [] then [] else [Digit(b[0] / 16, ten), Digit(b[0] % 16, ten)] + Encode(b[1..], ten)
  }

  predicate IsHex(text: bytes) {
    |text| % 2 == 0 && forall i :: 0 <= i < |text| ==> DigitValue(text[i]).Some?
  }

  function Decode(text: bytes): (b: bytes)
    requires IsHex(text)
    ensures |b| == |text| / 2
  {
    if text == [] then []
    else [16 * DigitValue(text[0]).value + DigitValue(text[1]).value] + Decode(text[2..])
  }

  /** RestoreManager's hexDecode: malformed text decodes to nothing. */
  function DecodeOrEmpty(text: bytes): bytes {
    if IsHex(text) then Decode(text) else []
  }

  /** Decoding undoes encoding in either case of letters, so neither spelling loses a byte. */
  lemma {:induction false} RoundTrip(b: bytes, ten: uint8)
    requires ten == LOWER || ten == UPPER
    ensures IsHex(Encode(b, ten)) && Decode(Encode(b, ten)) == b
  {
    if b != [] {
      RoundTrip(b[1..], ten);
      var text := Encode(b, ten);
      assert text[2..] == Encode(b[1..], ten);
      assert forall i :: 2 <= i < |text| ==> text[i] == Encode(b[1..], ten)[i - 2];
    }
  }

  lemma {:induction false} DecodeAppend(text: bytes, hi: uint8, lo: uint8)
    requires IsHex(text) && DigitValue(hi).Some? && DigitValue(lo).Some?
    ensures IsHex(text + [hi, lo])
    ensures Decode(text + [hi, lo]) == Decode(text) + [16 * DigitValue(hi).value + DigitValue(lo).value]
  {
    if text != [] {
      DecodeAppend(text[2..], hi, lo);
      assert (text + [hi, lo])[2..] == text[2..] + [hi, lo];
    }
  }

  lemma {:induction false} EncodeAppend(b: bytes, x: uint8, ten: uint8)
    requires ten < 128
    ensures Encode(b + [x], ten) == Encode(b, ten) + [Digit(x / 16, ten), Digit(x % 16, ten)]
  {
    if b == [] {
      assert b + [x] == [x];
    } else {
      EncodeAppend(b[1..], x, ten);
      assert (b + [x])[1..] == b[1..] + [x];
    }
  }

  method HexEncode(b: bytes, ten: uint8) returns (out: bytes)
    requires ten < 128
    ensures out == Encode(b, ten)
  {
    out := [];
    for i := 0 to |b|
      invariant out == Encode(b[..i], ten)
    {
      EncodeAppend(b[..i], b[i], ten);
      assert b[..i + 1] == b[..i] + [b[i]];
      out := out + [Digit(b[i] / 16, ten)];
      out := out + [Digit(b[i] % 16, ten)];
    }
    assert b[..|b|] == b;
  }

  method HexDecode(text: bytes) returns (out: bytes)
    ensures out == DecodeOrEmpty(text)
  {
    out := [];
    if |text| % 2 != 0 {
      return;
    }
    var i := 0;
    while i < |text|
      invariant 0 <= i <= |text| && i % 2 == 0
      invariant IsHex(text[..i]) && out == Decode(text[..i])
    {
      var hi, lo := DigitValue(text[i]), DigitValue(text[i + 1]);
      if hi.None? || lo.None? {
        return [];
      }
      DecodeAppend(text[..i], text[i], text[i + 1]);
      assert text[..i + 2] == text[..i] + [text[i], text[i + 1]];
      out := out + [16 * hi.value + lo.value];
      i := i + 2;
    }
    assert text[..i] == text;
  }

  /** The digits as they are written. */
  const LOWER_DIGITS: bytes := [48, 49, 50, 51, 52, 53, 54, 55, 56, 57, 97, 98, 99, 100, 101, 102]
  const UPPER_DIGITS: bytes := [48, 49, 50, 51, 52, 53, 54, 55, 56, 57, 65, 66, 67, 68, 69, 70]

  /** The spelling itself: the high digit of each byte first, ten to fifteen as letters of the asked case. */
  lemma Spelled(b: bytes, i: nat)
    requires i < |b|
    ensures Encode(b, LOWER)[2 * i] == LOWER_DIGITS[b[i] / 16] && Encode(b, LOWER)[2 * i + 1] == LOWER_DIGITS[b[i] % 16]
    ensures Encode(b, UPPER)[2 * i] == UPPER_DIGITS[b[i] / 16] && Encode(b, UPPER)[2 * i + 1] == UPPER_DIGITS[b[i] % 16]
  {
    SpelledDigit(b[i] / 16);
    SpelledDigit(b[i] % 16);
    DigitsAt(b, LOWER, i);
    DigitsAt(b, UPPER, i);
  }

  /** A character is a digit exactly when it is one of those, in either case, and then it has its value. */
  lemma DigitRead(c: uint8)
    ensures DigitValue(c).Some? <==> c in LOWER_DIGITS || c in UPPER_DIGITS
    ensures DigitValue(c).Some? ==> LOWER_DIGITS[DigitValue(c).value] == c || UPPER_DIGITS[DigitValue(c).value] == c
  {
    if DigitValue(c).Some? {
      SpelledDigit(DigitValue(c).value);
    }
  }

  lemma SpelledDigit(n: nat)
    requires n < 16
    ensures LOWER_DIGITS[n] == Digit(n, LOWER) && UPPER_DIGITS[n] == Digit(n, UPPER)
  {
  }

  lemma {:induction false} DigitsAt(b: bytes, ten: uint8, i: nat)
    requires i < |b| && ten < 128
    ensures Encode(b, ten)[2 * i] == Digit(b[i] / 16, ten) && Encode(b, ten)[2 * i + 1] == Digit(b[i] % 16, ten)
  {
    if i > 0 {
      DigitsAt(b[1..], ten, i - 1);
      assert Encode(b, ten) == [Digit(b[0] / 16, ten), Digit(b[0] % 16, ten)] + Encode(b[1..], ten);
    }
  }
}
