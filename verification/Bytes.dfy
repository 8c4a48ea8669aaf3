/** Fixed-width integers and the small container types the other modules share. */
module Bytes {
  type uint8 = x: int | 0 <= x < 0x100
  type uint16 = x: int | 0 <= x < 0x1_0000
  type uint32 = x: int | 0 <= x < 0x1_0000_0000

  type bytes = seq<uint8>

  datatype Option<+T> = None | Some(value: T)

  function Min(a: nat, b: nat): nat {
    if a <= b then a else b
  }

  function Ascii(s: string): bytes {
    seq(|s|, i requires 0 <= i < |s| => if s[i] as int < 128 then s[i] as int else 63)
  }

  /** The first `max` elements: what a length-capped memcpy keeps. */
  function Cut<T>(s: seq<T>, max: nat): seq<T> {
    s[..Min(|s|, max)]
  }
}
