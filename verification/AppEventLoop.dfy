/** The event carrier: a payload travels behind a two-byte little-endian length, capped at 256. */
module AppEventLoop {
  import opened Bytes

  const MAX_PAYLOAD: nat := 256

  function Frame(payload: bytes): bytes {
    var kept := Cut(payload, MAX_PAYLOAD);
    [|kept| % 256, |kept| / 256] + kept
  }

  /** The size a frame announces in its first two bytes. */
  function Announced(frame: bytes): nat
    requires |frame| >= 2
  {
    (frame[0] as int) + 256 * (frame[1] as int)
  }

  /** What the subscriber's callback is handed: `size` bytes after the length prefix. */
  function Delivered(frame: bytes): bytes
    requires |frame| >= 2 && |frame| >= 2 + Announced(frame)
  {
    frame[2..2 + Announced(frame)]
  }

  /** A payload arrives whole exactly when it fits the cap; a longer one arrives truncated. */
  lemma FrameRoundTrip(payload: bytes)
    ensures |Frame(payload)| == 2 + Announced(Frame(payload))
    ensures Delivered(Frame(payload)) == Cut(payload, MAX_PAYLOAD)
    ensures Delivered(Frame(payload)) == payload <==> |payload| <= MAX_PAYLOAD
  {
  }

  class Carrier {
    var posted: seq<bytes>

    constructor ()
      ensures posted == []
    {
      posted := [];
    }

    method Publish(payload: bytes)
      modifies this
      ensures posted == old(posted) + [Frame(payload)]
    {
      var size := |payload|;
      if size > MAX_PAYLOAD {
        size := MAX_PAYLOAD;
      }
      var buffer := new uint8[2 + size];
      buffer[0], buffer[1] := size % 256, size / 256;
      for i := 0 to size
        invariant posted == old(posted)
        invariant buffer[0] == size % 256 && buffer[1] == size / 256
        invariant buffer[2..2 + i] == payload[..i]
      {
        buffer[2 + i] := payload[i];
        assert buffer[2..3 + i] == buffer[2..2 + i] + [payload[i]];
      }
      assert buffer[2..2 + size] == payload[..size] == Cut(payload, MAX_PAYLOAD);
      assert buffer[..] == Frame(payload);
      posted := posted + [buffer[..]];
    }
  }

  /** The prefix is the length of what follows, low byte first. */
  lemma FramePrefix(payload: bytes)
    ensures var f := Frame(payload);
            && (f[0] as int) + 256 * (f[1] as int) == Min(|payload|, 256)
            && f[2..] == payload[..Min(|payload|, 256)]
  {
  }
}
