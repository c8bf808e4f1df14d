/** Bytes, the little- and big-endian integers read from them, and the error codes of the 9528 transport. */
module Bytes {

  type byte = x: int | 0 <= x < 256

  const MAX_PAYLOAD: nat := 16 * 1024 * 1024

  datatype ErrorCode =
    | ResponseInvalid   // DIRECT_PROTOCOL_RESPONSE_INVALID
    | ResponseTimeout   // DIRECT_PROTOCOL_RESPONSE_TIMEOUT
    | RequestInvalid    // DIRECT_PROTOCOL_REQUEST_INVALID
    | HandshakeFailed   // DIRECT_PROTOCOL_HANDSHAKE_FAILED
    | SessionUnavailable // DIRECT_SESSION_UNAVAILABLE
    | ValueError        // a ValueError that leaves the function

  /** int.from_bytes(s, "little") */
  function LittleEndian(s: seq<byte>): nat {
    if s == [] then 0 else s[0] + 256 * LittleEndian(s[1..])
  }

  /** int.from_bytes(s, "big") */
  function BigEndian(s: seq<byte>): nat {
    if s == [] then 0 else 256 * BigEndian(s[..|s| - 1]) + s[|s| - 1]
  }

  /** The little-endian digits of `value` in `width` bytes. */
  function LittleEndianBytes(value: nat, width: nat): (s: seq<byte>)
    ensures |s| == width
  {
    if width == 0 then [] else [value % 256] + LittleEndianBytes(value / 256, width - 1)
  }

  function Power256(width: nat): (p: nat)
    ensures p > 0
  {
    if width == 0 then 1 else 256 * Power256(width - 1)
  }

  lemma {:induction false} LittleEndianRoundTrip(value: nat, width: nat)
    requires value < Power256(width)
    ensures LittleEndian(LittleEndianBytes(value, width)) == value
  {
    if width > 0 {
      LittleEndianRoundTrip(value / 256, width - 1);
      assert LittleEndianBytes(value, width)[1..] == LittleEndianBytes(value / 256, width - 1);
    }
  }

  lemma LowByteOf(x: byte, v: nat)
    ensures (x + 256 * v) % 256 == x && (x + 256 * v) / 256 == v
  {
  }

  lemma {:induction false} LittleEndianBytesRoundTrip(s: seq<byte>)
    ensures LittleEndian(s) < Power256(|s|)
    ensures LittleEndianBytes(LittleEndian(s), |s|) == s
  {
    if s != [] {
      LittleEndianBytesRoundTrip(s[1..]);
      LowByteOf(s[0], LittleEndian(s[1..]));
      assert s == [s[0]] + s[1..];
    }
  }
}
