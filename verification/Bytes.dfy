/** Bytes and byte strings. */
module Bytes {
  newtype Byte = b: int | 0 <= b < 256
  type ByteString = seq<Byte>

  /** An ASCII text as bytes. */
  function Ascii(s: string): (t: ByteString)
    ensures |t| == |s|
  {
    seq(|s|, i requires 0 <= i < |s| => (s[i] as int % 256) as Byte)
  }

  /** The lower-case hexadecimal digit of a value. */
  function HexDigit(v: int): (d: Byte)
    requires 0 <= v < 16
    ensures 0x30 <= d <= 0x39 || 0x61 <= d <= 0x66
  {
    if v < 10 then (0x30 + v) as Byte else (0x61 + v - 10) as Byte
  }

  /** Pieces put together again. */
  function Concat(parts: seq<ByteString>): ByteString {
    if parts == [] then [] else Concat(parts[..|parts| - 1]) + parts[|parts| - 1]
  }

  lemma ConcatSnoc(parts: seq<ByteString>, part: ByteString)
    ensures Concat(parts + [part]) == Concat(parts) + part
  {
    assert (parts + [part])[..|parts|] == parts;
  }
}
