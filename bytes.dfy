/** Bytes as the codec sees them (`uint8_t`), the ASCII bytes it gives a
    meaning to, and the optional value the accessor tables hand back. */
module Bytes {

  /** One octet of the wire format. */
  type byte = x: int | 0 <= x < 0x100

  const LF: byte := 0x0A
  const CR: byte := 0x0D
  const SPACE: byte := 0x20
  const SEMICOLON: byte := 0x3B
  const BACKSLASH: byte := 0x5C

  /** The bytes of an ASCII string literal, one per character. */
  function Ascii(s: string): (r: seq<byte>)
    requires forall i :: 0 <= i < |s| ==> s[i] as int < 0x100
    ensures |r| == |s|
    ensures forall i :: 0 <= i < |s| ==> r[i] == s[i] as int
  {
    seq(|s|, i requires 0 <= i < |s| => s[i] as int as byte)
  }

  /** A value that may be absent, as the prefix accessor returns it. */
  datatype Option<+T> = None | Some(value: T)
}
