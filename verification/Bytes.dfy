/** Byte strings and the little-endian integers both on-disk formats are built from. */
module Bytes {
  type Byte = x: int | 0 <= x < 256
  type Bytes = seq<Byte>

  datatype Option<+T> = None | Some(value: T)

  function U16(s: Bytes, at: nat): (v: nat)
    requires at + 2 <= |s|
    ensures v < 0x1_0000
  {
    s[at] as int + 0x100 * (s[at + 1] as int)
  }

  function U32(s: Bytes, at: nat): (v: nat)
    requires at + 4 <= |s|
    ensures v < 0x1_0000_0000
  {
    U16(s, at) + 0x1_0000 * U16(s, at + 2)
  }

  /** The two-byte encoding that `U16` reads back. */
  function Le16(v: nat): (s: Bytes)
    requires v < 0x1_0000
    ensures |s| == 2 && U16(s, 0) == v
  {
    [v % 0x100, v / 0x100]
  }

  /** The four-byte encoding that `U32` reads back. */
  function Le32(v: nat): (s: Bytes)
    requires v < 0x1_0000_0000
    ensures |s| == 4 && U32(s, 0) == v
  {
    var lo, hi := Le16(v % 0x1_0000), Le16(v / 0x1_0000);
    assert U16(lo + hi, 0) == U16(lo, 0) && U16(lo + hi, 2) == U16(hi, 0);
    lo + hi
  }

  lemma U32Concat(s: Bytes, more: Bytes, at: nat)
    requires at + 4 <= |s|
    ensures U32(s + more, at) == U32(s, at)
  {
  }

  /** Encoding what was read gives the bytes it was read from. */
  lemma Le16OfU16(s: Bytes, at: nat)
    requires at + 2 <= |s|
    ensures Le16(U16(s, at)) == s[at..at + 2]
  {
  }

  lemma Le32OfU32(s: Bytes, at: nat)
    requires at + 4 <= |s|
    ensures Le32(U32(s, at)) == s[at..at + 4]
  {
    var v := U32(s, at);
    assert v % 0x1_0000 == U16(s, at) && v / 0x1_0000 == U16(s, at + 2);
    Le16OfU16(s, at);
    Le16OfU16(s, at + 2);
    assert s[at..at + 2] + s[at + 2..at + 4] == s[at..at + 4];
  }
}
