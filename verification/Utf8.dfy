/** The UTF-8 and UTF-16 forms of a code point: the reference the three transcoders of the
    repository are compared with. */
module Utf8 {

  predicate IsScalar(c: int) {
    0 <= c < 0xD800 || 0xE000 <= c < 0x110000
  }

  function Byte(w: bv32): bv8 {
    (w & 0xFF) as bv8
  }

  // Section 3 of RFC 3629: the octet patterns of the four ranges.
  function Encode(c: nat): (bytes: seq<bv8>)
    requires c < 0x110000
    ensures 1 <= |bytes| <= 4
  {
    if c < 0x80 then [c as bv8] else Sequence(c as bv32, if c < 0x800 then 2 else if c < 0x10000 then 3 else 4)
  }

  // A head octet with the length mark, and continuation octets of six bits.
  function Sequence(w: bv32, n: nat): (bytes: seq<bv8>)
    requires 2 <= n <= 4
    ensures |bytes| == n
  {
    if n == 2 then [Byte(0xC0 | (w >> 6)), Byte(0x80 | (w & 0x3F))]
    else if n == 3 then [Byte(0xE0 | (w >> 12)), Byte(0x80 | ((w >> 6) & 0x3F)), Byte(0x80 | (w & 0x3F))]
    else
      [Byte(0xF0 | (w >> 18)), Byte(0x80 | ((w >> 12) & 0x3F)), Byte(0x80 | ((w >> 6) & 0x3F)), Byte(0x80 | (w & 0x3F))]
  }

  // Bytes as the characters of a C string.
  function Chars(bytes: seq<bv8>): (s: string)
    ensures |s| == |bytes|
    ensures forall i :: 0 <= i < |s| ==> s[i] == (bytes[i] as int) as char
  {
    seq(|bytes|, i requires 0 <= i < |bytes| => (bytes[i] as int) as char)
  }

  // Section 2.1 of RFC 2781: the surrogates of a code point above the first plane hold the upper
  // and the lower ten bits of its offset.
  function HighSurrogate(c: nat): (u: nat)
    requires 0x10000 <= c < 0x110000
    ensures 0xD800 <= u <= 0xDBFF
  {
    0xD800 + (c - 0x10000) / 0x400
  }

  function LowSurrogate(c: nat): (u: nat)
    requires 0x10000 <= c < 0x110000
    ensures 0xDC00 <= u <= 0xDFFF
  {
    0xDC00 + (c - 0x10000) % 0x400
  }

  // The offset above the first plane, from the lower ten bits of both surrogates.
  function Combine(hi: nat, lo: nat): (c: nat)
    ensures 0x10000 <= c < 0x110000
  {
    0x10000 + (hi % 0x400) * 0x400 + lo % 0x400
  }

  // Ten-bit masks, a shift by ten and an OR on words are the arithmetic of `Combine`.
  lemma CombineBits(hi: bv32, lo: bv32)
    ensures ((hi & 0x3FF) << 10) | (lo & 0x3FF) == (hi % 0x400) * 0x400 + lo % 0x400
  {
  }

  // Section 2.2 of RFC 2781: a pair determines its code point.
  lemma SurrogatesCombine(c: nat)
    requires 0x10000 <= c < 0x110000
    ensures Combine(HighSurrogate(c), LowSurrogate(c)) == c
  {
  }
}
