/** The UTF-8 encoders of ezXML, for character references and for UTF-16 documents. */
module EzxmlUtf {
  import opened Sequences
  import Utf8

  const LONG_MAX := 0x7fff_ffff

  const BUFSIZE := 1024

  // The number of bits of a code point, by halving it.
  function Bits(c: nat): nat {
    if c == 0 then 0 else 1 + Bits(c / 2)
  }

  // The bits above the lower 6 * b.
  function ShiftSix(w: bv32, b: nat): bv32 {
    if b == 0 then w else ShiftSix(w >> 6, b - 1)
  }

  // The length mark of a head byte with b continuation bytes after it.
  function HeadMask(b: nat): bv32
    requires 1 <= b <= 5
  {
    match b
    case 1 => 0xFF << 6
    case 2 => 0xFF << 5
    case 3 => 0xFF << 4
    case 4 => 0xFF << 3
    case 5 => 0xFF << 2
  }

  // The multi-byte sequence both UTF-8 encoders of the file write, on 32-bit words.
  function MultiByte(c: nat): seq<bv8>
    requires 0x80 <= c <= LONG_MAX
  {
    BitsBounds(c);
    var b := (Bits(c) - 2) / 5;
    Sequence(c as bv32, b)
  }

  // A head byte and `b` payload bytes.
  function Sequence(w: bv32, b: nat): seq<bv8>
    requires 1 <= b <= 5
  {
    [Utf8.Byte(HeadMask(b) | ShiftSix(w, b))] + Payload(w, b)
  }

  // The continuation bytes, six bits each, from the upper ones down.
  function Payload(w: bv32, b: nat): seq<bv8> {
    if b == 0 then [] else [Utf8.Byte(0x80 | (ShiftSix(w, b - 1) & 0x3F))] + Payload(w, b - 1)
  }

  lemma {:induction false} BitsRange(c: nat, k: nat)
    ensures c < Power2(k) <==> Bits(c) <= k
  {
    if c > 0 && k > 0 { BitsRange(c / 2, k - 1); }
  }

  lemma Powers()
    ensures Power2(7) == 0x80 && Power2(11) == 0x800 && Power2(16) == 0x10000 && Power2(21) == 0x200000
    ensures Power2(31) == LONG_MAX + 1
  {
    assert Power2(11) == 16 * Power2(7);
    assert Power2(16) == 32 * Power2(11);
    assert Power2(21) == 32 * Power2(16);
    assert Power2(26) == 32 * Power2(21);
    assert Power2(31) == 32 * Power2(26);
  }

  lemma BitsBounds(c: nat)
    requires 0x80 <= c <= LONG_MAX
    ensures 8 <= Bits(c) <= 31
    ensures c < 0x800 <==> Bits(c) <= 11
    ensures c < 0x10000 <==> Bits(c) <= 16
    ensures c < 0x200000 <==> Bits(c) <= 21
  {
    Powers();
    BitsRange(c, 7);
    BitsRange(c, 11);
    BitsRange(c, 16);
    BitsRange(c, 21);
    BitsRange(c, 31);
  }

  // (bits - 2) / 5 is the number of continuation bytes: the sequence is the UTF-8 form.
  lemma MultiByteIsUtf8(c: nat)
    requires 0x80 <= c < 0x110000
    ensures MultiByte(c) == Utf8.Encode(c)
  {
    BitsBounds(c);
    var w := c as bv32;
    if c < 0x800 {
      assert (Bits(c) - 2) / 5 == 1;
      Sequence1(w);
    } else if c < 0x10000 {
      assert (Bits(c) - 2) / 5 == 2;
      Sequence2(w);
    } else {
      assert (Bits(c) - 2) / 5 == 3;
      Sequence3(w);
    }
  }

  lemma Shifts(w: bv32)
    ensures ShiftSix(w, 0) == w && ShiftSix(w, 1) == w >> 6
    ensures ShiftSix(w, 2) == w >> 12 && ShiftSix(w, 3) == w >> 18
  {
    assert (w >> 6) >> 6 == w >> 12 && (w >> 12) >> 6 == w >> 18;
  }

  lemma Heads(v: bv32)
    ensures Utf8.Byte((0xFF << 6) | v) == Utf8.Byte(0xC0 | v)
    ensures Utf8.Byte((0xFF << 5) | v) == Utf8.Byte(0xE0 | v)
    ensures Utf8.Byte((0xFF << 4) | v) == Utf8.Byte(0xF0 | v)
  {
  }

  lemma Sequence1(w: bv32)
    ensures Sequence(w, 1) == [Utf8.Byte(0xC0 | (w >> 6)), Utf8.Byte(0x80 | (w & 0x3F))]
  {
    Shifts(w);
    Heads(w >> 6);
    assert Payload(w, 0) == [];
  }

  lemma Payload1(w: bv32)
    ensures Payload(w, 1) == [Utf8.Byte(0x80 | (w & 0x3F))]
  {
    assert ShiftSix(w, 0) == w && Payload(w, 0) == [];
  }

  lemma Payload2(w: bv32)
    ensures Payload(w, 2) == [Utf8.Byte(0x80 | ((w >> 6) & 0x3F)), Utf8.Byte(0x80 | (w & 0x3F))]
  {
    Payload1(w);
    assert ShiftSix(w, 1) == w >> 6;
  }

  lemma Sequence2(w: bv32)
    ensures Sequence(w, 2) ==
      [Utf8.Byte(0xE0 | (w >> 12)), Utf8.Byte(0x80 | ((w >> 6) & 0x3F)), Utf8.Byte(0x80 | (w & 0x3F))]
  {
    Shifts(w);
    Heads(w >> 12);
    Payload1(w);
  }

  lemma Sequence3(w: bv32)
    ensures Sequence(w, 3) ==
      [Utf8.Byte(0xF0 | (w >> 18)), Utf8.Byte(0x80 | ((w >> 12) & 0x3F)), Utf8.Byte(0x80 | ((w >> 6) & 0x3F)),
       Utf8.Byte(0x80 | (w & 0x3F))]
  {
    Shifts(w);
    Heads(w >> 18);
    Payload2(w);
  }

  lemma {:induction false} PayloadLength(w: bv32, b: nat)
    ensures |Payload(w, b)| == b
  {
    if b > 0 { PayloadLength(w, b - 1); }
  }

  lemma SequenceLength(w: bv32, b: nat)
    requires 1 <= b <= 5
    ensures |Sequence(w, b)| == b + 1
  {
    PayloadLength(w, b);
  }

  // What is written for a code point, or for the value of a character reference.
  function CharBytes(c: int): string
    requires -LONG_MAX - 1 <= c <= LONG_MAX
  {
    if c < 0x80 then [(c % 256) as char] else Utf8.Chars(MultiByte(c))
  }

  // At most a head byte and five more.
  lemma CharBytesLength(c: int)
    requires -LONG_MAX - 1 <= c <= LONG_MAX
    ensures 1 <= |CharBytes(c)| <= 6
  {
    if c >= 0x80 {
      BitsBounds(c);
      SequenceLength(c as bv32, (Bits(c) - 2) / 5);
    }
  }

  lemma CharBytesAreUtf8(c: nat)
    requires c < 0x110000
    ensures CharBytes(c) == Utf8.Chars(Utf8.Encode(c))
  {
    if c < 0x80 {
      assert Utf8.Encode(c) == [c as bv8];
    } else {
      MultiByteIsUtf8(c);
    }
  }
}
