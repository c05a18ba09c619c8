/** lfs_crc: a CRC-32 by a table of nibbles, and the bit-serial register it stands for. */
module LfsCrc {

  // Section 8.1.1.6.2 of ITU-T V.42: the generator polynomial, and the same with its bits reversed.
  const POLYNOMIAL: bv32 := 0x04c1_1db7
  const REFLECTED: bv32 := 0xedb8_8320

  // rtable
  function Table(n: bv32): bv32 {
    if n == 0x0 then 0x0000_0000 else if n == 0x1 then 0x1db7_1064 else if n == 0x2 then 0x3b6e_20c8
    else if n == 0x3 then 0x26d9_30ac else if n == 0x4 then 0x76dc_4190 else if n == 0x5 then 0x6b6b_51f4
    else if n == 0x6 then 0x4db2_6158 else if n == 0x7 then 0x5005_713c else if n == 0x8 then 0xedb8_8320
    else if n == 0x9 then 0xf00f_9344 else if n == 0xa then 0xd6d6_a3e8 else if n == 0xb then 0xcb61_b38c
    else if n == 0xc then 0x9b64_c2b0 else if n == 0xd then 0x86d3_d2d4 else if n == 0xe then 0xa00a_e278
    else 0xbdbd_f21c
  }

  function Wide(b: bv8): bv32 {
    b as bv32
  }

  // ---------- the bit-serial register ----------

  // One bit enters the register at its low end.
  function Shift(crc: bv32, bit: bv32): bv32 {
    if (crc ^ bit) & 1 == 1 then (crc >> 1) ^ REFLECTED else crc >> 1
  }

  function Register(crc: bv32, bits: seq<bv32>): bv32
    decreases |bits|
  {
    if bits == [] then crc else Register(Shift(crc, bits[0]), bits[1..])
  }

  // Bits are sent low-order first.
  function LowBits(w: bv32, n: nat): (bits: seq<bv32>)
    ensures |bits| == n
  {
    if n == 0 then [] else [w & 1] + LowBits(w >> 1, n - 1)
  }

  function Bits(data: seq<bv8>): seq<bv32> {
    if data == [] then [] else LowBits(Wide(data[0]), 8) + Bits(data[1..])
  }

  // ---------- the table ----------

  // A table lookup for the low nibble of d.
  function Nibble(crc: bv32, d: bv32): bv32 {
    (crc >> 4) ^ Table((crc ^ d) & 0xf)
  }

  // The two lookups for a byte.
  function ByNibbles(crc: bv32, b: bv8): bv32 {
    Nibble(Nibble(crc, Wide(b)), Wide(b) >> 4)
  }

  // Four shifts of the register, for the low nibble of d.
  function Four(crc: bv32, d: bv32): bv32 {
    Shift(Shift(Shift(Shift(crc, d & 1), (d >> 1) & 1), (d >> 2) & 1), (d >> 3) & 1)
  }

  // A table entry is what four shifts make of its nibble: one lemma for each entry.
  lemma Entry0(crc: bv32, d: bv32)
    requires (crc ^ d) & 0xf == 0x0
    ensures Nibble(crc, d) == Four(crc, d)
  {
  }

  lemma Entry1(crc: bv32, d: bv32)
    requires (crc ^ d) & 0xf == 0x1
    ensures Nibble(crc, d) == Four(crc, d)
  {
  }

  lemma Entry2(crc: bv32, d: bv32)
    requires (crc ^ d) & 0xf == 0x2
    ensures Nibble(crc, d) == Four(crc, d)
  {
  }

  lemma Entry3(crc: bv32, d: bv32)
    requires (crc ^ d) & 0xf == 0x3
    ensures Nibble(crc, d) == Four(crc, d)
  {
  }

  lemma Entry4(crc: bv32, d: bv32)
    requires (crc ^ d) & 0xf == 0x4
    ensures Nibble(crc, d) == Four(crc, d)
  {
  }

  lemma Entry5(crc: bv32, d: bv32)
    requires (crc ^ d) & 0xf == 0x5
    ensures Nibble(crc, d) == Four(crc, d)
  {
  }

  lemma Entry6(crc: bv32, d: bv32)
    requires (crc ^ d) & 0xf == 0x6
    ensures Nibble(crc, d) == Four(crc, d)
  {
  }

  lemma Entry7(crc: bv32, d: bv32)
    requires (crc ^ d) & 0xf == 0x7
    ensures Nibble(crc, d) == Four(crc, d)
  {
  }

  lemma Entry8(crc: bv32, d: bv32)
    requires (crc ^ d) & 0xf == 0x8
    ensures Nibble(crc, d) == Four(crc, d)
  {
  }

  lemma Entry9(crc: bv32, d: bv32)
    requires (crc ^ d) & 0xf == 0x9
    ensures Nibble(crc, d) == Four(crc, d)
  {
  }

  lemma EntryA(crc: bv32, d: bv32)
    requires (crc ^ d) & 0xf == 0xa
    ensures Nibble(crc, d) == Four(crc, d)
  {
  }

  lemma EntryB(crc: bv32, d: bv32)
    requires (crc ^ d) & 0xf == 0xb
    ensures Nibble(crc, d) == Four(crc, d)
  {
  }

  lemma EntryC(crc: bv32, d: bv32)
    requires (crc ^ d) & 0xf == 0xc
    ensures Nibble(crc, d) == Four(crc, d)
  {
  }

  lemma EntryD(crc: bv32, d: bv32)
    requires (crc ^ d) & 0xf == 0xd
    ensures Nibble(crc, d) == Four(crc, d)
  {
  }

  lemma EntryE(crc: bv32, d: bv32)
    requires (crc ^ d) & 0xf == 0xe
    ensures Nibble(crc, d) == Four(crc, d)
  {
  }

  lemma EntryF(crc: bv32, d: bv32)
    requires (crc ^ d) & 0xf == 0xf
    ensures Nibble(crc, d) == Four(crc, d)
  {
  }

  lemma NibbleIsSerial(crc: bv32, d: bv32)
    ensures Nibble(crc, d) == Four(crc, d)
  {
    var k := (crc ^ d) & 0xf;
    if k == 0x0 {
      Entry0(crc, d);
    } else if k == 0x1 {
      Entry1(crc, d);
    } else if k == 0x2 {
      Entry2(crc, d);
    } else if k == 0x3 {
      Entry3(crc, d);
    } else if k == 0x4 {
      Entry4(crc, d);
    } else if k == 0x5 {
      Entry5(crc, d);
    } else if k == 0x6 {
      Entry6(crc, d);
    } else if k == 0x7 {
      Entry7(crc, d);
    } else if k == 0x8 {
      Entry8(crc, d);
    } else if k == 0x9 {
      Entry9(crc, d);
    } else if k == 0xa {
      EntryA(crc, d);
    } else if k == 0xb {
      EntryB(crc, d);
    } else if k == 0xc {
      EntryC(crc, d);
    } else if k == 0xd {
      EntryD(crc, d);
    } else if k == 0xe {
      EntryE(crc, d);
    } else {
      EntryF(crc, d);
    }
  }

  lemma FourBits(crc: bv32, d: bv32)
    ensures Register(crc, LowBits(d, 4)) == Four(crc, d)
  {
    var a := Shift(crc, d & 1);
    var b := Shift(a, (d >> 1) & 1);
    var c := Shift(b, (d >> 1 >> 1) & 1);
    RegisterUnfold(crc, d & 1, LowBits(d >> 1, 3), a);
    RegisterUnfold(a, (d >> 1) & 1, LowBits(d >> 1 >> 1, 2), b);
    RegisterUnfold(b, (d >> 1 >> 1) & 1, LowBits(d >> 1 >> 1 >> 1, 1), c);
    RegisterUnfold(c, (d >> 1 >> 1 >> 1) & 1, [], Shift(c, (d >> 1 >> 1 >> 1) & 1));
    Shifts(d);
  }

  lemma Shifts(d: bv32)
    ensures d >> 1 >> 1 == d >> 2 && d >> 1 >> 1 >> 1 == d >> 3
    ensures LowBits(d >> 1 >> 1 >> 1, 1) == [(d >> 1 >> 1 >> 1) & 1] + []
  {
    assert LowBits(d >> 1 >> 1 >> 1 >> 1, 0) == [];
  }

  lemma RegisterUnfold(crc: bv32, bit: bv32, bits: seq<bv32>, c: bv32)
    requires c == Shift(crc, bit)
    ensures Register(crc, [bit] + bits) == Register(c, bits)
  {
    assert ([bit] + bits)[1..] == bits;
  }

  function Right(w: bv32, n: nat): bv32
    decreases n
  {
    if n == 0 then w else Right(w >> 1, n - 1)
  }

  lemma {:induction false} LowSplit(w: bv32, j: nat, n: nat)
    ensures LowBits(w, j + n) == LowBits(w, j) + LowBits(Right(w, j), n)
    decreases j
  {
    if j > 0 { LowSplit(w >> 1, j - 1, n); }
  }

  lemma EightBits(d: bv32)
    ensures LowBits(d, 8) == LowBits(d, 4) + LowBits(d >> 4, 4)
  {
    LowSplit(d, 4, 4);
    assert Right(d, 4) == Right(d >> 1, 3) == Right(d >> 1 >> 1, 2) == Right(d >> 1 >> 1 >> 1, 1);
    ShiftedFour(d);
  }

  lemma ShiftedFour(d: bv32)
    ensures d >> 1 >> 1 >> 1 >> 1 == d >> 4
  {
  }

  // The nibble table does what the register does with the bits of a byte.
  lemma ByteIsSerial(crc: bv32, b: bv8)
    ensures ByNibbles(crc, b) == Register(crc, LowBits(Wide(b), 8))
  {
    var w := Wide(b);
    NibbleIsSerial(crc, w);
    NibbleIsSerial(Nibble(crc, w), w >> 4);
    FourBits(crc, w);
    FourBits(Nibble(crc, w), w >> 4);
    EightBits(w);
    RegisterAppend(crc, LowBits(w, 4), LowBits(w >> 4, 4));
  }

  // ---------- lfs_crc ----------

  function CrcOf(crc: bv32, data: seq<bv8>): bv32
    decreases |data|
  {
    if data == [] then crc else CrcOf(ByNibbles(crc, data[0]), data[1..])
  }

  lemma {:induction false} RegisterAppend(crc: bv32, a: seq<bv32>, b: seq<bv32>)
    ensures Register(crc, a + b) == Register(Register(crc, a), b)
    decreases |a|
  {
    if a == [] {
      assert a + b == b;
    } else {
      assert (a + b)[1..] == a[1..] + b;
      RegisterAppend(Shift(crc, a[0]), a[1..], b);
    }
  }

  lemma {:induction false} BitsAppend(a: seq<bv8>, b: seq<bv8>)
    ensures Bits(a + b) == Bits(a) + Bits(b)
  {
    if a == [] {
      assert a + b == b;
    } else {
      assert (a + b)[1..] == a[1..] + b;
      BitsAppend(a[1..], b);
      assert LowBits(Wide(a[0]), 8) + (Bits(a[1..]) + Bits(b)) == (LowBits(Wide(a[0]), 8) + Bits(a[1..])) + Bits(b);
    }
  }

  // The table CRC is the bit-serial one.
  lemma {:induction false} CrcIsSerial(crc: bv32, data: seq<bv8>)
    ensures CrcOf(crc, data) == Register(crc, Bits(data))
    decreases |data|
  {
    if data != [] {
      ByteIsSerial(crc, data[0]);
      CrcIsSerial(ByNibbles(crc, data[0]), data[1..]);
      RegisterAppend(crc, LowBits(Wide(data[0]), 8), Bits(data[1..]));
    }
  }

  // The CRC of a concatenation is that of the second part, seeded with that of the first.
  lemma CrcConcat(crc: bv32, a: seq<bv8>, b: seq<bv8>)
    ensures CrcOf(crc, a + b) == CrcOf(CrcOf(crc, a), b)
  {
    CrcIsSerial(crc, a + b);
    CrcIsSerial(crc, a);
    CrcIsSerial(CrcOf(crc, a), b);
    BitsAppend(a, b);
    RegisterAppend(crc, Bits(a), Bits(b));
  }

  // lfs_crc
  method Crc(crc: bv32, buffer: array<bv8>, size: nat) returns (r: bv32)
    requires size <= buffer.Length
    ensures r == Register(crc, Bits(buffer[..size]))
  {
    r := crc;
    var i := 0;
    while i < size
      invariant 0 <= i <= size && CrcOf(r, buffer[i..size]) == CrcOf(crc, buffer[..size])
    {
      assert buffer[i..size][0] == buffer[i] && buffer[i..size][1..] == buffer[i + 1..size];
      r := ByNibbles(r, buffer[i]);
      i := i + 1;
    }
    CrcIsSerial(crc, buffer[..size]);
  }

  // ---------- the recommendation's register ----------

  function Reverse(x: bv32): bv32 {
    var a := ((x >> 1) & 0x5555_5555) | ((x & 0x5555_5555) << 1);
    var b := ((a >> 2) & 0x3333_3333) | ((a & 0x3333_3333) << 2);
    var c := ((b >> 4) & 0x0f0f_0f0f) | ((b & 0x0f0f_0f0f) << 4);
    var d := ((c >> 8) & 0x00ff_00ff) | ((c & 0x00ff_00ff) << 8);
    (d >> 16) | (d << 16)
  }

  // The register of the recommendation: bits enter at the high end.
  function ShiftHigh(crc: bv32, bit: bv32): bv32 {
    if ((crc >> 31) ^ bit) & 1 == 1 then (crc << 1) ^ POLYNOMIAL else crc << 1
  }

  lemma OddReversed(crc: bv32, bit: bv32)
    requires (crc ^ bit) & 1 == 1
    ensures Reverse((crc >> 1) ^ REFLECTED) == (Reverse(crc) << 1) ^ POLYNOMIAL && ((Reverse(crc) >> 31) ^ bit) & 1 == 1
  {
  }

  lemma EvenReversed(crc: bv32, bit: bv32)
    requires (crc ^ bit) & 1 != 1
    ensures Reverse(crc >> 1) == Reverse(crc) << 1 && ((Reverse(crc) >> 31) ^ bit) & 1 != 1
  {
  }

  lemma ShiftReversed(crc: bv32, bit: bv32)
    ensures Reverse(Shift(crc, bit)) == ShiftHigh(Reverse(crc), bit)
  {
    if (crc ^ bit) & 1 == 1 {
      OddReversed(crc, bit);
      Odd(crc, bit, Reverse(crc));
    } else {
      EvenReversed(crc, bit);
      Even(crc, bit, Reverse(crc));
    }
  }

  lemma Odd(crc: bv32, bit: bv32, r: bv32)
    requires (crc ^ bit) & 1 == 1 && ((r >> 31) ^ bit) & 1 == 1
    ensures Shift(crc, bit) == (crc >> 1) ^ REFLECTED && ShiftHigh(r, bit) == (r << 1) ^ POLYNOMIAL
  {
  }

  lemma Even(crc: bv32, bit: bv32, r: bv32)
    requires (crc ^ bit) & 1 != 1 && ((r >> 31) ^ bit) & 1 != 1
    ensures Shift(crc, bit) == crc >> 1 && ShiftHigh(r, bit) == r << 1
  {
  }

  function RegisterHigh(crc: bv32, bits: seq<bv32>): bv32
    decreases |bits|
  {
    if bits == [] then crc else RegisterHigh(ShiftHigh(crc, bits[0]), bits[1..])
  }

  // The CRC is the mirror image of the register of the recommendation, which is fed the same bits
  // and uses its polynomial as printed.
  lemma {:induction false} CrcIsMirror(crc: bv32, bits: seq<bv32>)
    ensures Reverse(Register(crc, bits)) == RegisterHigh(Reverse(crc), bits)
    decreases |bits|
  {
    if bits != [] {
      ShiftReversed(crc, bits[0]);
      CrcIsMirror(Shift(crc, bits[0]), bits[1..]);
    }
  }

  // ---------- errors it finds ----------

  predicate AreBits(bits: seq<bv32>) {
    forall i :: 0 <= i < |bits| ==> bits[i] == 0 || bits[i] == 1
  }

  lemma ShiftInjective(x: bv32, y: bv32, bit: bv32)
    requires (bit == 0 || bit == 1) && Shift(x, bit) == Shift(y, bit)
    ensures x == y
  {
  }

  // Different registers stay different.
  lemma {:induction false} RegisterInjective(x: bv32, y: bv32, bits: seq<bv32>)
    requires AreBits(bits) && Register(x, bits) == Register(y, bits)
    ensures x == y
    decreases |bits|
  {
    if bits != [] {
      RegisterInjective(Shift(x, bits[0]), Shift(y, bits[0]), bits[1..]);
      ShiftInjective(x, y, bits[0]);
    }
  }

  function Step(crc: bv32): bv32 {
    Shift(crc, 0)
  }

  function Steps(crc: bv32, n: nat): bv32
    decreases n
  {
    if n == 0 then crc else Steps(Step(crc), n - 1)
  }

  lemma StepWaits(crc: bv32, w: bv32)
    ensures Step(crc ^ w) == Shift(crc, w & 1) ^ (w >> 1)
  {
    LowBitOnly(crc, w);
    RightXor(crc, w);
    if ((crc ^ w) ^ 0) & 1 == 1 {
      Reordered(crc >> 1, w >> 1, REFLECTED);
    }
  }

  lemma LowBitOnly(crc: bv32, w: bv32)
    ensures ((crc ^ w) ^ 0) & 1 == (crc ^ (w & 1)) & 1
  {
  }

  lemma RightXor(crc: bv32, w: bv32)
    ensures (crc ^ w) >> 1 == (crc >> 1) ^ (w >> 1)
  {
  }

  lemma Reordered(a: bv32, b: bv32, c: bv32)
    ensures (a ^ b) ^ c == (a ^ c) ^ b
  {
  }

  lemma StepsUnfold(x: bv32, s: bv32, n: nat)
    requires n > 0 && s == Step(x)
    ensures Steps(x, n) == Steps(s, n - 1)
  {
  }

  lemma StepsOne(crc: bv32, w: bv32, n: nat, c: bv32, v: bv32)
    requires n > 0 && c == Shift(crc, w & 1) && v == w >> 1
    ensures Steps(crc ^ w, n) == Steps(c ^ v, n - 1)
  {
    StepWaits(crc, w);
    StepsUnfold(crc ^ w, c ^ v, n);
  }

  lemma BitsOne(crc: bv32, w: bv32, n: nat, c: bv32, v: bv32)
    requires n > 0 && c == Shift(crc, w & 1) && v == w >> 1
    ensures Register(crc, LowBits(w, n)) == Register(c, LowBits(v, n - 1)) && Right(w, n) == Right(v, n - 1)
  {
    RegisterUnfold(crc, w & 1, LowBits(v, n - 1), c);
  }

  lemma OneBit(crc: bv32, w: bv32, n: nat) returns (c: bv32, v: bv32)
    requires n > 0
    ensures Steps(crc ^ w, n) == Steps(c ^ v, n - 1)
    ensures Register(crc, LowBits(w, n)) == Register(c, LowBits(v, n - 1)) && Right(w, n) == Right(v, n - 1)
  {
    c, v := Shift(crc, w & 1), w >> 1;
    StepsOne(crc, w, n, c, v);
    BitsOne(crc, w, n, c, v);
  }

  // Higher bits wait in the register: a word may be added all at once before its bits are shifted.
  lemma {:induction false} WordAtOnce(crc: bv32, w: bv32, n: nat)
    ensures Steps(crc ^ w, n) == Register(crc, LowBits(w, n)) ^ Right(w, n)
    decreases n
  {
    if n > 0 {
      var c, v := OneBit(crc, w, n);
      WordAtOnce(c, v, n - 1);
    }
  }

  lemma {:induction false} StepsInjective(x: bv32, y: bv32, n: nat)
    requires Steps(x, n) == Steps(y, n)
    ensures x == y
    decreases n
  {
    if n > 0 {
      StepsUnfold(x, Step(x), n);
      StepsUnfold(y, Step(y), n);
      StepsInjective(Step(x), Step(y), n - 1);
      ShiftInjective(x, y, 0);
    }
  }

  lemma {:induction false} RightSplit(w: bv32, j: nat, n: nat)
    ensures Right(w, j + n) == Right(Right(w, j), n)
    decreases j
  {
    if j > 0 { RightSplit(w >> 1, j - 1, n); }
  }

  lemma RightFour(d: bv32)
    ensures Right(d, 4) == d >> 4
  {
    assert Right(d, 4) == Right(d >> 1, 3) == Right(d >> 1 >> 1, 2) == Right(d >> 1 >> 1 >> 1, 1);
    ShiftedFour(d);
  }

  lemma RightEight(d: bv32)
    ensures Right(d, 8) == d >> 4 >> 4
  {
    RightSplit(d, 4, 4);
    RightFour(d);
    RightFour(d >> 4);
  }

  lemma WordGone(w: bv32)
    ensures Right(w, 32) == 0
  {
    RightSplit(w, 8, 24);
    RightSplit(w >> 4 >> 4, 8, 16);
    RightSplit(w >> 4 >> 4 >> 4 >> 4, 8, 8);
    RightEight(w);
    RightEight(w >> 4 >> 4);
    RightEight(w >> 4 >> 4 >> 4 >> 4);
    RightEight(w >> 4 >> 4 >> 4 >> 4 >> 4 >> 4);
    ShiftedOut(w);
  }

  lemma ShiftedOut(w: bv32)
    ensures w >> 4 >> 4 >> 4 >> 4 >> 4 >> 4 >> 4 >> 4 == 0
  {
  }

  lemma WordRegister(crc: bv32, w: bv32)
    ensures Register(crc, LowBits(w, 32)) == Steps(crc ^ w, 32)
  {
    WordAtOnce(crc, w, 32);
    WordGone(w);
    NoChange(Register(crc, LowBits(w, 32)), Right(w, 32));
  }

  lemma NoChange(x: bv32, z: bv32)
    requires z == 0
    ensures x ^ z == x
  {
  }

  lemma WordInjective(crc: bv32, v: bv32, w: bv32)
    requires Register(crc, LowBits(v, 32)) == Register(crc, LowBits(w, 32))
    ensures v == w
  {
    WordRegister(crc, v);
    WordRegister(crc, w);
    StepsInjective(crc ^ v, crc ^ w, 32);
    XorInjective(crc, v, w);
  }

  lemma XorInjective(r: bv32, v: bv32, w: bv32)
    requires r ^ v == r ^ w
    ensures v == w
  {
  }

  lemma InMiddle(crc: bv32, before: seq<bv32>, window: seq<bv32>, after: seq<bv32>)
    ensures Register(crc, before + window + after) == Register(Register(Register(crc, before), window), after)
  {
    RegisterAppend(crc, before + window, after);
    RegisterAppend(crc, before, window);
  }

  // A change within any 32 consecutive bits of a message changes its CRC.
  lemma BurstFound(crc: bv32, before: seq<bv32>, v: bv32, w: bv32, after: seq<bv32>)
    requires AreBits(after) && v != w
    ensures Register(crc, before + LowBits(v, 32) + after) != Register(crc, before + LowBits(w, 32) + after)
  {
    InMiddle(crc, before, LowBits(v, 32), after);
    InMiddle(crc, before, LowBits(w, 32), after);
    var r := Register(crc, before);
    var x, y := Register(r, LowBits(v, 32)), Register(r, LowBits(w, 32));
    if Register(x, after) == Register(y, after) {
      RegisterInjective(x, y, after);
      WordInjective(r, v, w);
    }
  }
}
