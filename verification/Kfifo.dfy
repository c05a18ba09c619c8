/** kfifo: a byte ring with free-running 32-bit counters, of a size that is a power of two. */
module Kfifo {
  import opened Sequences

  type Byte = bv8

  const WORD := 0x1_0000_0000

  // The value of an unsigned 32-bit expression.
  function Wrap(x: int): (r: nat)
    ensures r < WORD
  {
    x % WORD
  }

  ghost predicate IsSize(size: nat) {
    exists k: nat :: k < 32 && size == Power2(k)
  }

  lemma {:induction false} PowerDivides(j: nat, k: nat)
    requires j <= k
    ensures Power2(k) % Power2(j) == 0 && Power2(j) <= Power2(k)
  {
    if j < k {
      PowerDivides(j, k - 1);
      var q := Power2(k - 1) / Power2(j);
      assert Power2(k) == (2 * q) * Power2(j);
      MultipleMod(2 * q, Power2(j));
    }
  }

  lemma MultipleMod(q: int, m: nat)
    requires m > 0
    ensures (q * m) % m == 0
  {
    ModUnique(q * m, q, 0, m);
  }

  lemma ModUnique(x: int, q: int, r: nat, m: nat)
    requires m > 0 && r < m && x == q * m + r
    ensures x % m == r
  {
    var d := x / m - q;
    assert d * m == r - x % m;
    if d != 0 { BigMultiple(d, m); }
  }

  lemma BigMultiple(d: int, m: nat)
    requires d != 0
    ensures d * m >= m || d * m <= 0 - m
  {
    if d >= 1 {
      AtLeastOnce(d, m);
    } else {
      AtLeastOnce(-d, m);
      assert (-d) * m == -(d * m);
    }
  }

  lemma {:induction false} AtLeastOnce(d: nat, m: nat)
    requires d >= 1
    ensures d * m >= m
  {
    if d > 1 {
      AtLeastOnce(d - 1, m);
      assert d * m == (d - 1) * m + m;
    }
  }

  lemma Word()
    ensures Power2(32) == WORD
  {
    assert Power2(8) == 256;
    assert Power2(16) == 256 * Power2(8);
    assert Power2(24) == 256 * Power2(16);
    assert Power2(32) == 256 * Power2(24);
  }

  lemma SizeDivides(size: nat)
    requires IsSize(size)
    ensures 0 < size < WORD && WORD % size == 0
  {
    var k: nat :| k < 32 && size == Power2(k);
    Word();
    PowerDivides(k, 32);
    PowerDivides(k, 31);
  }

  // The place `j` past a place of the ring.
  function Ring(a: nat, j: nat, size: nat): (r: nat)
    requires a < size && j <= size
    ensures r < size
  {
    if a + j < size then a + j else a + j - size
  }

  // A wrapped counter and its sum point to the same place of the ring.
  lemma WrapPlace(x: nat, j: nat, size: nat)
    requires IsSize(size) && j <= size
    ensures Wrap(x + j) % size == Ring(x % size, j, size)
  {
    SizeDivides(size);
    var w, q, y := WORD / size, (x + j) / WORD, x + j;
    assert WORD == w * size;
    var a, b := x % size, x / size;
    assert x == b * size + a;
    if a + j < size {
      assert y - q * WORD == (b - q * w) * size + (a + j) by { Distribute(b, q, w, size); }
      ModUnique(y - q * WORD, b - q * w, a + j, size);
    } else {
      assert y - q * WORD == (b + 1 - q * w) * size + (a + j - size) by {
        Distribute(b + 1, q, w, size);
        assert (b + 1) * size == b * size + size;
      }
      ModUnique(y - q * WORD, b + 1 - q * w, a + j - size, size);
    }
    assert Wrap(y) == y - q * WORD;
  }

  lemma Distribute(b: int, q: int, w: int, size: int)
    ensures (b - q * w) * size == b * size - q * (w * size)
  {
  }

  // Counting goes on when a counter wraps.
  lemma CountUp(in_: nat, out: nat, n: nat)
    requires in_ < WORD && out < WORD && Wrap(in_ - out) + n < WORD
    ensures Wrap(Wrap(in_ + n) - out) == Wrap(in_ - out) + n
  {
  }

  lemma CountBack(in_: nat, out: nat)
    requires in_ < WORD && out < WORD
    ensures Wrap(out + Wrap(in_ - out)) == in_
  {
  }

  lemma FreeSpace(in_: nat, out: nat, size: nat)
    requires in_ < WORD && out < WORD && Wrap(in_ - out) <= size < WORD
    ensures Wrap(size - in_ + out) == size - Wrap(in_ - out)
  {
  }

  lemma CountDown(in_: nat, out: nat, n: nat)
    requires in_ < WORD && out < WORD && n <= Wrap(in_ - out)
    ensures Wrap(in_ - Wrap(out + n)) == Wrap(in_ - out) - n
  {
  }

  class Fifo {
    const buffer: array<Byte>
    const size: nat
    const mask: nat
    var in_: nat
    var out: nat
    // all bytes put and got so far
    ghost var written: seq<Byte>
    ghost var read: seq<Byte>

    // kfifo_init
    constructor (b: array<Byte>)
      requires IsSize(b.Length)
      ensures Valid() && buffer == b && Contents() == [] && written == read == []
    {
      buffer, size, mask := b, b.Length, b.Length - 1;
      in_, out, written, read := 0, 0, [], [];
      new;
      SizeDivides(size);
    }

    predicate Shaped()
      reads this
    {
      size == buffer.Length > 0 && in_ < WORD && out < WORD && Count() <= size
    }

    // The counters differ by the number of bytes held, modulo the word. The bytes put so far are
    // those got, in the same order, and those held.
    ghost predicate Valid()
      reads this, buffer
    {
      IsSize(size) && mask == size - 1 && Shaped() && written == read + Contents()
    }

    function Count(): nat
      reads this`in_, this`out
    {
      Wrap(in_ - out)
    }

    // The bytes held, oldest first.
    ghost function Contents(): (s: seq<Byte>)
      requires Shaped()
      reads this, buffer
      ensures |s| == Count()
    {
      Held(buffer[..], out % size, Count())
    }

    // The free place after the bytes held.
    lemma InPlace()
      requires Valid()
      ensures size > 0 && in_ % size == Ring(out % size, Count(), size)
    {
      SizeDivides(size);
      WrapPlace(out, Count(), size);
      CountBack(in_, out);
    }

    // kfifo_put
    method Put(data: array<Byte>, len: nat) returns (n: nat)
      requires Valid() && len <= data.Length && len < WORD && data != buffer
      modifies this`in_, this`written, buffer
      ensures Valid() && n == Min(len, size - |old(Contents())|)
      ensures Contents() == old(Contents()) + data[..n] && written == old(written) + data[..n]
    {
      InPlace();
      SizeDivides(size);
      ghost var c, was, a := Count(), buffer[..], out % size;
      n := Min(len, Wrap(size - in_ + out));
      FreeSpace(in_, out, size);
      CopyIn(in_ % size, data, n, a, c);
      CountUp(in_, out, n);
      Associative(read, Held(was, a, c), data[..n]);
      in_ := Wrap(in_ + n);
      written := written + data[..n];
    }

    // Two copies: up to the end of the buffer, and the rest from its beginning.
    method CopyIn(at: nat, data: array<Byte>, n: nat, ghost a: nat, ghost c: nat)
      requires size == buffer.Length && n <= data.Length && data != buffer
      requires a < size && c + n <= size && at == Ring(a, c, size)
      modifies buffer
      ensures Held(buffer[..], a, c + n) == old(Held(buffer[..], a, c)) + data[..n]
    {
      ghost var was := buffer[..];
      var l := Min(n, size - at);
      forall i | 0 <= i < l { buffer[at + i] := data[i]; }
      forall i | 0 <= i < n - l { buffer[i] := data[l + i]; }
      HeldPut(was, buffer[..], a, c, data[..n]);
    }

    // Two copies, out of the ring.
    method CopyOut(dst: array<Byte>, n: nat, at: nat)
      requires size == buffer.Length && at < size && n <= size && n <= dst.Length && dst != buffer
      modifies dst
      ensures dst[..n] == Held(buffer[..], at, n) && dst[n..] == old(dst[n..])
    {
      var l := Min(n, size - at);
      forall i | 0 <= i < l { dst[i] := buffer[at + i]; }
      forall i | 0 <= i < n - l { dst[l + i] := buffer[i]; }
    }

    // kfifo_get
    method Get(dst: array<Byte>, len: nat) returns (n: nat)
      requires Valid() && len <= dst.Length && dst != buffer
      modifies this`out, this`read, dst
      ensures Valid() && n == Min(len, |old(Contents())|)
      ensures dst[..n] == old(Contents())[..n] && dst[n..] == old(dst[n..])
      ensures Contents() == old(Contents())[n..] && read == old(read) + dst[..n]
    {
      SizeDivides(size);
      ghost var c, held := Count(), Contents();
      n := Min(len, Wrap(in_ - out));
      CopyOut(dst, n, out % size);
      HeldSplit(buffer[..], out % size, n, c);
      WrapPlace(out, n, size);
      CountDown(in_, out, n);
      Associative(read, held[..n], held[n..]);
      out := Wrap(out + n);
      read := read + dst[..n];
    }

    // kfifo_copy_out, with the offset masked
    method CopyOutMasked(dst: array<Byte>, len: nat, off: nat)
      requires Valid() && len <= size && len <= dst.Length && dst != buffer
      modifies dst
      ensures size > 0 && dst[..len] == Held(buffer[..], off % size, len) && dst[len..] == old(dst[len..])
    {
      SizeDivides(size);
      CopyOut(dst, len, off % (mask + 1));
    }

    // kfifo_out_peek: what the next get of the same length gives, and the queue stays
    method OutPeek(dst: array<Byte>, len: nat) returns (n: nat)
      requires Valid() && len <= dst.Length && dst != buffer
      modifies dst
      ensures Valid() && n == Min(len, |old(Contents())|)
      ensures dst[..n] == old(Contents())[..n] && dst[n..] == old(dst[n..])
      ensures Contents() == old(Contents())
    {
      SizeDivides(size);
      n := len;
      var l := Wrap(in_ - out);
      if n > l { n := l; }
      HeldSplit(buffer[..], out % size, n, l);
      CopyOutMasked(dst, n, out);
    }

    // kfifo_data_size
    method DataSize() returns (n: nat)
      requires Valid()
      ensures n == |Contents()|
    {
      SizeDivides(size);
      n := Wrap(in_ - out);
    }

    // kfifo_unused
    method Unused() returns (n: nat)
      requires Valid()
      ensures n + |Contents()| == size
    {
      SizeDivides(size);
      n := Wrap(mask + 1 - Wrap(in_ - out));
    }
  }

  // `c` bytes of a ring from a place on.
  ghost function Held(b: seq<Byte>, a: nat, c: nat): (s: seq<Byte>)
    requires a < |b| && c <= |b|
    ensures |s| == c
  {
    seq(c, i requires 0 <= i < c => b[Ring(a, i, |b|)])
  }

  // Writing after the bytes held appends to them.
  lemma HeldPut(was: seq<Byte>, now: seq<Byte>, a: nat, c: nat, data: seq<Byte>)
    requires a < |was| == |now| && c + |data| <= |was|
    requires forall j :: 0 <= j < |data| ==> now[Ring(Ring(a, c, |was|), j, |was|)] == data[j]
    requires forall i :: 0 <= i < c ==> now[Ring(a, i, |was|)] == was[Ring(a, i, |was|)]
    ensures Held(now, a, c + |data|) == Held(was, a, c) + data
  {
    forall i | 0 <= i < c + |data| ensures Held(now, a, c + |data|)[i] == (Held(was, a, c) + data)[i] {
      if i >= c { assert Ring(a, i, |was|) == Ring(Ring(a, c, |was|), i - c, |was|); }
    }
  }

  // The bytes held, in two parts.
  lemma HeldSplit(b: seq<Byte>, a: nat, n: nat, c: nat)
    requires a < |b| && n <= c <= |b|
    ensures Held(b, a, n) == Held(b, a, c)[..n]
    ensures Held(b, Ring(a, n, |b|), c - n) == Held(b, a, c)[n..]
  {
    forall i | 0 <= i < c - n ensures Held(b, Ring(a, n, |b|), c - n)[i] == Held(b, a, c)[n..][i] {
      assert Ring(Ring(a, n, |b|), i, |b|) == Ring(a, n + i, |b|);
    }
  }

  // Masking a counter with one less than the size is the remainder by the size, for all 32 sizes.
  lemma MaskIsRemainder(x: bv32)
    ensures x & 0x0 == x % 0x1 && x & 0x1 == x % 0x2
    ensures x & 0x3 == x % 0x4 && x & 0x7 == x % 0x8
    ensures x & 0xf == x % 0x10 && x & 0x1f == x % 0x20
    ensures x & 0x3f == x % 0x40 && x & 0x7f == x % 0x80
    ensures x & 0xff == x % 0x100 && x & 0x1ff == x % 0x200
    ensures x & 0x3ff == x % 0x400 && x & 0x7ff == x % 0x800
    ensures x & 0xfff == x % 0x1000 && x & 0x1fff == x % 0x2000
    ensures x & 0x3fff == x % 0x4000 && x & 0x7fff == x % 0x8000
    ensures x & 0xffff == x % 0x10000 && x & 0x1ffff == x % 0x20000
    ensures x & 0x3ffff == x % 0x40000 && x & 0x7ffff == x % 0x80000
    ensures x & 0xfffff == x % 0x100000 && x & 0x1fffff == x % 0x200000
    ensures x & 0x3fffff == x % 0x400000 && x & 0x7fffff == x % 0x800000
    ensures x & 0xffffff == x % 0x1000000 && x & 0x1ffffff == x % 0x2000000
    ensures x & 0x3ffffff == x % 0x4000000 && x & 0x7ffffff == x % 0x8000000
    ensures x & 0xfffffff == x % 0x10000000 && x & 0x1fffffff == x % 0x20000000
    ensures x & 0x3fffffff == x % 0x40000000 && x & 0x7fffffff == x % 0x80000000
  {
  }
}
