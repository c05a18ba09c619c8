/** pow2gt of cJSON.c: the bits of x-1 are smeared downwards and one is added. */
module PowerOfTwo {
  import opened Sequences

  // x | y
  function Or(a: nat, b: nat): nat
    decreases a + b
  {
    if a == 0 && b == 0 then 0
    else 2 * Or(a / 2, b / 2) + if a % 2 == 1 || b % 2 == 1 then 1 else 0
  }

  // x shifted right by k.
  function Shr(x: nat, k: nat): nat {
    if k == 0 then x else Shr(x / 2, k - 1)
  }

  // x with its bits also k places further right.
  function Fold(x: nat, k: nat): nat {
    Or(x, Shr(x, k))
  }

  function Smear(x: nat): nat {
    Fold(Fold(Fold(Fold(Fold(x, 1), 2), 4), 8), 16)
  }

  function Pow2gt(x: nat): nat
    requires 1 <= x
  {
    Smear(x - 1) + 1
  }

  lemma {:induction false} ShrHalf(x: nat, k: nat)
    ensures Shr(x, k) / 2 == Shr(x / 2, k)
  {
    if k > 0 { ShrHalf(x / 2, k - 1); }
  }

  lemma FoldHalf(x: nat, k: nat)
    ensures Fold(x, k) / 2 == Fold(x / 2, k)
    ensures Fold(x, k) % 2 == if x % 2 == 1 || Shr(x, k) % 2 == 1 then 1 else 0
  {
    ShrHalf(x, k);
  }

  // Folding commutes with shifting.
  lemma {:induction false} FoldShr(x: nat, k: nat, j: nat)
    ensures Shr(Fold(x, k), j) == Fold(Shr(x, j), k)
  {
    if j > 0 {
      FoldHalf(x, k);
      FoldShr(x / 2, k, j - 1);
    }
  }

  // The low `n` bits are zero.
  predicate ZeroBits(x: nat, n: nat) {
    n == 0 || (x % 2 == 0 && ZeroBits(x / 2, n - 1))
  }

  lemma {:induction false} ZeroBitsJoin(x: nat, n: nat, m: nat)
    requires ZeroBits(x, n) && ZeroBits(Shr(x, n), m)
    ensures ZeroBits(x, n + m)
  {
    if n > 0 { ZeroBitsJoin(x / 2, n - 1, m); }
  }

  // A smear with low bit 0 has seen only zero bits.
  lemma SmearLow(x: nat)
    requires Smear(x) % 2 == 0
    ensures ZeroBits(x, 32)
  {
    var x1 := Fold(x, 1);
    var x2 := Fold(x1, 2);
    var x3 := Fold(x2, 4);
    var x4 := Fold(x3, 8);
    FoldHalf(x4, 16);
    SmearLow8(x);
    FoldShr(x, 1, 16);
    FoldShr(x1, 2, 16);
    FoldShr(x2, 4, 16);
    FoldShr(x3, 8, 16);
    SmearLow8(Shr(x, 16));
    ZeroBitsJoin(x, 16, 16);
  }

  lemma SmearLow8(x: nat)
    requires Fold(Fold(Fold(Fold(x, 1), 2), 4), 8) % 2 == 0
    ensures ZeroBits(x, 16)
  {
    var x1 := Fold(x, 1);
    var x2 := Fold(x1, 2);
    var x3 := Fold(x2, 4);
    FoldHalf(x3, 8);
    SmearLow4(x);
    FoldShr(x, 1, 8);
    FoldShr(x1, 2, 8);
    FoldShr(x2, 4, 8);
    SmearLow4(Shr(x, 8));
    ZeroBitsJoin(x, 8, 8);
  }

  lemma SmearLow4(x: nat)
    requires Fold(Fold(Fold(x, 1), 2), 4) % 2 == 0
    ensures ZeroBits(x, 8)
  {
    var x1 := Fold(x, 1);
    var x2 := Fold(x1, 2);
    FoldHalf(x2, 4);
    SmearLow2(x);
    FoldShr(x, 1, 4);
    FoldShr(x1, 2, 4);
    SmearLow2(Shr(x, 4));
    ZeroBitsJoin(x, 4, 4);
  }

  lemma SmearLow2(x: nat)
    requires Fold(Fold(x, 1), 2) % 2 == 0
    ensures ZeroBits(x, 4)
  {
    var x1 := Fold(x, 1);
    FoldHalf(x1, 2);
    SmearLow1(x);
    FoldShr(x, 1, 2);
    SmearLow1(Shr(x, 2));
    ZeroBitsJoin(x, 2, 2);
  }

  lemma SmearLow1(x: nat)
    requires Fold(x, 1) % 2 == 0
    ensures ZeroBits(x, 2)
  {
    FoldHalf(x, 1);
    assert Shr(x, 1) == x / 2;
    assert ZeroBits(x / 2, 1);
  }

  lemma {:induction false} ZeroIsZero(x: nat, n: nat)
    requires ZeroBits(x, n) && x < Power2(n)
    ensures x == 0
  {
    if n > 0 { ZeroIsZero(x / 2, n - 1); }
  }

  // The smear of a number of k bits is k ones.
  lemma {:induction false} SmearOnes(x: nat, k: nat)
    requires k <= 32 && if k == 0 then x == 0 else Power2(k - 1) <= x < Power2(k)
    ensures Smear(x) == Power2(k) - 1
  {
    if k > 0 {
      if Smear(x) % 2 == 0 {
        SmearLow(x);
        PowerGrows(k, 32);
        ZeroIsZero(x, 32);
      }
      SmearHalf(x);
      HalfBits(x, k);
      SmearOnes(x / 2, k - 1);
    }
  }

  lemma HalfBits(x: nat, k: nat)
    requires k > 0 && Power2(k - 1) <= x < Power2(k)
    ensures if k == 1 then x / 2 == 0 else Power2(k - 2) <= x / 2 < Power2(k - 1)
  {
  }

  lemma SmearHalf(x: nat)
    ensures Smear(x) / 2 == Smear(x / 2)
  {
    FoldHalf(x, 1);
    FoldHalf(Fold(x, 1), 2);
    FoldHalf(Fold(Fold(x, 1), 2), 4);
    FoldHalf(Fold(Fold(Fold(x, 1), 2), 4), 8);
    FoldHalf(Fold(Fold(Fold(Fold(x, 1), 2), 4), 8), 16);
  }

  lemma {:induction false} PowerGrows(j: nat, k: nat)
    requires j <= k
    ensures 0 < Power2(j) <= Power2(k)
  {
    if j < k { PowerGrows(j, k - 1); }
    if j == k && 0 < k { PowerGrows(j - 1, k - 1); }
  }

  lemma {:induction false} BitLength(x: nat) returns (k: nat)
    ensures if k == 0 then x == 0 else Power2(k - 1) <= x < Power2(k)
  {
    if x == 0 {
      k := 0;
    } else {
      var j := BitLength(x / 2);
      k := j + 1;
    }
  }

  // pow2gt yields the least power of two that is not below x, as long as that is an int.
  lemma Pow2gtIsLeast(x: nat)
    requires 1 <= x <= 0x4000_0000
    ensures x <= Pow2gt(x) && Pow2gt(x) < 2 * x && Pow2gt(x) <= 0x4000_0000
    ensures exists k :: Pow2gt(x) == Power2(k)
  {
    var k := BitLength(x - 1);
    assert Power2(10) == 1024 && Power2(20) == 1024 * 1024 by { PowerAdd(10, 10); }
    assert Power2(30) == 0x4000_0000 by { PowerAdd(10, 20); }
    if k > 30 { PowerGrows(30, k - 1); }
    SmearOnes(x - 1, k);
    if k <= 30 { PowerGrows(k, 30); }
    assert Pow2gt(x) == Power2(k);
  }

  lemma {:induction false} PowerAdd(j: nat, k: nat)
    ensures Power2(j + k) == Power2(j) * Power2(k)
  {
    if j > 0 { PowerAdd(j - 1, k); }
  }
}
