/** How close a printed number is to the one it was printed from. */
module CJsonPrecision {
  import opened CJsonText
  import opened CJsonNumbers

  // ---------- moving the decimal point ----------

  // k places to the right, or to the left if k is negative.
  function Moved(x: real, k: int): real
    decreases if k < 0 then -k else k
  {
    if k == 0 then x else if k > 0 then 10.0 * Moved(x, k - 1) else Moved(x, k + 1) / 10.0
  }

  lemma MovedNext(x: real, k: int)
    ensures Moved(x, k + 1) == 10.0 * Moved(x, k)
  {
  }

  lemma {:induction false} MovedTen(x: real, k: int)
    ensures Moved(10.0 * x, k) == 10.0 * Moved(x, k)
    decreases if k < 0 then -k else k
  {
    if k > 0 { MovedTen(x, k - 1); } else if k < 0 { MovedTen(x, k + 1); }
  }

  lemma {:induction false} MovedIsProduct(x: real, k: int)
    ensures Moved(x, k) == x * PowTen(k)
    decreases if k < 0 then -k else k
  {
    if k > 0 {
      MovedIsProduct(x, k - 1);
      TenTimes(x, PowTen(k - 1), PowTen(k));
    } else if k < 0 {
      MovedIsProduct(x, k + 1);
      TenTimes(x, PowTen(k), PowTen(k + 1));
    }
  }

  lemma TenTimes(x: real, y: real, y': real)
    requires y' == 10.0 * y
    ensures x * y' == 10.0 * (x * y)
  {
  }

  // Distances are moved with the point.
  lemma {:induction false} MovedNear(x: real, y: real, k: int)
    requires -0.5 <= x - y <= 0.5 && 1000000.0 <= y
    ensures -0.0000005 * Moved(y, k) <= Moved(x, k) - Moved(y, k) <= 0.0000005 * Moved(y, k)
    decreases if k < 0 then -k else k
  {
    if k > 0 { MovedNear(x, y, k - 1); } else if k < 0 { MovedNear(x, y, k + 1); }
  }

  // Moving the point and back is nothing.
  lemma {:induction false} ShiftMoves(x: real, e: int, places: nat)
    requires x >= 0.0
    ensures var r := Shift(x, e, places); Moved(r.0, r.1) == Moved(x, e)
    decreases places
  {
    if places > 0 {
      if x >= 10000000.0 {
        ShiftMoves(x / 10.0, e + 1, places - 1);
        MovedNext(x / 10.0, e);
        MovedTen(x / 10.0, e);
      } else if x < 1000000.0 {
        ShiftMoves(x * 10.0, e - 1, places - 1);
        MovedNext(x * 10.0, e - 1);
        MovedTen(x, e);
      }
    }
  }

  // Enough places leave seven digits before the point.
  lemma {:induction false} ShiftEnds(x: real, e: int, places: nat, k: int)
    requires PowTen(k) <= x < PowTen(k + 1) && places >= if k < 6 then 6 - k else k - 6
    ensures var r := Shift(x, e, places); 1000000.0 <= r.0 < 10000000.0 && r.1 == e + k - 6
    decreases places
  {
    TenApart(k);
    if k > 6 {
      Above(k, 7);
      ShiftEnds(x / 10.0, e + 1, places - 1, k - 1);
    } else if k < 6 {
      Above(6, k + 1);
      TenApart(k + 1);
      ShiftEnds(x * 10.0, e - 1, places - 1, k + 1);
    }
    Millions();
  }

  lemma TenApart(k: int)
    ensures PowTen(k + 1) == 10.0 * PowTen(k) && PowTen(k) == 10.0 * PowTen(k - 1)
  {
  }

  lemma {:induction false} Above(j: int, k: int)
    requires j >= k
    ensures PowTen(j) >= PowTen(k) > 0.0
    decreases j - k
  {
    Positive(k);
    if j > k {
      Above(j - 1, k);
      TenApart(j - 1);
    }
  }

  lemma {:induction false} Positive(k: int)
    ensures PowTen(k) > 0.0
    decreases if k < 0 then -k else k
  {
    if k > 0 { Positive(k - 1); } else if k < 0 { Positive(k + 1); }
  }

  lemma Millions()
    ensures PowTen(6) == 1000000.0 && PowTen(7) == 10000000.0 && PowTen(-6) == 0.000001
  {
    SixIsMillion();
    TenApart(6);
  }

  // The place of the first digit.
  lemma {:induction false} FirstDigit(x: real, low: int, high: int) returns (k: int)
    requires low < high && PowTen(low) <= x < PowTen(high)
    ensures low <= k < high && PowTen(k) <= x < PowTen(k + 1)
    decreases high - low
  {
    if high == low + 1 || x < PowTen(low + 1) {
      k := low;
    } else {
      k := FirstDigit(x, low + 1, high);
    }
  }

  // ---------- printed numbers ----------

  // The seven digits of "%e", and that the point is moved back to where it was.
  lemma SevenDigits(d: real)
    requires Finite(d) && d != 0.0
    ensures var (y, e) := Shift(Abs(d), 6, PLACES + 10);
      1000000.0 <= y < 10000000.0 && -PLACES <= e < PLACES && Moved(y, e - 6) == Abs(d)
  {
    var k := FirstDigit(Abs(d), -PLACES, PLACES);
    ShiftEnds(Abs(d), 6, PLACES + 10, k);
    ShiftMoves(Abs(d), 6, PLACES + 10);
    ShiftMoves(Abs(d), 0, PLACES + 10);
    ShiftOffset(Abs(d), 0, 6, PLACES + 10);
  }

  lemma {:induction false} ShiftOffset(x: real, e: int, f: int, places: nat)
    requires x >= 0.0
    ensures Shift(x, e, places).0 == Shift(x, f, places).0 && Shift(x, e, places).1 - e == Shift(x, f, places).1 - f
    decreases places
  {
    if places > 0 {
      if x >= 10000000.0 {
        ShiftOffset(x / 10.0, e + 1, f + 1, places - 1);
      } else if x < 1000000.0 {
        ShiftOffset(x * 10.0, e - 1, f - 1, places - 1);
      }
    }
  }

  lemma RoundedNear(x: real)
    requires x >= 0.0
    ensures -0.5 <= Rounded(x) as real - x <= 0.5
  {
  }

  // "%e" is within half a unit of the seventh digit.
  lemma ScientificNear(d: real)
    requires Finite(d) && d != 0.0
    ensures var (m, e) := ScientificUnits(d); Abs(Moved(m as real, e - 6) - Abs(d)) <= 0.0000005 * Abs(d)
  {
    var (y, e) := Shift(Abs(d), 6, PLACES + 10);
    SevenDigits(d);
    RoundedNear(y);
    MovedNear(Rounded(y) as real, y, e - 6);
    if Rounded(y) == 10000000 {
      MovedNext(1000000.0, e - 6);
      MovedTen(1000000.0, e - 6);
    }
  }

  lemma SignedNear(d: real, sign: real, m: real, p: real, s: real)
    requires sign == (if d < 0.0 then -1.0 else 1.0) && s == m * p
    ensures Abs(sign * m * p - d) == Abs(s - Abs(d))
  {
    assert sign * m * p == if d < 0.0 then -s else s;
  }

  lemma FixedNear(d: real)
    ensures Abs(FixedUnits(d) as real * 0.000001 - Abs(d)) <= 0.0000005
  {
    RoundedNear(Abs(d) * 1000000.0);
  }

  // A printed number is within half a millionth of the one it was printed from; of its size, where
  // it is printed with an exponent.
  lemma ShownNear(d: real)
    requires Finite(d)
    ensures Abs(ShownNumber(d) - d) <= 0.0000005 * if StyleOf(d).Scientific? then Abs(d) else 1.0
  {
    match StyleOf(d)
    case Scientific => ScientificShown(d);
    case Fixed => FixedShown(d);
    case _ =>
  }

  lemma ScientificShown(d: real)
    requires Finite(d) && StyleOf(d).Scientific?
    ensures Abs(ShownNumber(d) - d) <= 0.0000005 * Abs(d)
  {
    var (m, e) := ScientificUnits(d);
    ScientificNear(d);
    SignedScaled(d, if d < 0.0 then -1.0 else 1.0, m as real, e - 6);
  }

  lemma SignedScaled(d: real, sign: real, m: real, k: int)
    requires sign == if d < 0.0 then -1.0 else 1.0
    ensures Abs(Scaled(sign, m, k) - d) == Abs(Moved(m, k) - Abs(d))
  {
    MovedIsProduct(m, k);
    SignedNear(d, sign, m, PowTen(k), Moved(m, k));
  }

  lemma FixedShown(d: real)
    requires StyleOf(d).Fixed?
    ensures Abs(ShownNumber(d) - d) <= 0.0000005
  {
    var m := FixedUnits(d) as real;
    FixedNear(d);
    Millions();
    SignedNear(d, if d < 0.0 then -1.0 else 1.0, m, 0.000001, m * 0.000001);
  }

  // Integers below 10^60 are printed exactly.
  lemma IntegerShown(d: real)
    requires d == d.Floor as real && Abs(d) < WHOLE_LIMIT
    ensures ShownNumber(d) == d
  {
    if d < 0.0 { assert (-d).Floor == -d.Floor; }
  }

  // So are whole numbers of millionths up to 10^9.
  lemma MillionthsShown(d: real, n: int)
    requires d * 1000000.0 == n as real && Abs(d) <= 1000000000.0
    ensures ShownNumber(d) == d
  {
    var t, f := Truncate(d), d.Floor;
    if Abs(t as real - d) <= EPSILON { Apart(t, n, d); }
    if Abs(f as real - d) <= EPSILON { Apart(f, n, d); }
    if d != 0.0 { assert n >= 1 || n <= -1; }
    if StyleOf(d).Fixed? {
      var k := if d < 0.0 then -n else n;
      assert Abs(d) * 1000000.0 == k as real && Rounded(k as real) == k;
      Millions();
    }
  }

  // A whole number of millionths close to an integer is the integer.
  lemma Apart(t: int, n: int, d: real)
    requires d * 1000000.0 == n as real && Abs(t as real - d) <= EPSILON
    ensures t as real == d
  {
    var k := t * 1000000 - n;
    assert k as real == (t as real - d) * 1000000.0;
    assert EPSILON * 1000000.0 < 1.0;
    assert -1.0 < k as real < 1.0;
  }
}
