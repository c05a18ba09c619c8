/** Numbers: the parser reads back the number that a printed text denotes, and exactly which characters
    after a number would go on it. */
module CJsonNumbers {
  import opened Sequences
  import opened CString
  import opened CJsonText

  predicate NumberChars(a: string) {
    forall i :: 0 <= i < |a| ==> IsDigit(a[i]) || a[i] in {'.', 'e', 'E', '+', '-'}
  }

  predicate IsE(c: char) {
    c == 'e' || c == 'E'
  }

  // The text `next` right behind the number `a` changes what is read.
  predicate GoesOn(a: string, next: string) {
    var c := Peek(next);
    if exists i :: 0 <= i < |a| && IsE(a[i]) then IsDigit(c) || (IsE(a[|a| - 1]) && c in {'+', '-'})
    else if '.' in a then IsDigit(c) || IsE(c)
    else (IsDigit(c) && !(a in {"0", "-0"} && c == '0')) || IsE(c) || (c == '.' && IsDigit(Peek(next, 1)))
  }

  // No byte here can extend a number that ends just before.
  predicate EndsNumber(p: string) {
    !IsDigit(Peek(p)) && Peek(p) !in {'.', 'e', 'E'}
  }

  // No character that could go on any number.
  predicate Stops(p: string) {
    EndsNumber(p) && Peek(p) !in {'+', '-'}
  }

  lemma {:induction false} SplitDigits(p: string) returns (a: string, rest: string)
    ensures p == a + rest && !IsDigit(Peek(rest)) && AllDigits(a)
    ensures IsDigit(Peek(p)) ==> a != "" && a[0] == p[0]
    decreases |p|
  {
    a, rest := "", p;
    if IsDigit(Peek(p)) {
      a, rest := SplitDigits(p[1..]);
      Associative([p[0]], a, rest);
      a := [p[0]] + a;
    }
  }

  predicate AllDigits(a: string) {
    forall i :: 0 <= i < |a| ==> IsDigit(a[i])
  }

  lemma {:induction false} DigitsBefore(a: string, r: string, n: real)
    requires AllDigits(a) && !IsDigit(Peek(r))
    ensures ParseDigits(a + r, n) == (ParseDigits(a, n).0, |a|, r)
  {
    if a == "" {
      assert a + r == r;
    } else {
      assert (a + r)[1..] == a[1..] + r;
      DigitsBefore(a[1..], r, n * 10.0 + (a[0] as int - '0' as int) as real);
    }
  }

  lemma {:induction false} IntBefore(a: string, r: string, n: int)
    requires AllDigits(a) && !IsDigit(Peek(r))
    ensures ParseInt(a + r, n) == (ParseInt(a, n).0, r)
  {
    if a == "" {
      assert a + r == r;
    } else {
      assert (a + r)[1..] == a[1..] + r;
      IntBefore(a[1..], r, n * 10 + (a[0] as int - '0' as int));
    }
  }

  lemma {:induction false} DigitsEat(a: string, r: string, n: real)
    requires AllDigits(a) && IsDigit(Peek(r))
    ensures |ParseDigits(a + r, n).2| < |r|
  {
    if a == "" {
      assert a + r == r;
    } else {
      assert (a + r)[1..] == a[1..] + r;
      DigitsEat(a[1..], r, n * 10.0 + (a[0] as int - '0' as int) as real);
    }
  }

  lemma {:induction false} IntEats(a: string, r: string, n: int)
    requires AllDigits(a) && IsDigit(Peek(r))
    ensures |ParseInt(a + r, n).1| < |r|
  {
    if a == "" {
      assert a + r == r;
    } else {
      assert (a + r)[1..] == a[1..] + r;
      IntEats(a[1..], r, n * 10 + (a[0] as int - '0' as int));
    }
  }

  // A sign, if there is one, and what follows it.
  lemma SplitSign(p: string, signs: set<char>) returns (sign: string, rest: string)
    ensures p == sign + rest && |sign| <= 1
    ensures if Peek(p) in signs && p != "" then sign == [p[0]] else sign == ""
  {
    if p != "" && p[0] in signs { sign, rest := [p[0]], p[1..]; } else { sign, rest := "", p; }
  }

  lemma ExponentAt(e: char, sign: string, r: string)
    requires e in {'e', 'E'} && sign in {"", "+", "-"} && (sign == "" ==> Peek(r) !in {'+', '-'})
    ensures var (n, rest) := ParseInt(r, 0);
      ParseExponent([e] + (sign + r)) == (if sign == "-" then -n else n, rest)
  {
    var p := [e] + (sign + r);
    assert Advance(p, 1) == sign + r;
    if sign == "" {
      assert sign + r == r;
    } else {
      assert Advance(sign + r, 1) == r;
    }
  }

  lemma NumberJoin(a: string, b: string)
    requires NumberChars(a) && NumberChars(b)
    ensures NumberChars(a + b)
  {
  }

  // The exponent at `p`, and what becomes of it before `next`.
  predicate GoesOnExponent(x: string, next: string) {
    if x == "" then IsE(Peek(next))
    else IsDigit(Peek(next)) || (IsE(x[|x| - 1]) && Peek(next) in {'+', '-'})
  }

  lemma SplitExponent(p: string, next: string) returns (x: string)
    ensures NumberChars(x) && p == x + ParseExponent(p).1 && (x != "" ==> IsE(x[0]))
    ensures if GoesOnExponent(x, next) then |ParseExponent(x + next).1| < |next|
      else ParseExponent(x + next) == (ParseExponent(p).0, next)
  {
    if IsE(Peek(p)) {
      var sign, s := SplitSign(p[1..], {'+', '-'});
      var b, rest := SplitDigits(s);
      x := [p[0]] + (sign + b);
      NumberJoin(sign, b);
      NumberJoin([p[0]], sign + b);
      InnerNested([p[0]], sign, b, next);
      InnerNested([p[0]], sign, b, rest);
      ExponentAt(p[0], sign, s);
      IntBefore(b, rest, 0);
      ExponentBefore(p[0], sign, b, next);
    } else {
      x := "";
      assert x + next == next;
      ExponentNone(next);
    }
  }

  lemma ExponentNone(next: string)
    ensures if IsE(Peek(next)) then |ParseExponent(next).1| < |next| else ParseExponent(next) == (0, next)
  {
  }

  lemma ExponentBefore(e: char, sign: string, b: string, next: string)
    requires IsE(e) && sign in {"", "+", "-"} && AllDigits(b)
    ensures var x, (n, rest) := [e] + (sign + b), ParseExponent([e] + (sign + (b + next)));
      if GoesOnExponent(x, next) then |rest| < |next|
      else (n, rest) == (if sign == "-" then -ParseInt(b, 0).0 else ParseInt(b, 0).0, next)
  {
    LastShows(e, sign, b);
    if sign == "" && b == "" && Peek(next) in {'+', '-'} {
      assert [e] + (sign + (b + next)) == [e] + ([next[0]] + next[1..]);
      ExponentAt(e, [next[0]], next[1..]);
    } else {
      assert b == "" ==> b + next == next;
      ExponentAt(e, sign, b + next);
      if IsDigit(Peek(next)) { IntEats(b, next, 0); } else { IntBefore(b, next, 0); }
    }
  }

  lemma LastShows(e: char, sign: string, b: string)
    requires IsE(e) && sign in {"", "+", "-"} && AllDigits(b)
    ensures var x := [e] + (sign + b); IsE(x[|x| - 1]) <==> sign == "" && b == ""
  {
    var x := [e] + (sign + b);
    if b != "" {
      assert x[|x| - 1] == b[|b| - 1];
    } else if sign != "" {
      assert x[|x| - 1] == sign[0];
    }
  }

  // The digits after a point.
  predicate GoesOnFraction(f: string, next: string) {
    if f == "" then Peek(next) == '.' && IsDigit(Peek(next, 1)) else IsDigit(Peek(next))
  }

  lemma SplitFraction(p: string, n: real) returns (f: string)
    ensures p == f + ParseFraction(p, n).2 && IsFraction(f)
    ensures forall next {:trigger f + next} :: if GoesOnFraction(f, next) then |ParseFraction(f + next, n).2| < |next|
      else ParseFraction(f + next, n) == (ParseFraction(p, n).0, ParseFraction(p, n).1, next)
  {
    if Peek(p) == '.' && IsDigit(Peek(p, 1)) {
      var b, rest := SplitDigits(p[1..]);
      f := "." + b;
      DigitsBefore(b, rest, n);
      forall next ensures if GoesOnFraction(f, next) then |ParseFraction(f + next, n).2| < |next|
        else ParseFraction(f + next, n) == (ParseFraction(p, n).0, ParseFraction(p, n).1, next)
      {
        FractionBefore(b, next, n);
      }
    } else {
      f := "";
      forall next ensures if GoesOnFraction(f, next) then |ParseFraction(f + next, n).2| < |next|
        else ParseFraction(f + next, n) == (n, 0, next)
      {
        assert f + next == next;
      }
    }
  }

  predicate IsFraction(f: string) {
    f == "" || (|f| >= 2 && f[0] == '.' && AllDigits(f[1..]))
  }

  lemma FractionBefore(b: string, next: string, n: real)
    requires b != "" && AllDigits(b)
    ensures var r := ParseFraction("." + b + next, n);
      if IsDigit(Peek(next)) then |r.2| < |next| else r == (ParseDigits(b, n).0, |b|, next)
  {
    var p := "." + b + next;
    assert Advance(p, 1) == b + next && p[1] == b[0];
    if IsDigit(Peek(next)) { DigitsEat(b, next, n); } else { DigitsBefore(b, next, n); }
  }

  lemma WholeAt(zero: string, r: string)
    requires zero in {"", "0"} && (zero == "" ==> Peek(r) != '0')
    ensures ParseWhole(zero + r) ==
      if '1' <= Peek(r) <= '9' then (ParseDigits(r, 0.0).0, ParseDigits(r, 0.0).2) else (0.0, r)
  {
    if zero == "" {
      assert zero + r == r;
    } else {
      assert Advance(zero + r, 1) == r;
    }
  }

  // The digits before the point: none, a zero, or a number that may follow one zero.
  predicate GoesOnWhole(w: string, next: string) {
    IsDigit(Peek(next)) && !(w == "0" && Peek(next) == '0')
  }

  lemma SplitWhole(p: string) returns (w: string)
    ensures p == w + ParseWhole(p).1 && AllDigits(w) && (IsDigit(Peek(p)) ==> w != "")
    ensures forall next {:trigger w + next} :: if GoesOnWhole(w, next) then |ParseWhole(w + next).1| < |next|
      else ParseWhole(w + next) == (ParseWhole(p).0, next)
  {
    var zero, s := SplitSign(p, {'0'});
    var b, rest := "", s;
    if '1' <= Peek(s) <= '9' { b, rest := SplitDigits(s); DigitsBefore(b, rest, 0.0); }
    w := zero + b;
    WholeAt(zero, s);
    Associative(zero, b, rest);
    forall next ensures if GoesOnWhole(w, next) then |ParseWhole(w + next).1| < |next|
      else ParseWhole(w + next) == (ParseWhole(p).0, next)
    {
      Associative(zero, b, next);
      if b == "" { WholeNone(zero, next); } else { WholeBefore(zero, b, next); }
    }
  }

  lemma WholeNone(zero: string, next: string)
    requires zero in {"", "0"}
    ensures if GoesOnWhole(zero, next) then |ParseWhole(zero + next).1| < |next| else ParseWhole(zero + next) == (0.0, next)
  {
    if zero == "" && Peek(next) == '0' {
      assert zero + next == "0" + next[1..];
      WholeAt("0", next[1..]);
    } else {
      WholeAt(zero, next);
    }
  }

  lemma WholeBefore(zero: string, b: string, next: string)
    requires zero in {"", "0"} && b != "" && AllDigits(b) && b[0] != '0'
    ensures var r := ParseWhole(zero + (b + next));
      if IsDigit(Peek(next)) then |r.1| < |next| else r == (ParseDigits(b, 0.0).0, next)
  {
    WholeAt(zero, b + next);
    if IsDigit(Peek(next)) { DigitsEat(b, next, 0.0); } else { DigitsBefore(b, next, 0.0); }
  }

  lemma NumberAt(sign: string, r: string)
    requires sign in {"", "-"} && (sign == "" ==> Peek(r) != '-')
    ensures var (whole, p1) := ParseWhole(r);
      var (n, scale, p2) := ParseFraction(p1, whole);
      var (exponent, rest) := ParseExponent(p2);
      ParseNumber(sign + r) == (Scaled(if sign == "-" then -1.0 else 1.0, n, exponent - scale), rest)
  {
    if sign == "" {
      assert sign + r == r;
    } else {
      assert Advance(sign + r, 1) == r;
    }
  }

  // The three parts of a number.
  function Unsigned(p: string): (real, nat, int, string) {
    var (whole, p1) := ParseWhole(p);
    var (n, scale, p2) := ParseFraction(p1, whole);
    var (exponent, rest) := ParseExponent(p2);
    (n, scale, exponent, rest)
  }

  // Which part of a number `next` goes on.
  predicate GoesOnParts(w: string, f: string, x: string, next: string) {
    GoesOnExponent(x, next) || (x == "" && (GoesOnFraction(f, next) || (f == "" && GoesOnWhole(w, next))))
  }

  lemma SplitUnsigned(p: string, next: string) returns (w: string, f: string, x: string)
    ensures AllDigits(w) && IsFraction(f) && NumberChars(x) && (x != "" ==> IsE(x[0])) && (IsDigit(Peek(p)) ==> w != "")
    ensures p == w + (f + x) + Unsigned(p).3
    ensures var r := Unsigned(w + (f + x) + next);
      if GoesOnParts(w, f, x, next) then |r.3| < |next|
      else r == (Unsigned(p).0, Unsigned(p).1, Unsigned(p).2, next)
  {
    var (whole, p1) := ParseWhole(p);
    var p2 := ParseFraction(p1, whole).2;
    w := SplitWhole(p);
    f := SplitFraction(p1, whole);
    x := SplitExponent(p2, next);
    InnerNested(w, f, x, next);
    InnerNested(w, f, x, Unsigned(p).3);
    assert x == "" ==> x + next == next;
    assert f == "" ==> f + (x + next) == x + next;
  }

  // The characters of a number tell its parts.
  lemma PartsShow(sign: string, w: string, f: string, x: string, next: string)
    requires sign in {"", "-"} && AllDigits(w) && IsFraction(f) && NumberChars(x) && (x != "" ==> IsE(x[0]))
    ensures GoesOn(sign + (w + (f + x)), next) <==> GoesOnParts(w, f, x, next)
  {
    var a := sign + (w + (f + x));
    var at := |sign| + |w| + |f|;
    assert forall i :: 0 <= i < at ==> !IsE(a[i]) by { NoE(sign, w, f, x); }
    if x != "" {
      assert a[at] == x[0] && a[|a| - 1] == x[|x| - 1];
    } else {
      assert |a| == at;
      WholeShows(sign, w, f);
      assert a == sign + (w + f) by { assert f + x == f; }
    }
  }

  lemma NoE(sign: string, w: string, f: string, x: string)
    requires sign in {"", "-"} && AllDigits(w) && IsFraction(f)
    ensures forall i :: 0 <= i < |sign| + |w| + |f| ==> !IsE((sign + (w + (f + x)))[i])
  {
    var a := sign + (w + (f + x));
    forall i | 0 <= i < |sign| + |w| + |f| ensures !IsE(a[i]) {
      if i >= |sign| + |w| {
        var k := i - |sign| - |w|;
        assert a[i] == f[k];
        if k > 0 { assert f[1..][k - 1] == f[k]; }
      } else if i >= |sign| {
        assert a[i] == w[i - |sign|];
      }
    }
  }

  lemma WholeShows(sign: string, w: string, f: string)
    requires sign in {"", "-"} && AllDigits(w) && IsFraction(f)
    ensures var a := sign + (w + f);
      ('.' in a <==> f != "") && (f == "" ==> (a in {"0", "-0"} <==> w == "0"))
  {
    var a := sign + (w + f);
    if f != "" {
      assert a[|sign| + |w|] == '.';
    } else {
      assert a == sign + w;
      assert '.' !in sign && '.' !in w;
      assert a[|sign|..] == w && a[..|sign|] == sign;
      if sign == "" {
        assert a == w && (a == "-0" ==> IsDigit(w[0]));
      } else {
        assert a[0] == '-' && (a == "-0" ==> w == "-0"[1..]) && (w == "0" ==> a == "-" + "0");
      }
    }
  }

  // A number is read as the same before another text if and only if that does not go on it.
  lemma NumberKept(p: string, next: string) returns (a: string)
    requires Peek(p) == '-' || IsDigit(Peek(p))
    ensures NumberChars(a) && p == a + ParseNumber(p).1 && a != "" && a[0] == p[0]
    ensures ParseNumber(a + next) == (ParseNumber(p).0, next) <==> !GoesOn(a, next)
  {
    var sign, s := SplitSign(p, {'-'});
    var w, f, x := SplitUnsigned(s, next);
    var b := w + (f + x);
    a := sign + b;
    PartsShow(sign, w, f, x, next);
    PartsChars(w, f, x);
    NumberAt(sign, s);
    Associative(sign, b, next);
    Associative(sign, b, ParseNumber(p).1);
    NumberAt(sign, b + next);
  }

  lemma PartsChars(w: string, f: string, x: string)
    requires AllDigits(w) && IsFraction(f) && NumberChars(x)
    ensures NumberChars(w + (f + x)) && (w != "" ==> IsDigit((w + (f + x))[0]))
  {
    assert NumberChars(f) by {
      forall i | 0 <= i < |f| ensures IsDigit(f[i]) || f[i] == '.' {
        if i > 0 { assert f[1..][i - 1] == f[i]; }
      }
    }
    NumberJoin(f, x);
    NumberJoin(w, f + x);
  }

  lemma StopsStop(a: string, next: string)
    requires Stops(next)
    ensures !GoesOn(a, next)
  {
  }

  // ---------- printed numbers ----------

  lemma {:induction false} ParseDigitsAppend(a: string, b: string, n: real)
    requires forall c <- a :: IsDigit(c)
    ensures ParseDigits(a + b, n).0 == ParseDigits(b, ParseDigits(a, n).0).0
    ensures ParseDigits(a + b, n).2 == ParseDigits(b, ParseDigits(a, n).0).2
  {
    if a == "" {
      assert a + b == b;
    } else {
      assert (a + b)[1..] == a[1..] + b;
      ParseDigitsAppend(a[1..], b, n * 10.0 + (a[0] as int - '0' as int) as real);
    }
  }

  lemma {:induction false} ParsePrintedDigits(n: nat)
    ensures ParseDigits(Digits(n), 0.0).0 == n as real
  {
    if n >= 10 {
      ParsePrintedDigits(n / 10);
      ParseDigitsAppend(Digits(n / 10), [DigitChar(n % 10)], 0.0);
      assert n == n / 10 * 10 + n % 10;
    }
  }

  lemma {:induction false} DigitsStart(n: nat)
    ensures 0 < n ==> '1' <= Digits(n)[0] <= '9'
    ensures n == 0 ==> Digits(n) == "0"
  {
    if n >= 10 { DigitsStart(n / 10); }
  }

  lemma ParsePrintedNat(n: nat, rest: string)
    requires !IsDigit(Peek(rest))
    ensures ParseWhole(Digits(n) + rest) == (n as real, rest)
  {
    DigitsStart(n);
    ParsePrintedDigits(n);
    ParseDigitsAppend(Digits(n), rest, 0.0);
    assert (Digits(n) + rest)[0] == Digits(n)[0];
  }

  lemma ParsePrintedInt(n: int, rest: string)
    requires EndsNumber(rest)
    ensures ParseNumber(IntText(n) + rest) == (n as real, rest)
    ensures IsDigit(IntText(n)[0]) || IntText(n)[0] == '-'
  {
    var m := if n < 0 then -n else n;
    var p := IntText(n) + rest;
    assert (if n < 0 then Advance(p, 1) else p) == Digits(m) + rest;
    assert Peek(Digits(m) + rest) == Digits(m)[0];
    ParsePrintedNat(m, rest);
    assert Scaled(if n < 0 then -1.0 else 1.0, m as real, 0) == n as real;
  }

  lemma {:induction false} ParsePrintedExponent(n: nat)
    ensures AllDigits(Digits(n)) && ParseInt(Digits(n), 0).0 == n
  {
    if n >= 10 {
      ParsePrintedExponent(n / 10);
      ParseIntAppend(Digits(n / 10), [DigitChar(n % 10)], 0);
      assert n == n / 10 * 10 + n % 10;
    }
  }

  lemma {:induction false} ParseIntAppend(a: string, b: string, n: int)
    requires AllDigits(a)
    ensures ParseInt(a + b, n) == ParseInt(b, ParseInt(a, n).0)
  {
    if a == "" {
      assert a + b == b;
    } else {
      assert (a + b)[1..] == a[1..] + b;
      ParseIntAppend(a[1..], b, n * 10 + (a[0] as int - '0' as int));
    }
  }

  lemma {:induction false} ParseLastDigits(f: nat, k: nat, n: real)
    requires f < Power(k)
    ensures ParseDigits(LastDigits(f, k), n).0 == n * PowTen(k) + f as real
  {
    if k > 0 {
      var a, c := LastDigits(f / 10, k - 1), DigitChar(f % 10);
      ParseLastDigits(f / 10, k - 1, n);
      ParseDigitsAppend(a, [c], n);
      assert [c][1..] == "";
      assert f as real == (f / 10) as real * 10.0 + (f % 10) as real;
      Shifted(n, PowTen(k - 1), (f / 10) as real, (f % 10) as real);
    }
  }

  lemma Shifted(n: real, p: real, a: real, c: real)
    ensures (n * p + a) * 10.0 + c == n * (10.0 * p) + (a * 10.0 + c)
  {
  }

  function Power(k: nat): nat {
    if k == 0 then 1 else 10 * Power(k - 1)
  }

  // Whole digits, a point and six more, before something that goes on neither.
  lemma ParseMillionths(m: nat, x: string)
    requires !IsDigit(Peek(x))
    ensures var (exponent, rest) := ParseExponent(x);
      Unsigned(Millionths(m) + x) == (m as real, 6, exponent, rest)
  {
    var w, six := m / 1000000, LastDigits(m % 1000000, 6);
    Associative(Digits(w), "." + six, x);
    ParsePrintedNat(w, "." + six + x);
    FractionBefore(six, x, w as real);
    SixIsMillion();
    ParseLastDigits(m % 1000000, 6, w as real);
    assert w as real * 1000000.0 + (m % 1000000) as real == m as real;
  }

  lemma SixIsMillion()
    ensures PowTen(6) == 1000000.0 && Power(6) == 1000000
  {
    assert PowTen(3) == 1000.0 && Power(3) == 1000;
  }

  lemma ParseTwoDigits(n: nat)
    ensures AllDigits(TwoDigits(n)) && ParseInt(TwoDigits(n), 0).0 == n
  {
    ParsePrintedExponent(n);
    if n < 10 {
      ParseIntAppend("0", Digits(n), 0);
      assert "0"[1..] == "";
    }
  }

  lemma ParsePrintedE(e: int, rest: string)
    requires !IsDigit(Peek(rest))
    ensures ParseExponent(ExponentText(e) + rest) == (e, rest)
  {
    var sign, b := if e < 0 then "-" else "+", TwoDigits(if e < 0 then -e else e);
    ParseTwoDigits(if e < 0 then -e else e);
    InnerNested("e", sign, b, rest);
    ExponentAt('e', sign, b + rest);
    IntBefore(b, rest, 0);
  }

  // A printed number is read back as the number its text denotes, whatever its style.
  lemma ParsePrintedNumber(d: real, rest: string)
    requires EndsNumber(rest)
    ensures ParseNumber(NumberText(d) + rest) == (ShownNumber(d), rest)
    ensures IsDigit(NumberText(d)[0]) || NumberText(d)[0] == '-'
  {
    match StyleOf(d)
    case Zero => ParsePrintedInt(0, rest);
    case Int => ParsePrintedInt(Truncate(d), rest);
    case Whole => ParsePrintedInt(d.Floor, rest);
    case Scientific => ParseScientific(d, rest);
    case Fixed => ParseFixed(d, rest);
  }

  lemma MillionthsStart(m: nat, x: string)
    ensures Millionths(m) != "" && IsDigit(Millionths(m)[0]) && Peek(Millionths(m) + x) != '-'
  {
    var d := Digits(m / 1000000);
    assert IsDigit(d[0]) && Millionths(m)[0] == d[0];
  }

  lemma ParseFixed(d: real, rest: string)
    requires EndsNumber(rest)
    ensures ParseNumber(FixedText(d) + rest) == (Scaled(if d < 0.0 then -1.0 else 1.0, FixedUnits(d) as real, -6), rest)
    ensures IsDigit(FixedText(d)[0]) || FixedText(d)[0] == '-'
  {
    var m := FixedUnits(d);
    MillionthsStart(m, rest);
    ParseMillionths(m, rest);
    NumberAt(SignText(d), Millionths(m) + rest);
    Associative(SignText(d), Millionths(m), rest);
  }

  lemma ParseScientific(d: real, rest: string)
    requires EndsNumber(rest)
    ensures var (m, e) := ScientificUnits(d);
      ParseNumber(ScientificText(d) + rest) == (Scaled(if d < 0.0 then -1.0 else 1.0, m as real, e - 6), rest)
    ensures IsDigit(ScientificText(d)[0]) || ScientificText(d)[0] == '-'
  {
    var (m, e) := ScientificUnits(d);
    var x := ExponentText(e);
    MillionthsStart(m, x + rest);
    ParsePrintedE(e, rest);
    ParseMillionths(m, x + rest);
    NumberAt(SignText(d), Millionths(m) + (x + rest));
    RightNested4(SignText(d), Millionths(m), x, rest);
  }

  lemma IntTextChars(n: int)
    ensures NumberChars(IntText(n))
  {
    var d := Digits(if n < 0 then -n else n);
    assert forall i :: 0 <= i < |d| ==> IsDigit(d[i]);
  }

  lemma MillionthsChars(d: real, m: nat, x: string)
    requires NumberChars(x)
    ensures NumberChars(SignText(d) + Millionths(m) + x)
  {
    var w, six := Digits(m / 1000000), LastDigits(m % 1000000, 6);
    assert forall i :: 0 <= i < |w| ==> IsDigit(w[i]);
    NumberJoin(".", six);
    NumberJoin(w, "." + six);
    NumberJoin(SignText(d), Millionths(m));
    NumberJoin(SignText(d) + Millionths(m), x);
  }

  // The characters of a printed number.
  lemma NumberTextChars(d: real)
    ensures NumberChars(NumberText(d))
  {
    match StyleOf(d)
    case Zero =>
    case Int => IntTextChars(Truncate(d));
    case Whole => IntTextChars(d.Floor);
    case Scientific =>
      var (m, e) := ScientificUnits(d);
      ExponentChars(e);
      MillionthsChars(d, m, ExponentText(e));
    case Fixed =>
      MillionthsChars(d, FixedUnits(d), "");
      assert FixedText(d) + "" == FixedText(d);
  }

  lemma ExponentChars(e: int)
    ensures NumberChars(ExponentText(e))
  {
    var sign, b := if e < 0 then "-" else "+", TwoDigits(if e < 0 then -e else e);
    ParseTwoDigits(if e < 0 then -e else e);
    NumberJoin(sign, b);
    NumberJoin("e", sign + b);
  }
}
