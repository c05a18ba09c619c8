/** The parser reads every text as what it means: any spelling of strings and numbers, and any white
    space around the tokens. */
module CJsonReads {
  import opened Sequences
  import opened CString
  import opened CJsonText
  import opened CJsonLiterals
  import opened CJsonNumbers
  import opened CJsonPrecision
  import opened CJsonRoundTrip
  import opened CJsonStrings
  import opened CJsonMinifyMeaning
  import opened CJsonSpelling
  import Utf8

  // ---------- strings ----------

  lemma Hex1Value(c: char, d: nat)
    requires d < 16 && IsHex1(c, d)
    ensures HexValue(c) == d && c != '\"' && c != '\\'
  {
  }

  lemma Hex4Spells(h: string, n: nat)
    requires IsHex4(h, n)
    ensures Spells(h, n) && forall i :: 0 <= i < 4 ==> h[i] != '\"' && h[i] != '\\'
  {
    Hex1Value(h[0], n / 0x1000);
    Hex1Value(h[1], n / 0x100 % 16);
    Hex1Value(h[2], n / 16 % 16);
    Hex1Value(h[3], n % 16);
    Nibbles(n);
    CJsonRoundTrip.ParseHex4Of(h, n / 0x1000, n / 0x100 % 16, n / 16 % 16, n % 16);
  }

  // A \u escape of a code unit, before any text.
  lemma Unit16WellEscaped(s: string, n: nat, tail: string)
    requires IsUnit16(s, n) && WellEscaped(tail)
    ensures WellEscaped(s + tail) && s == "\\u" + s[2..] && Spells(s[2..], n)
  {
    Hex4Spells(s[2..], n);
    assert s == "\\u" + s[2..];
    assert forall i :: 2 <= i < 6 ==> s[i] == s[2..][i - 2];
    UnitWellEscaped(s[2..], tail);
  }

  lemma CodeRead(s: string, c: nat, tail: string)
    requires IsCode(s, c) && WellEscaped(tail)
    ensures Unescape(s + tail) == (Utf8Chars(c) + Unescape(tail).0, Unescape(tail).1) && WellEscaped(s + tail)
  {
    if c < 0x10000 {
      Unit16WellEscaped(s, c, tail);
      assert EscapeOf(s, c);
    } else {
      PairIsEscape(s, c, tail);
    }
    UnescapeScalar(c, s, tail);
  }

  lemma PairIsEscape(s: string, c: nat, tail: string)
    requires IsCode(s, c) && c >= 0x10000 && WellEscaped(tail)
    ensures EscapeOf(s, c) && WellEscaped(s + tail)
  {
    var a, b := s[..6], s[6..];
    Unit16WellEscaped(b, Utf8.LowSurrogate(c), tail);
    Unit16WellEscaped(a, Utf8.HighSurrogate(c), b + tail);
    assert s == a + b;
    Associative(a, b, tail);
    assert a[2..] == s[2..6] && b[2..] == s[8..] && s[..2] == a[..2] && s[6..8] == b[..2];
  }

  lemma VoidRead(h: string, n: nat, tail: string)
    requires IsHex4(h, n) && (n == 0 || 0xDC00 <= n <= 0xDFFF) && WellEscaped(tail)
    ensures Unescape("\\u" + h + tail) == Unescape(tail) && WellEscaped("\\u" + h + tail)
  {
    Hex4Spells(h, n);
    UnitAt(h, tail);
    RegroupUnit(h, tail);
    UnitWellEscaped(h, tail);
    assert "" + Unescape(tail).0 == Unescape(tail).0;
  }

  lemma EscapedRead(e: char, tail: string)
    requires e != 'u' && WellEscaped(tail)
    ensures Unescape(['\\', e] + tail) == ([EscapeValue(e)] + Unescape(tail).0, Unescape(tail).1)
    ensures WellEscaped(['\\', e] + tail)
  {
    ShortEscapeAt(['\\', e], tail);
    assert UnescapeOne([e]).0 == [EscapeValue(e)];
  }

  lemma UnitRead(u: Unit, tail: string)
    requires IsUnitSpelling(u) && WellEscaped(tail)
    ensures Unescape(SpellUnit(u) + tail) == (UnitValue(u) + Unescape(tail).0, Unescape(tail).1)
    ensures WellEscaped(SpellUnit(u) + tail)
  {
    match u
    case Plain(c) =>
      UnescapePlain(c, tail);
      assert ([c] + tail)[1..] == tail;
    case Escaped(e) => EscapedRead(e, tail);
    case Code(c, s) => CodeRead(s, c, tail);
    case Void(n, h) =>
      VoidRead(h, n, tail);
      assert "" + Unescape(tail).0 == Unescape(tail).0;
  }

  lemma {:induction false} UnitsRead(us: seq<Unit>, rest: string)
    requires AreUnits(us)
    ensures var p := SpellUnits(us) + ("\"" + rest);
      Unescape(p) == (UnitsValue(us), "\"" + rest) && WellEscaped(p)
  {
    if us == [] {
      assert "" + ("\"" + rest) == "\"" + rest;
    } else {
      var tail := SpellUnits(us[1..]) + ("\"" + rest);
      UnitsRead(us[1..], rest);
      UnitRead(us[0], tail);
      Associative(SpellUnit(us[0]), SpellUnits(us[1..]), "\"" + rest);
    }
  }

  // A literal, however its characters are written, is read as the string it denotes.
  lemma StringRead(us: seq<Unit>, rest: string)
    requires AreUnits(us)
    ensures ParseString(SpellString(us) + rest) == Read(UnitsValue(us), rest)
  {
    var p := SpellUnits(us) + ("\"" + rest);
    UnitsRead(us, rest);
    RightNested4("\"", SpellUnits(us), "\"", rest);
    QuotedParses(p);
    assert ("\"" + rest)[1..] == rest;
  }

  // ---------- numbers ----------

  lemma DigitSpelled(d: nat)
    requires d < 10
    ensures IsDigit(LOWER[d]) && LOWER[d] as int - '0' as int == d
  {
  }

  lemma DigitsSpelled(ds: seq<nat>)
    requires AreDigits(ds)
    ensures AllDigits(SpellDigits(ds))
  {
    forall i | 0 <= i < |ds| ensures IsDigit(SpellDigits(ds)[i]) { DigitSpelled(ds[i]); }
  }

  // The number that digits give when they go on the number k.
  function DecimalFrom(k: nat, ds: seq<nat>): nat {
    if ds == [] then k else 10 * DecimalFrom(k, ds[..|ds| - 1]) + ds[|ds| - 1]
  }

  lemma {:induction false} DecimalGoesOn(a: seq<nat>, b: seq<nat>)
    ensures DecimalFrom(Decimal(a), b) == Decimal(a + b)
  {
    if b == [] {
      assert a + b == a;
    } else {
      DecimalGoesOn(a, b[..|b| - 1]);
      assert (a + b)[..|a + b| - 1] == a + b[..|b| - 1];
    }
  }

  lemma {:induction false} DigitsReadReal(ds: seq<nat>, k: nat)
    requires AreDigits(ds)
    ensures ParseDigits(SpellDigits(ds), k as real).0 == DecimalFrom(k, ds) as real
  {
    if ds != [] {
      var a, c := ds[..|ds| - 1], LOWER[ds[|ds| - 1]];
      DigitsReadReal(a, k);
      DigitsSpelled(a);
      DigitSpelled(ds[|ds| - 1]);
      assert SpellDigits(ds) == SpellDigits(a) + [c];
      ParseDigitsAppend(SpellDigits(a), [c], k as real);
      assert [c][1..] == "";
    }
  }

  lemma {:induction false} DigitsReadInt(ds: seq<nat>)
    requires AreDigits(ds)
    ensures ParseInt(SpellDigits(ds), 0).0 == Decimal(ds)
  {
    if ds != [] {
      var k := |ds| - 1;
      var a, c := ds[..k], LOWER[ds[k]];
      DigitsReadInt(a);
      DigitsSpelled(a);
      DigitSpelled(ds[k]);
      assert SpellDigits(ds) == SpellDigits(a) + [c];
      ParseIntAppend(SpellDigits(a), [c], 0);
      assert [c][1..] == "";
    }
  }

  // The exponent, at the end of a text.
  function Exponent(e: Power): int {
    if e.NoPower? then 0 else if e.sign == "-" then 0 - Decimal(e.digits) else Decimal(e.digits)
  }

  lemma PowerRead(e: Power)
    requires IsPower(e)
    ensures ParseExponent(SpellPower(e)) == (Exponent(e), "")
    ensures SpellPower(e) != "" ==> IsE(SpellPower(e)[0])
  {
    if e.Power? {
      var b := SpellDigits(e.digits);
      DigitsSpelled(e.digits);
      DigitsReadInt(e.digits);
      IntBefore(b, "", 0);
      assert b + "" == b;
      ExponentAt(e.letter, e.sign, b);
    }
  }

  lemma FractionRead(ds: seq<nat>, x: string, k: nat)
    requires AreDigits(ds) && (x != "" ==> IsE(x[0]))
    ensures ParseFraction(SpellFraction(ds) + x, k as real) == (DecimalFrom(k, ds) as real, |ds|, x)
  {
    if ds == [] {
      assert "" + x == x;
    } else {
      DigitsSpelled(ds);
      DigitsReadReal(ds, k);
      FractionBefore(SpellDigits(ds), x, k as real);
    }
  }

  lemma WholeRead(zero: bool, ds: seq<nat>, next: string)
    requires AreDigits(ds) && (ds != [] ==> ds[0] != 0) && !IsDigit(Peek(next))
    ensures ParseWhole((if zero then "0" else "") + SpellDigits(ds) + next) == (Decimal(ds) as real, next)
  {
    var z, b := if zero then "0" else "", SpellDigits(ds);
    DigitsSpelled(ds);
    DigitsReadReal(ds, 0);
    DecimalGoesOn([], ds);
    assert [] + ds == ds;
    Associative(z, b, next);
    if ds == [] {
      assert b + next == next;
      WholeAt(z, next);
    } else {
      DigitSpelled(ds[0]);
      assert (b + next)[0] == LOWER[ds[0]];
      WholeBefore(z, b, next);
    }
  }

  // ---------- powers of ten ----------

  lemma {:induction false} MovedUp(x: int, k: nat)
    ensures Moved(x as real, k) == (x * TenTo(k)) as real
  {
    if k > 0 {
      MovedUp(x, k - 1);
      assert x * TenTo(k) == 10 * (x * TenTo(k - 1));
    }
  }

  lemma {:induction false} MovedDown(x: real, k: int)
    requires k <= 0
    ensures Moved(x, k) * TenTo(-k) as real == x && TenTo(-k) > 0
    decreases -k
  {
    if k < 0 {
      MovedDown(x, k + 1);
      TenthTimes(Moved(x, k + 1), TenTo(-(k + 1)) as real, TenTo(-k) as real);
    }
  }

  lemma TenthTimes(y: real, t: real, t': real)
    requires t' == 10.0 * t
    ensures y / 10.0 * t' == y * t
  {
  }

  lemma SameQuotient(v: real, w: real, t: real)
    requires t > 0.0 && v * t == w * t
    ensures v == w
  {
  }

  // The value that the parser computes is the one the digits denote.
  lemma ShiftedMoved(x: int, k: int, value: real)
    requires IsShifted(x, k, value)
    ensures Moved(x as real, k) == value
  {
    if k >= 0 {
      MovedUp(x, k);
    } else {
      MovedDown(x as real, k);
      SameQuotient(Moved(x as real, k), value, TenTo(-k) as real);
    }
  }

  lemma ScaledMoved(minus: bool, digits: real, x: real, k: int)
    requires x == if minus then -digits else digits
    ensures Scaled(if minus then -1.0 else 1.0, digits, k) == Moved(x, k)
  {
    MovedIsProduct(x, k);
  }

  // A sign before a number, at the end of a text.
  lemma SignedRead(minus: bool, r: string, x: real, places: int, value: real)
    requires (!minus ==> Peek(r) != '-') && IsAlone(r, if minus then -x else x, places) && Moved(x, places) == value
    ensures ParseNumber((if minus then "-" else "") + r) == (value, "")
  {
    NumberAt(if minus then "-" else "", r);
    ScaledMoved(minus, if minus then -x else x, x, places);
  }

  // The text is a number of these digits, without a sign, and of this many places.
  predicate IsAlone(r: string, digits: real, places: int) {
    var (n, scale, e, rest) := Unsigned(r);
    n == digits && e - scale == places && rest == ""
  }

  lemma NumeralAlone(n: Numeral, value: real)
    requires IsNumeral(n) && Moved(Signed(n) as real, Places(n)) == value
    ensures ParseNumber(SpellNumeral(n)) == (value, "")
  {
    UnsignedRead(n);
    NumeralStart(n);
    SignedRead(n.minus, SpellUnsigned(n), Signed(n) as real, Places(n), value);
  }

  lemma UnsignedRead(n: Numeral)
    requires IsNumeral(n)
    ensures IsAlone(SpellUnsigned(n), if n.minus then -(Signed(n) as real) else Signed(n) as real, Places(n))
  {
    var f, x := SpellFraction(n.fraction), SpellPower(n.power);
    PowerRead(n.power);
    FractionStart(n.fraction, x);
    WholeRead(n.zero, n.whole, f + x);
    FractionRead(n.fraction, x, Decimal(n.whole));
    DecimalGoesOn(n.whole, n.fraction);
  }

  lemma FractionStart(ds: seq<nat>, x: string)
    requires AreDigits(ds) && (x != "" ==> IsE(x[0]))
    ensures !IsDigit(Peek(SpellFraction(ds) + x))
  {
    if ds == [] { assert "" + x == x; }
  }

  lemma NumeralStart(n: Numeral)
    requires IsNumeral(n)
    ensures var s := SpellNumeral(n); s != "" && (s[0] == '-' || IsDigit(s[0]))
    ensures !n.minus ==> Peek(SpellUnsigned(n)) != '-'
  {
    var s := SpellNumeral(n);
    if n.minus {
      assert s[0] == '-';
    } else if n.zero {
      assert s == "" + SpellUnsigned(n) && s[0] == '0';
    } else {
      DigitSpelled(n.whole[0]);
      assert s == "" + SpellUnsigned(n) && s[0] == SpellDigits(n.whole)[0];
    }
  }

  // A number is read as its value before any text that does not go on it, and only there.
  lemma NumeralRead(n: Numeral, value: real, rest: string)
    requires IsNumeral(n) && IsValue(n, value)
    ensures ParseNumber(SpellNumeral(n) + rest) == (value, rest) <==> !GoesOn(SpellNumeral(n), rest)
  {
    ShiftedMoved(Signed(n), Places(n), value);
    MovedRead(n, value, rest);
  }

  lemma MovedRead(n: Numeral, value: real, rest: string)
    requires IsNumeral(n) && Moved(Signed(n) as real, Places(n)) == value
    ensures ParseNumber(SpellNumeral(n) + rest) == (value, rest) <==> !GoesOn(SpellNumeral(n), rest)
  {
    NumeralAlone(n, value);
    NumeralStart(n);
    var a := NumberKept(SpellNumeral(n), rest);
    assert a + "" == a;
  }

  // ---------- trees ----------

  lemma {:induction false} SkipWs(ws: string, p: string)
    requires AreWs(ws)
    ensures Skip(ws + p) == Skip(p)
  {
    if ws == "" {
      assert ws + p == p;
    } else {
      assert (ws + p)[1..] == ws[1..] + p;
      SkipWs(ws[1..], p);
    }
  }

  // White space, and a token behind it.
  lemma SkipTo(ws: string, p: string)
    requires AreWs(ws) && p != "" && p[0] > ' '
    ensures Skip(ws + p) == p
  {
    SkipWs(ws, p);
    SkipNothing(p);
  }

  lemma WsStops(ws: string, p: string)
    requires AreWs(ws) && Peek(p) in {',', ']', '}'}
    ensures Stops(ws + p)
  {
    assert ws == "" ==> ws + p == p;
  }

  lemma FormStart(f: Form, rest: string)
    requires IsForm(f)
    ensures var p := Spell(f) + rest; p != "" && p[0] > ' ' && p[0] != ']' && p[0] != '}'
  {
    if f.Num? { NumeralStart(f.numeral); }
    assert Spell(f) != "" && (Spell(f) + rest)[0] == Spell(f)[0];
  }

  // Every spelling of a tree is read as the tree, whatever comes after it that does not go on a number.
  lemma {:induction false} FormRead(f: Form, rest: string)
    requires IsForm(f) && Spaced(f) && (f.Num? ==> !GoesOn(Spell(f), rest))
    ensures ParseValue(Spell(f) + rest) == Read(Meaning(f), rest)
    decreases f, 1
  {
    match f
    case Word(name) => WordRead(name, rest);
    case Num(n, value) =>
      NumeralRead(n, value, rest);
      NumeralStart(n);
      ParseNumberValue(SpellNumeral(n) + rest);
    case Str(us) => StringRead(us, rest);
    case Arr(space, entries) => ArrayRead(f, rest);
    case Obj(space, fields) => ObjectRead(f, rest);
  }

  lemma WordRead(name: string, rest: string)
    requires name == "null" || name == "true" || name == "false"
    ensures ParseValue(name + rest) ==
      Read(if name == "null" then Null else if name == "true" then True else False, rest)
  {
    var p := name + rest;
    assert p[0] == name[0] && p[|name|..] == rest;
  }

  lemma {:induction false} ArrayRead(f: Form, rest: string)
    requires IsForm(f) && Spaced(f) && f.Arr?
    ensures ParseValue(Spell(f) + rest) == Read(Meaning(f), rest)
    decreases f, 0
  {
    if f.entries == [] {
      RightNested4("[", f.space, "]", rest);
      Associative("[", f.space + "]", rest);
      Associative(f.space, "]", rest);
      SkipTo(f.space, "]" + rest);
      EmptyArrayRead(f.space + ("]" + rest), rest);
    } else {
      var p := SpellEntries(f.entries) + rest;
      EntriesRead(f.entries, rest);
      EntriesStart(f.entries, rest);
      ParseItemsSkip(p);
      ParseFullArray(p, EntryMeanings(f.entries), rest);
      Associative("[", SpellEntries(f.entries), rest);
    }
  }

  lemma EmptyArrayRead(p: string, rest: string)
    requires Skip(p) == "]" + rest
    ensures ParseValue("[" + p) == Read(Array([]), rest)
  {
    assert ("[" + p)[1..] == p && ("]" + rest)[1..] == rest;
  }

  // What follows an element: the space, and the rest from its comma or bracket on.
  function EntryTail(entries: seq<Entry>): string
    requires entries != [] && AreEntries(entries)
  {
    if |entries| == 1 then "]" else "," + SpellEntries(entries[1..])
  }

  lemma EntriesSplit(entries: seq<Entry>, rest: string)
    requires entries != [] && AreEntries(entries)
    ensures var e := entries[0];
      SpellEntries(entries) + rest == e.before + (Spell(e.form) + (e.after + (EntryTail(entries) + rest)))
  {
    var e := entries[0];
    Associative(e.before, Spell(e.form) + (e.after + EntryTail(entries)), rest);
    Associative(Spell(e.form), e.after + EntryTail(entries), rest);
    Associative(e.after, EntryTail(entries), rest);
  }

  lemma EntriesStart(entries: seq<Entry>, rest: string)
    requires entries != [] && AreEntries(entries) && SpacedEntries(entries)
    ensures Peek(Skip(SpellEntries(entries) + rest)) != ']'
  {
    var e := entries[0];
    var p := Spell(e.form) + (e.after + (EntryTail(entries) + rest));
    EntriesSplit(entries, rest);
    FormStart(e.form, e.after + (EntryTail(entries) + rest));
    SkipTo(e.before, p);
  }

  lemma EntryTailStart(entries: seq<Entry>, rest: string)
    requires entries != [] && AreEntries(entries)
    ensures var t := EntryTail(entries) + rest;
      t != "" && t[0] == (if |entries| == 1 then ']' else ',') &&
      t[1..] == if |entries| == 1 then rest else SpellEntries(entries[1..]) + rest
  {
    var t := EntryTail(entries) + rest;
    if |entries| > 1 { Associative(",", SpellEntries(entries[1..]), rest); }
  }

  // An element, before what follows the space behind it.
  lemma {:induction false} EntryRead(e: Entry, t: string)
    requires IsForm(e.form) && SpacedEntry(e) && (t != "" ==> t[0] > ' ')
    requires e.form.Num? ==> !GoesOn(Spell(e.form), e.after + t)
    ensures ParseValue(Skip(e.before + (Spell(e.form) + (e.after + t)))) == Read(Meaning(e.form), e.after + t)
    ensures Skip(e.after + t) == t
    decreases e, 2
  {
    FormStart(e.form, e.after + t);
    SkipTo(e.before, Spell(e.form) + (e.after + t));
    FormRead(e.form, e.after + t);
    SkipWs(e.after, t);
    SkipNothing(t);
  }

  predicate SpacedEntry(e: Entry) {
    AreWs(e.before) && Spaced(e.form) && AreWs(e.after)
  }

  // The first element, before what follows it.
  lemma {:induction false} FirstEntryRead(entries: seq<Entry>, rest: string)
    requires entries != [] && AreEntries(entries) && SpacedEntries(entries)
    ensures var e, t := entries[0], EntryTail(entries) + rest;
      ParseValue(Skip(SpellEntries(entries) + rest)) == Read(Meaning(e.form), e.after + t) && Skip(e.after + t) == t
    decreases entries, 2
  {
    var e, t := entries[0], EntryTail(entries) + rest;
    EntriesSplit(entries, rest);
    EntryTailStart(entries, rest);
    WsStops(e.after, t);
    if e.form.Num? { StopsStop(Spell(e.form), e.after + t); }
    EntryRead(e, t);
  }

  lemma {:induction false} EntriesRead(entries: seq<Entry>, rest: string)
    requires entries != [] && AreEntries(entries) && SpacedEntries(entries)
    ensures ParseItems(SpellEntries(entries) + rest) == Read(EntryMeanings(entries), rest)
    decreases entries, 3
  {
    var p, e, t := SpellEntries(entries) + rest, entries[0], EntryTail(entries) + rest;
    FirstEntryRead(entries, rest);
    EntryTailStart(entries, rest);
    if |entries| == 1 {
      ParseItemsEnd(p, Meaning(e.form), e.after + t);
      assert entries[1..] == [] && [Meaning(e.form)] + [] == [Meaning(e.form)];
    } else {
      EntriesRead(entries[1..], rest);
      ParseItemsComma(p, Meaning(e.form), e.after + t);
    }
  }

  lemma {:induction false} ObjectRead(f: Form, rest: string)
    requires IsForm(f) && Spaced(f) && f.Obj?
    ensures ParseValue(Spell(f) + rest) == Read(Meaning(f), rest)
    decreases f, 0
  {
    if f.fields == [] {
      Associative("{", f.space + "}", rest);
      Associative(f.space, "}", rest);
      SkipTo(f.space, "}" + rest);
      ParseEmptyObject(f.space + ("}" + rest), rest);
    } else {
      var p := SpellFields(f.fields) + rest;
      FieldsRead(f.fields, rest);
      FirstFieldRead(f.fields, rest);
      ParseMembersSkip(p);
      ParseFullObject(p, FieldMeanings(f.fields), rest);
      Associative("{", SpellFields(f.fields), rest);
    }
  }

  function FieldTail(fields: seq<Field>): string
    requires fields != [] && AreFields(fields)
  {
    if |fields| == 1 then "}" else "," + SpellFields(fields[1..])
  }

  lemma FieldsSplit(fields: seq<Field>, rest: string)
    requires fields != [] && AreFields(fields)
    ensures SpellFields(fields) + rest == SpellField(fields[0], FieldTail(fields) + rest)
  {
    var d, t := fields[0], FieldTail(fields);
    var v := Spell(d.form) + (d.after + t);
    Associative(d.after, t, rest);
    Associative(Spell(d.form), d.after + t, rest);
    Associative(d.gap, v, rest);
    Associative(":", d.gap + v, rest);
    Associative(d.mid, ":" + (d.gap + v), rest);
    Associative(SpellString(d.name), d.mid + (":" + (d.gap + v)), rest);
    Associative(d.before, SpellString(d.name) + (d.mid + (":" + (d.gap + v))), rest);
  }

  lemma FieldTailStart(fields: seq<Field>, rest: string)
    requires fields != [] && AreFields(fields)
    ensures var t := FieldTail(fields) + rest;
      t != "" && t[0] == (if |fields| == 1 then '}' else ',') &&
      t[1..] == if |fields| == 1 then rest else SpellFields(fields[1..]) + rest
  {
    var t := FieldTail(fields) + rest;
    if |fields| > 1 { Associative(",", SpellFields(fields[1..]), rest); }
  }

  // A member, before what follows the space behind it.
  lemma {:induction false} FieldRead(d: Field, t: string)
    requires AreUnits(d.name) && IsForm(d.form) && SpacedField(d) && (t != "" ==> t[0] > ' ')
    requires d.form.Num? ==> !GoesOn(Spell(d.form), d.after + t)
    ensures ParseMember(SpellField(d, t)) == Read(Member(UnitsValue(d.name), Meaning(d.form)), d.after + t)
    ensures Skip(d.after + t) == t && Peek(Skip(SpellField(d, t))) == '\"'
    decreases d, 2
  {
    var v := Spell(d.form) + (d.after + t);
    NameRead(d.before, d.name, d.mid + (":" + (d.gap + v)));
    SkipTo(d.mid, ":" + (d.gap + v));
    assert (":" + (d.gap + v))[1..] == d.gap + v;
    FormStart(d.form, d.after + t);
    SkipTo(d.gap, v);
    FormRead(d.form, d.after + t);
    SkipWs(d.after, t);
    SkipNothing(t);
  }

  lemma NameRead(before: string, name: seq<Unit>, p: string)
    requires AreWs(before) && AreUnits(name)
    ensures var q := before + (SpellString(name) + p);
      Skip(q) == SpellString(name) + p && Peek(Skip(q)) == '\"' && ParseString(Skip(q)) == Read(UnitsValue(name), p)
  {
    SkipTo(before, SpellString(name) + p);
    StringRead(name, p);
  }

  predicate SpacedField(d: Field) {
    AreWs(d.before) && AreWs(d.mid) && AreWs(d.gap) && Spaced(d.form) && AreWs(d.after)
  }

  // A member and what comes after it.
  function SpellField(d: Field, t: string): string
    requires IsForm(d.form)
  {
    d.before + (SpellString(d.name) + (d.mid + (":" + (d.gap + (Spell(d.form) + (d.after + t))))))
  }

  lemma {:induction false} FirstFieldRead(fields: seq<Field>, rest: string)
    requires fields != [] && AreFields(fields) && SpacedFields(fields)
    ensures var d, t := fields[0], FieldTail(fields) + rest;
      ParseMember(SpellFields(fields) + rest) == Read(Member(UnitsValue(d.name), Meaning(d.form)), d.after + t) &&
      Skip(d.after + t) == t && Peek(Skip(SpellFields(fields) + rest)) == '\"'
    decreases fields, 3
  {
    var d, t := fields[0], FieldTail(fields) + rest;
    FieldsSplit(fields, rest);
    FieldTailStart(fields, rest);
    WsStops(d.after, t);
    if d.form.Num? { StopsStop(Spell(d.form), d.after + t); }
    FieldRead(d, t);
  }

  lemma {:induction false} FieldsRead(fields: seq<Field>, rest: string)
    requires fields != [] && AreFields(fields) && SpacedFields(fields)
    ensures ParseMembers(SpellFields(fields) + rest) == Read(FieldMeanings(fields), rest)
    decreases fields, 4
  {
    var d, t := fields[0], FieldTail(fields) + rest;
    var m := Member(UnitsValue(d.name), Meaning(d.form));
    FirstFieldRead(fields, rest);
    FieldTailStart(fields, rest);
    if |fields| == 1 {
      ParseMembersEnd(SpellFields(fields) + rest, m, d.after + t);
      assert fields[1..] == [] && [m] + [] == [m];
    } else {
      FieldsRead(fields[1..], rest);
      ParseMembersComma(SpellFields(fields) + rest, m, d.after + t);
    }
  }

  lemma ParseMembersEnd(p: string, m: Member, rest: string)
    requires ParseMember(p) == Read(m, rest) && Peek(Skip(rest)) == '}'
    ensures ParseMembers(p) == Read([m], Skip(rest)[1..])
  {
  }

  // Every text that spells a tree, with white space around it, is accepted to its end and read as
  // the tree.
  lemma TextRead(before: string, f: Form, after: string)
    requires IsForm(f) && Spaced(f) && AreWs(before) && AreWs(after)
    ensures Parse(before + (Spell(f) + after), true) == Read(Meaning(f), "")
    ensures Parse(before + (Spell(f) + after), false) == Read(Meaning(f), after)
  {
    FormStart(f, after);
    SkipTo(before, Spell(f) + after);
    if f.Num? { StopsStop(Spell(f), after); }
    FormRead(f, after);
    SkipWs(after, "");
    assert after + "" == after;
  }
}
