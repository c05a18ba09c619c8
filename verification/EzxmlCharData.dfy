/** Character content of documents, described without the decoder: the ways to write a text. */
module EzxmlCharData {
  import opened Sequences
  import opened CString
  import opened EzxmlEntities
  import opened EzxmlDecode
  import opened EzxmlDecodeInPlace
  import opened EzxmlEscape
  import opened EzxmlLines
  import Utf8

  type Nibble = v: nat | v < 16

  type Name = k: nat | k < 5

  datatype Digit = Digit(value: Nibble, upper: bool)

  // A character, a CR LF or lone CR, an ampersand, a reference to one of the five entities of
  // section 4.6 of XML 1.0 or to another one of the table, with the units of its value, and a
  // reference to a character.
  datatype Unit = Plain(c: char) | LineEnd(crlf: bool) | Ampersand | Predefined(k: Name)
    | Declared(entity: nat, name: string, value: seq<Unit>) | Number(hex: bool, digits: seq<Digit>)

  const NAMES: seq<string> := ["lt;", "gt;", "quot;", "apos;", "amp;"]

  const MEANT: string := "<>\"'&"

  function DigitChar(d: Digit): char {
    if d.value < 10 then '0' + d.value as char
    else if d.upper then 'A' + (d.value - 10) as char
    else 'a' + (d.value - 10) as char
  }

  function DigitChars(ds: seq<Digit>): (r: string)
    ensures |r| == |ds| && forall i :: 0 <= i < |r| ==> r[i] == DigitChar(ds[i])
  {
    seq(|ds|, i requires 0 <= i < |ds| => DigitChar(ds[i]))
  }

  // The last digit counts once, the others the base times what they do without it.
  function NumberOf(ds: seq<Digit>, base: nat): nat {
    if ds == [] then 0 else NumberOf(ds[..|ds| - 1], base) * base + ds[|ds| - 1].value
  }

  // How a unit is written, and what is left of it when line ends are LF.
  function SpellUnit(u: Unit): string {
    match u
    case Plain(c) => [c]
    case LineEnd(crlf) => if crlf then "\r\n" else "\r"
    case Ampersand => "&"
    case Predefined(k) => "&" + NAMES[k]
    case Declared(_, name, _) => "&" + name
    case Number(hex, ds) => (if hex then "&#x" else "&#") + DigitChars(ds) + ";"
  }

  function Unbroken(u: Unit): string {
    if u.LineEnd? then "\n" else SpellUnit(u)
  }

  function SpellText(us: seq<Unit>): string {
    if us == [] then "" else SpellUnit(us[0]) + SpellText(us[1..])
  }

  function Unbrokens(us: seq<Unit>): string {
    if us == [] then "" else Unbroken(us[0]) + Unbrokens(us[1..])
  }

  // A character on its own: section 3.3.3 of XML 1.0 has white space in attributes become a space.
  function Shown(c: char, a: bool): char {
    if a && (c == '\t' || c == '\n' || c == 11 as char || c == 12 as char || c == '\r') then ' ' else c
  }

  // What a text stands for, in content or in an attribute.
  function UnitValue(u: Unit, a: bool): string
    decreases u
  {
    match u
    case Plain(c) => [Shown(c, a)]
    case LineEnd(_) => [Shown('\n', a)]
    case Ampersand => "&"
    case Predefined(k) => [MEANT[k]]
    case Declared(_, _, us) => TextValue(us, a)
    case Number(hex, ds) => ScalarChars(NumberOf(ds, Base(hex)))
  }

  function ScalarChars(c: nat): string {
    if Utf8.IsScalar(c) then Utf8.Chars(Utf8.Encode(c)) else ""
  }

  function TextValue(us: seq<Unit>, a: bool): string
    decreases us
  {
    if us == [] then "" else UnitValue(us[0], a) + TextValue(us[1..], a)
  }

  ghost predicate AreUnits(us: seq<Unit>, ents: seq<Entity>)
    decreases us
  {
    forall i :: 0 <= i < |us| ==> IsUnit(us[i], ents)
  }

  ghost predicate IsUnit(u: Unit, ents: seq<Entity>)
    decreases u
  {
    match u
    case Plain(c) => c != '<' && c != '&' && c != '\r'
    case LineEnd(_) => true
    case Ampersand => true
    case Predefined(_) => true
    case Declared(k, name, us) =>
      && k < |ents| && ents[k] == Entity(name, Unbrokens(us)) && (forall i :: 0 <= i < k ==> ents[i].name != name)
      && '<' !in name && '\r' !in name && Ampersand !in us && AreUnits(us, ents)
    case Number(hex, ds) =>
      && ds != [] && (forall i :: 0 <= i < |ds| ==> ds[i].value < Base(hex))
      && NumberOf(ds, Base(hex)) != 0 && Utf8.IsScalar(NumberOf(ds, Base(hex)))
  }

  // A lone CR stands before no LF, and a lone ampersand before nothing that makes it a reference.
  ghost predicate IsText(us: seq<Unit>, ents: seq<Entity>) {
    us == [] ||
    (IsUnit(us[0], ents) && IsText(us[1..], ents)
    && (us[0] == LineEnd(false) ==> us[1..] == [] || us[1] != Plain('\n'))
    && (us[0] == Ampersand ==> NoReference(Unbrokens(us[1..]), ents)))
  }

  // ---------- numbers ----------

  lemma DigitRead(d: Digit)
    ensures DigitValue(DigitChar(d)) == d.value
    ensures DigitChar(d) != '<' && DigitChar(d) != '\r' && DigitChar(d) != '\n'
  {
  }

  lemma {:induction false} NumberRead(ds: seq<Digit>, base: nat)
    requires (base == 10 || base == 16) && forall i :: 0 <= i < |ds| ==> ds[i].value < base
    ensures ReadDigits(DigitChars(ds), base, 0) == (NumberOf(ds, base), "")
  {
    if ds != [] {
      var n := |ds| - 1;
      NumberRead(ds[..n], base);
      DigitRead(ds[n]);
      assert DigitChars(ds) == DigitChars(ds[..n]) + [DigitChar(ds[n])];
      ReadOneMore(DigitChars(ds[..n]), DigitChar(ds[n]), base, 0);
    }
  }

  lemma {:induction false} ReadOneMore(d: string, c: char, base: nat, n: nat)
    requires (base == 10 || base == 16) && DigitValue(c) < base && ReadDigits(d, base, n).1 == ""
    ensures ReadDigits(d + [c], base, n) == (ReadDigits(d, base, n).0 * base + DigitValue(c), "")
  {
    if d == "" {
      assert (d + [c])[1..] == "" && (d + [c])[0] == c;
    } else {
      assert (d + [c])[1..] == d[1..] + [c];
      ReadOneMore(d[1..], c, base, n * base + DigitValue(d[0]));
    }
  }

  // ---------- units ----------

  // Whatever follows, `x` is decoded to `v`.
  ghost predicate Gives(x: string, v: string, a: bool, ents: seq<Entity>, rank: seq<nat>)
    requires Expandable(ents, rank)
  {
    forall rest :: Expand(x + rest, ents, Mode(a), rank) == v + Expand(rest, ents, Mode(a), rank)
  }

  lemma GivesPlain(c: char, a: bool, ents: seq<Entity>, rank: seq<nat>)
    requires Expandable(ents, rank) && c != '&'
    ensures Gives([c], [Shown(c, a)], a, ents, rank)
  {
    forall rest ensures Expand([c] + rest, ents, Mode(a), rank) == [Shown(c, a)] + Expand(rest, ents, Mode(a), rank) {
      var s := [c] + rest;
      assert s[0] == c && s[1..] == rest;
      ExpandPlain(s, ents, Mode(a), rank);
    }
  }

  lemma GivesNumber(hex: bool, ds: seq<Digit>, a: bool, ents: seq<Entity>, rank: seq<nat>)
    requires Expandable(ents, rank) && IsUnit(Number(hex, ds), ents)
    ensures Gives(SpellUnit(Number(hex, ds)), UnitValue(Number(hex, ds), a), a, ents, rank)
  {
    var d := DigitChars(ds);
    NumberRead(ds, Base(hex));
    forall i | 0 <= i < |d| ensures DigitValue(d[i]) < Base(hex) { DigitRead(ds[i]); }
    forall rest
      ensures Expand(SpellUnit(Number(hex, ds)) + rest, ents, Mode(a), rank) ==
        UnitValue(Number(hex, ds), a) + Expand(rest, ents, Mode(a), rank)
    {
      ReferenceDecoded(hex, d, rest, ents, Mode(a), rank);
    }
  }

  lemma PredefinedText(k: nat, ents: seq<Entity>)
    requires HasDefaults(ents) && k < 5
    ensures "&" + NAMES[k] == "&" + ents[k].name && MEANT[k] == ['<', '>', '"', '\'', '&'][k]
  {
  }

  lemma GivesPredefined(k: nat, a: bool, ents: seq<Entity>, rank: seq<nat>)
    requires Expandable(ents, rank) && HasDefaults(ents) && k < 5
    ensures Gives("&" + NAMES[k], [MEANT[k]], a, ents, rank)
  {
    PredefinedText(k, ents);
    YieldsDefault(k, MEANT[k], ents, Mode(a), rank);
  }

  lemma {:induction false} GivesUnit(u: Unit, a: bool, ents: seq<Entity>, rank: seq<nat>)
    requires Expandable(ents, rank) && HasDefaults(ents) && IsUnit(u, ents) && !u.Ampersand?
    ensures Gives(Unbroken(u), UnitValue(u, a), a, ents, rank)
    decreases u
  {
    match u
    case Plain(c) => GivesPlain(c, a, ents, rank);
    case LineEnd(_) => GivesPlain('\n', a, ents, rank);
    case Predefined(k) => GivesPredefined(k, a, ents, rank);
    case Number(hex, ds) => GivesNumber(hex, ds, a, ents, rank);
    case Declared(k, name, us) =>
      forall rest
        ensures Expand("&" + name + rest, ents, Mode(a), rank) == TextValue(us, a) + Expand(rest, ents, Mode(a), rank)
      {
        FindDeclared(k, rest, ents);
        ExpandNamed(k, rest, ents, Mode(a), rank);
        GivesUnits(us, rest, a, ents, rank);
      }
  }

  // A text without lone ampersands, whatever follows it.
  lemma {:induction false} GivesUnits(us: seq<Unit>, rest: string, a: bool, ents: seq<Entity>, rank: seq<nat>)
    requires Expandable(ents, rank) && HasDefaults(ents) && AreUnits(us, ents) && Ampersand !in us
    ensures Expand(Unbrokens(us) + rest, ents, Mode(a), rank) == TextValue(us, a) + Expand(rest, ents, Mode(a), rank)
    decreases us
  {
    if us == [] {
      assert "" + rest == rest && "" + Expand(rest, ents, Mode(a), rank) == Expand(rest, ents, Mode(a), rank);
    } else {
      var more := Unbrokens(us[1..]);
      GivesUnit(us[0], a, ents, rank);
      GivesUnits(us[1..], rest, a, ents, rank);
      Associative(Unbroken(us[0]), more, rest);
      Associative(UnitValue(us[0], a), TextValue(us[1..], a), Expand(rest, ents, Mode(a), rank));
    }
  }

  lemma {:induction false} UnbrokenDecoded(us: seq<Unit>, a: bool, ents: seq<Entity>, rank: seq<nat>)
    requires Expandable(ents, rank) && HasDefaults(ents) && IsText(us, ents)
    ensures Expand(Unbrokens(us), ents, Mode(a), rank) == TextValue(us, a)
  {
    if us != [] {
      var rest := Unbrokens(us[1..]);
      UnbrokenDecoded(us[1..], a, ents, rank);
      if us[0].Ampersand? {
        AmpersandStays(rest, ents, Mode(a), rank);
      } else {
        GivesUnit(us[0], a, ents, rank);
      }
    }
  }

  // ---------- line ends ----------

  // A unit other than a line end holds no CR and no '<', and starts with LF only if it is one.
  lemma UnitChars(u: Unit, ents: seq<Entity>)
    requires IsUnit(u, ents)
    ensures SpellUnit(u) != "" && '<' !in SpellUnit(u)
    ensures !u.LineEnd? ==> '\r' !in SpellUnit(u)
    ensures SpellUnit(u)[0] == '\n' ==> u == Plain('\n')
  {
    if u.Number? {
      forall i | 0 <= i < |u.digits| ensures DigitChars(u.digits)[i] != '<' && DigitChars(u.digits)[i] != '\r' {
        DigitRead(u.digits[i]);
      }
    }
  }

  lemma {:induction false} TextUnbroken(us: seq<Unit>, ents: seq<Entity>)
    requires IsText(us, ents)
    ensures Normalize(SpellText(us)) == Unbrokens(us)
    ensures '<' !in SpellText(us)
  {
    if us != [] {
      var first, rest := SpellUnit(us[0]), SpellText(us[1..]);
      TextUnbroken(us[1..], ents);
      UnitChars(us[0], ents);
      if us[0].LineEnd? {
        if us[1..] != [] { UnitChars(us[1], ents); }
        NormalizeFront(rest);
      } else {
        NormalizeAppend(first, rest);
      }
    }
  }

  // However a text is written, in content or as the value of an attribute, it is decoded to the
  // characters it stands for.
  lemma ValueDecoded(us: seq<Unit>, a: bool, ents: seq<Entity>, rank: seq<nat>)
    requires Expandable(ents, rank) && DEFAULT <= ents && IsText(us, ents)
    ensures Expand(Normalize(SpellText(us)), ents, Mode(a), rank) == TextValue(us, a)
  {
    StartsWithDefaults(ents);
    TextUnbroken(us, ents);
    UnbrokenDecoded(us, a, ents, rank);
  }

  lemma TextDecoded(us: seq<Unit>, ents: seq<Entity>, rank: seq<nat>)
    requires Expandable(ents, rank) && DEFAULT <= ents && IsText(us, ents)
    ensures '<' !in SpellText(us)
    ensures Expand(Normalize(SpellText(us)), ents, '&', rank) == TextValue(us, false)
  {
    TextUnbroken(us, ents);
    ValueDecoded(us, false, ents, rank);
  }
}
