/** ezxml_ampencode, and why decoding undoes it. */
module EzxmlEscape {
  import opened Sequences
  import opened CString
  import opened EzxmlEntities
  import opened EzxmlDecode
  import opened EzxmlDecodeInPlace
  import opened EzxmlUtf

  // What one character becomes, in text or in an attribute.
  function EscapeChar(c: char, a: bool): (r: string)
    ensures 1 <= |r| <= 6 && '\r' !in r
  {
    if c == '&' then "&amp;"
    else if c == '<' then "&lt;"
    else if c == '>' then "&gt;"
    else if c == '"' then (if a then "&quot;" else "\"")
    else if c == '\n' then (if a then "&#xA;" else "\n")
    else if c == '\t' then (if a then "&#x9;" else "\t")
    else if c == '\r' then "&#xD;"
    else [c]
  }

  function Escape(s: string, a: bool): (r: string)
    ensures '\r' !in r
  {
    if s == "" then "" else EscapeChar(s[0], a) + Escape(s[1..], a)
  }

  lemma {:induction false} EscapeAppend(s: string, u: string, a: bool)
    ensures Escape(s + u, a) == Escape(s, a) + Escape(u, a)
  {
    if s == "" {
      assert s + u == u;
    } else {
      assert (s + u)[1..] == s[1..] + u;
      EscapeAppend(s[1..], u, a);
    }
  }

  lemma EscapeOne(c: char, a: bool)
    ensures Escape([c], a) == EscapeChar(c, a)
  {
    assert [c][1..] == "";
  }

  // No markup is left, and in an attribute no quote and no white space that would be normalized.
  predicate Quiet(c: char, a: bool) {
    c != '<' && c != '>' && c != '\r' && (a ==> c != '"' && c != '\n' && c != '\t')
  }

  lemma {:induction false} EscapedQuiet(s: string, a: bool)
    ensures forall i :: 0 <= i < |Escape(s, a)| ==> Quiet(Escape(s, a)[i], a)
  {
    if s != "" { EscapedQuiet(s[1..], a); }
  }

  // A growing output text: *dst, *dlen and *max.
  class Output {
    var dst: array<char>
    var dlen: nat

    constructor ()
      ensures Valid() && fresh(dst) && Text() == ""
    {
      dst, dlen := new char[BUFSIZE], 0;
    }

    ghost predicate Valid()
      reads this
    {
      dlen <= dst.Length
    }

    ghost function Text(): string
      requires Valid()
      reads this, dst
    {
      dst[..dlen]
    }

    // The buffer grows in steps until the bytes fit.
    method Reserve(needed: nat)
      requires Valid()
      modifies this
      ensures Valid() && Text() == old(Text()) && dlen + needed <= dst.Length
      ensures dst == old(dst) || fresh(dst)
    {
      while dlen + needed > dst.Length
        invariant Valid() && Text() == old(Text()) && (dst == old(dst) || fresh(dst))
        decreases dlen + needed - dst.Length
      {
        var max := dst.Length + BUFSIZE;
        var u := new char[max];
        forall i | 0 <= i < dst.Length { u[i] := dst[i]; }
        assert u[..dlen] == dst[..dlen];
        dst := u;
      }
    }

    // A text is written with its terminator, and the length moves past it.
    method Put(s: string)
      requires Valid() && dlen + |s| < dst.Length
      modifies this`dlen, dst
      ensures Valid() && Text() == old(Text()) + s
    {
      ghost var text := Text();
      forall i | 0 <= i < |s| { dst[dlen + i] := s[i]; }
      assert dst[dlen..dlen + |s|] == s && dst[..dlen] == text;
      assert dst[..dlen + |s|] == dst[..dlen] + dst[dlen..dlen + |s|];
      ghost var longer := dst[..dlen + |s|];
      dst[dlen + |s|] := '\0';
      assert dst[..dlen + |s|] == longer;
      dlen := dlen + |s|;
    }

    // One byte is written.
    method PutByte(c: char)
      requires Valid() && dlen < dst.Length
      modifies this`dlen, dst
      ensures Valid() && Text() == old(Text()) + [c]
    {
      dst[dlen] := c;
      dlen := dlen + 1;
    }

    // ezxml_ampencode of `len` characters, or up to the end of the text. Every write fits.
    method AmpEncode(s: string, len: int, a: bool)
      requires Valid()
      modifies this, dst
      ensures Valid() && Text() == old(Text()) + Escape(if 0 <= len <= |s| then s[..len] else s, a)
      ensures dst == old(dst) || fresh(dst)
    {
      var i := 0;
      assert s[..0] == "";
      while i != len && i < |s|
        invariant 0 <= i <= |s| && (len >= 0 ==> i <= len) && Valid() && (dst == old(dst) || fresh(dst))
        invariant Text() == old(Text()) + Escape(s[..i], a)
        decreases |s| - i
      {
        ghost var before := Text();
        Reserve(10);
        PutEscaped(s[i], a);
        EscapeNext(s, i, a);
        Associative(old(Text()), Escape(s[..i], a), EscapeChar(s[i], a));
        i := i + 1;
      }
      assert s[..|s|] == s;
    }

    // The switch on a character.
    method PutEscaped(c: char, a: bool)
      requires Valid() && dlen + 10 <= dst.Length
      modifies this`dlen, dst
      ensures Valid() && Text() == old(Text()) + EscapeChar(c, a)
    {
      match c
      case '&' => Put("&amp;");
      case '<' => Put("&lt;");
      case '>' => Put("&gt;");
      case '"' => Put(if a then "&quot;" else "\"");
      case '\n' => Put(if a then "&#xA;" else "\n");
      case '\t' => Put(if a then "&#x9;" else "\t");
      case '\r' => Put("&#xD;");
      case _ => PutByte(c);
    }
  }

  lemma EscapeNext(s: string, i: nat, a: bool)
    requires i < |s|
    ensures Escape(s[..i + 1], a) == Escape(s[..i], a) + EscapeChar(s[i], a)
  {
    assert s[..i + 1] == s[..i] + [s[i]];
    EscapeAppend(s[..i], [s[i]], a);
    EscapeOne(s[i], a);
  }

  // ---------- decoding undoes escaping ----------

  // Section 4.6 of XML 1.0, as the root's entity table starts.
  const DEFAULT: seq<Entity> := [Entity("lt;", "&#60;"), Entity("gt;", "&#62;"), Entity("quot;", "&#34;"),
                                 Entity("apos;", "&#39;"), Entity("amp;", "&#38;")]

  const NO_RANK: seq<nat> := [0, 0, 0, 0, 0]

  // A value that is one character reference.
  lemma RefValue(v: string, ents: seq<Entity>, rank: seq<nat>, n: nat)
    requires |v| >= 2 && v[0] == '&' && v[1] == '#' && '&' !in v[1..]
    requires WellNamedAll(ents) && |rank| == |ents|
    ensures RefsBelow(v, ents, rank, n) && Complete(v, ents)
  {
    assert forall i :: 0 <= i < |ents| ==> ents[i].name[0] != '#';
    assert Find(v[1..], ents) == |ents|;
    OneReference("", v, ents, rank, n);
    PlainComplete(v[1..], ents);
  }

  lemma {:induction false} PlainComplete(v: string, ents: seq<Entity>)
    requires '&' !in v
    ensures Complete(v, ents)
  {
    if v != "" { PlainComplete(v[1..], ents); }
  }

  lemma DefaultExpandable()
    ensures Expandable(DEFAULT, NO_RANK)
  {
    DefaultNames();
    forall i | 0 <= i < |DEFAULT|
      ensures RefsBelow(DEFAULT[i].value, DEFAULT, NO_RANK, NO_RANK[i]) && Complete(DEFAULT[i].value, DEFAULT)
    {
      RefValue(DEFAULT[i].value, DEFAULT, NO_RANK, NO_RANK[i]);
    }
  }

  lemma DefaultNames()
    ensures WellNamedAll(DEFAULT)
  {
    assert "lt;"[..2] == "lt" && "gt;"[..2] == "gt" && "quot;"[..4] == "quot";
    assert "apos;"[..4] == "apos" && "amp;"[..3] == "amp";
  }

  // ---------- character references ----------

  // Digits of a base, of either case.
  predicate AreDigits(d: string, base: int) {
    d != "" && forall i :: 0 <= i < |d| ==> DigitValue(d[i]) < base
  }

  lemma {:induction false} DigitsRead(d: string, rest: string, base: int, n: nat)
    requires (base == 10 || base == 16) && forall i :: 0 <= i < |d| ==> DigitValue(d[i]) < base
    ensures ReadDigits(d + (";" + rest), base, n) == (ReadDigits(d, base, n).0, ";" + rest)
  {
    if d == "" {
      assert d + (";" + rest) == ";" + rest;
    } else {
      assert (d + (";" + rest))[1..] == d[1..] + (";" + rest);
      DigitsRead(d[1..], rest, base, n * base + DigitValue(d[0]));
    }
  }

  function Base(hex: bool): int {
    if hex then 16 else 10
  }

  // A reference "&#d;" or "&#xd;".
  function RefText(hex: bool, d: string): string {
    (if hex then "&#x" else "&#") + d + ";"
  }

  // The number of a reference is that of its digits, if it is a long.
  lemma RefRead(hex: bool, d: string, rest: string)
    requires AreDigits(d, Base(hex)) && ReadDigits(d, Base(hex), 0).0 <= LONG_MAX
    ensures var s := RefText(hex, d) + rest; "&#" <= s && CharRef(s) == (ReadDigits(d, Base(hex), 0).0, ";" + rest)
  {
    var s, p := RefText(hex, d) + rest, d + (";" + rest);
    assert s[..2] == "&#" && s[2] == (if hex then 'x' else d[0]);
    assert hex ==> s[3..] == p;
    assert !hex ==> s[2..] == p;
    DigitsRead(d, rest, Base(hex), 0);
    RefStart(d, rest, Base(hex));
  }

  lemma RefStart(d: string, rest: string, base: int)
    requires (base == 10 || base == 16) && AreDigits(d, base)
    ensures var p := d + (";" + rest);
      SkipSpaces(p) == p && NumberStart(p, base) == p && Peek(p) == d[0]
  {
    var p := d + (";" + rest);
    assert p[0] == d[0] && |p| >= 2 && p[1] == (if |d| > 1 then d[1] else ';');
  }

  // A reference in decimal or hexadecimal digits to any Unicode scalar value but 0, leading zeros
  // and digits of either case included, is decoded to its UTF-8 form.
  lemma ReferenceDecoded(hex: bool, d: string, rest: string, ents: seq<Entity>, t: char, rank: seq<nat>)
    requires Expandable(ents, rank, Mark(t)) && t != 'c' && AreDigits(d, Base(hex))
    requires var c := ReadDigits(d, Base(hex), 0).0; c != 0 && Utf8.IsScalar(c)
    ensures Expand(RefText(hex, d) + rest, ents, t, rank) ==
      Utf8.Chars(Utf8.Encode(ReadDigits(d, Base(hex), 0).0)) + Expand(rest, ents, t, rank)
  {
    var c := ReadDigits(d, Base(hex), 0).0;
    RefRead(hex, d, rest);
    CharBytesAreUtf8(c);
    assert (";" + rest)[1..] == rest;
    ExpandCharRef(RefText(hex, d) + rest, ents, t, rank);
  }

  lemma DecimalRef(v: string, rest: string)
    requires |v| == 5 && v[0] == '&' && v[1] == '#' && IsDigit(v[2]) && IsDigit(v[3]) && v[4] == ';'
    ensures "&#" <= v + rest && CharRef(v + rest) == (10 * DigitValue(v[2]) + DigitValue(v[3]), ";" + rest)
  {
    var d := v[2..4];
    assert v == RefText(false, d);
    assert ReadDigits(d[1..][1..], 10, 10 * DigitValue(d[0]) + DigitValue(d[1])).0 == 10 * DigitValue(d[0]) + DigitValue(d[1]);
    assert ReadDigits(d[1..], 10, DigitValue(d[0])).0 == 10 * DigitValue(d[0]) + DigitValue(d[1]);
    RefRead(false, d, rest);
  }

  lemma HexRef(v: string, rest: string)
    requires |v| == 5 && v[0] == '&' && v[1] == '#' && v[2] == 'x' && 0 < DigitValue(v[3]) < 16 && v[4] == ';'
    ensures "&#" <= v + rest && CharRef(v + rest) == (DigitValue(v[3]), ";" + rest)
  {
    var d := v[3..4];
    assert v == RefText(true, d);
    assert ReadDigits(d[1..], 16, DigitValue(d[0])).0 == DigitValue(d[0]);
    RefRead(true, d, rest);
  }

  // A reference to an ASCII character.
  lemma ExpandRef(s: string, c: int, rest: string, ents: seq<Entity>, t: char, rank: seq<nat>)
    requires Expandable(ents, rank) && (t == '&' || t == ' ')
    requires "&#" <= s && CharRef(s) == (c, ";" + rest) && 0 < c < 0x80
    ensures Expand(s, ents, t, rank) == [c as char] + Expand(rest, ents, t, rank)
  {
    assert (";" + rest)[1..] == rest && CharBytes(c) == [c as char];
    ExpandCharRef(s, ents, t, rank);
  }

  // A reference to an entity.
  lemma ExpandNamed(k: nat, rest: string, ents: seq<Entity>, t: char, rank: seq<nat>)
    requires k < |ents| && (t == '&' || t == ' ') && Expandable(ents, rank)
    requires Find(ents[k].name + rest, ents) == k
    ensures Expand("&" + ents[k].name + rest, ents, t, rank) == Expand(ents[k].value + rest, ents, t, rank)
  {
    var name := ents[k].name;
    var s := "&" + name + rest;
    assert s[1..] == name + rest && s[1] == name[0];
    assert s[|name|] == ';' && forall i :: 1 <= i < |name| ==> s[i] == name[..|name| - 1][i - 1];
    SemicolonAt(s, 1, |name|);
    assert s[|name| + 1..] == rest;
    ExpandEntity(s, ents, t, rank);
  }

  // The table still starts with the five entities.
  ghost predicate HasDefaults(ents: seq<Entity>) {
    && |ents| >= 5
    && ents[0] == Entity("lt;", "&#60;") && ents[1] == Entity("gt;", "&#62;") && ents[2] == Entity("quot;", "&#34;")
    && ents[3] == Entity("apos;", "&#39;") && ents[4] == Entity("amp;", "&#38;")
  }

  lemma FindDefault(k: nat, rest: string, ents: seq<Entity>)
    requires k < 5 && HasDefaults(ents)
    ensures Find(ents[k].name + rest, ents) == k
  {
    var s := ents[k].name + rest;
    assert s[0] == ents[k].name[0] && s[1] == ents[k].name[1];
    assert ents[k].name <= s;
    var j := Find(s, ents);
    assert ents[j].name[0] == s[0] && ents[j].name[1] == s[1];
  }

  // A value "&#dd;" that stands for the character `c`.
  predicate IsDecimal(v: string, c: char) {
    && |v| == 5 && v[0] == '&' && v[1] == '#' && IsDigit(v[2]) && IsDigit(v[3]) && v[2] != '0' && v[4] == ';'
    && c as int == 10 * DigitValue(v[2]) + DigitValue(v[3])
  }

  // Whatever follows, `x` is decoded to the character `c`.
  ghost predicate Yields(x: string, c: char, ents: seq<Entity>, t: char, rank: seq<nat>)
    requires Expandable(ents, rank) && t != '%'
  {
    forall rest :: Expand(x + rest, ents, t, rank) == [c] + Expand(rest, ents, t, rank)
  }

  lemma YieldsRef(v: string, c: char, ents: seq<Entity>, t: char, rank: seq<nat>)
    requires (t == '&' || t == ' ') && Expandable(ents, rank) && 0 < c as int < 0x80
    requires forall rest :: "&#" <= v + rest && CharRef(v + rest) == (c as int, ";" + rest)
    ensures Yields(v, c, ents, t, rank)
  {
    forall rest ensures Expand(v + rest, ents, t, rank) == [c] + Expand(rest, ents, t, rank) {
      ExpandRef(v + rest, c as int, rest, ents, t, rank);
    }
  }

  lemma YieldsDecimal(v: string, c: char, ents: seq<Entity>, t: char, rank: seq<nat>)
    requires (t == '&' || t == ' ') && Expandable(ents, rank) && IsDecimal(v, c)
    ensures Yields(v, c, ents, t, rank)
  {
    forall rest ensures "&#" <= v + rest && CharRef(v + rest) == (c as int, ";" + rest) { DecimalRef(v, rest); }
    YieldsRef(v, c, ents, t, rank);
  }

  lemma YieldsHex(v: string, c: char, ents: seq<Entity>, t: char, rank: seq<nat>)
    requires (t == '&' || t == ' ') && Expandable(ents, rank) && IsHex(v, c)
    ensures Yields(v, c, ents, t, rank)
  {
    forall rest ensures "&#" <= v + rest && CharRef(v + rest) == (c as int, ";" + rest) { HexRef(v, rest); }
    YieldsRef(v, c, ents, t, rank);
  }

  // A reference "&#xd;" to the character `c`.
  predicate IsHex(v: string, c: char) {
    && |v| == 5 && v[0] == '&' && v[1] == '#' && v[2] == 'x' && v[4] == ';'
    && 0 < DigitValue(v[3]) < 16 && c as int == DigitValue(v[3])
  }

  lemma BlankRefs(c: char)
    requires c == '\r' || c == '\n' || c == '\t'
    ensures IsHex(EscapeChar(c, true), c) && EscapeChar('\r', false) == EscapeChar('\r', true)
  {
  }

  // A reference to an entity with such a value.
  lemma YieldsNamed(k: nat, name: string, v: string, c: char, ents: seq<Entity>, t: char, rank: seq<nat>)
    requires k < |ents| && ents[k] == Entity(name, v) && (t == '&' || t == ' ') && Expandable(ents, rank)
    requires (forall rest :: Find(name + rest, ents) == k) && IsDecimal(v, c)
    ensures Yields("&" + name, c, ents, t, rank)
  {
    YieldsDecimal(v, c, ents, t, rank);
    forall rest ensures Expand("&" + name + rest, ents, t, rank) == [c] + Expand(rest, ents, t, rank) {
      ExpandNamed(k, rest, ents, t, rank);
    }
  }

  // What an attribute's characters become: vertical tab and form feed are lost.
  function Kept(c: char, a: bool): char {
    if a && (c == 11 as char || c == 12 as char) then ' ' else c
  }

  function KeptAll(s: string, a: bool): (r: string)
    ensures |r| == |s| && forall i :: 0 <= i < |s| ==> r[i] == Kept(s[i], a)
  {
    seq(|s|, i requires 0 <= i < |s| => Kept(s[i], a))
  }

  lemma YieldsKept(c: char, a: bool, ents: seq<Entity>, rank: seq<nat>)
    requires Expandable(ents, rank) && c != '&' && (a ==> c != '\n' && c != '\t' && c != '\r')
    ensures Yields([c], Kept(c, a), ents, Mode(a), rank)
  {
    forall rest
      ensures Expand([c] + rest, ents, Mode(a), rank) == [Kept(c, a)] + Expand(rest, ents, Mode(a), rank)
    {
      var s := [c] + rest;
      assert s[1..] == rest && s[0] == c;
      ExpandPlain(s, ents, Mode(a), rank);
    }
  }

  // The decoding mode for text and for attributes.
  function Mode(a: bool): char {
    if a then ' ' else '&'
  }

  lemma DefaultValue(k: nat, c: char, ents: seq<Entity>)
    requires k < 5 && HasDefaults(ents) && c == ['<', '>', '"', '\'', '&'][k]
    ensures IsDecimal(ents[k].value, c)
  {
  }

  lemma YieldsDefault(k: nat, c: char, ents: seq<Entity>, t: char, rank: seq<nat>)
    requires k < 5 && HasDefaults(ents) && Expandable(ents, rank) && (t == '&' || t == ' ')
    requires c == ['<', '>', '"', '\'', '&'][k]
    ensures Yields("&" + ents[k].name, c, ents, t, rank)
  {
    forall rest ensures Find(ents[k].name + rest, ents) == k { FindDefault(k, rest, ents); }
    DefaultValue(k, c, ents);
    YieldsNamed(k, ents[k].name, ents[k].value, c, ents, t, rank);
  }

  lemma YieldsMarkup(c: char, a: bool, ents: seq<Entity>, rank: seq<nat>)
    requires Expandable(ents, rank) && HasDefaults(ents)
    requires c == '&' || c == '<' || c == '>' || (a && c == '"')
    ensures Yields(EscapeChar(c, a), c, ents, Mode(a), rank)
  {
    var k := MarkupEntity(c, a, ents);
    YieldsDefault(k, c, ents, Mode(a), rank);
  }

  // The entity such a character is escaped to.
  lemma MarkupEntity(c: char, a: bool, ents: seq<Entity>) returns (k: nat)
    requires HasDefaults(ents) && (c == '&' || c == '<' || c == '>' || (a && c == '"'))
    ensures k < 5 && EscapeChar(c, a) == "&" + ents[k].name && c == ['<', '>', '"', '\'', '&'][k]
  {
    k := if c == '&' then 4 else if c == '<' then 0 else if c == '>' then 1 else 2;
  }

  lemma YieldsEscaped(c: char, a: bool, ents: seq<Entity>, rank: seq<nat>)
    requires Expandable(ents, rank) && HasDefaults(ents)
    ensures Yields(EscapeChar(c, a), Kept(c, a), ents, Mode(a), rank)
  {
    if c == '&' || c == '<' || c == '>' || (a && c == '"') {
      assert Kept(c, a) == c;
      YieldsMarkup(c, a, ents, rank);
    } else if c == '\r' || (a && (c == '\n' || c == '\t')) {
      BlankRefs(c);
      assert Kept(c, a) == c;
      YieldsHex(EscapeChar(c, a), c, ents, Mode(a), rank);
    } else {
      assert EscapeChar(c, a) == [c];
      YieldsKept(c, a, ents, rank);
    }
  }

  lemma KeptStep(s: string, a: bool)
    requires s != ""
    ensures [Kept(s[0], a)] + KeptAll(s[1..], a) == KeptAll(s, a)
  {
  }

  lemma {:induction false} ExpandEscaped(s: string, a: bool, ents: seq<Entity>, rank: seq<nat>)
    requires Expandable(ents, rank) && HasDefaults(ents)
    ensures Expand(Escape(s, a), ents, Mode(a), rank) == KeptAll(s, a)
  {
    if s != "" {
      YieldsEscaped(s[0], a, ents, rank);
      ExpandEscaped(s[1..], a, ents, rank);
      KeptStep(s, a);
    }
  }

  // Sections 2.11, 4.1 and 4.6 of XML 1.0: with the default entities, and whatever other
  // declarations follow them, decoding an escaped text gives the text back.
  lemma DecodeEscaped(s: string, ents: seq<Entity>, rank: seq<nat>)
    requires Expandable(ents, rank) && DEFAULT <= ents
    ensures Expand(Normalize(Escape(s, false)), ents, '&', rank) == s
  {
    StartsWithDefaults(ents);
    ExpandEscaped(s, false, ents, rank);
  }

  // Section 3.3.3 of XML 1.0: an escaped attribute decodes to itself exactly when it has no
  // vertical tab and no form feed.
  lemma DecodeEscapedAttribute(s: string, ents: seq<Entity>, rank: seq<nat>)
    requires Expandable(ents, rank) && DEFAULT <= ents
    ensures var r := Expand(Normalize(Escape(s, true)), ents, ' ', rank);
      |r| == |s| && (forall i :: 0 <= i < |s| ==> r[i] == Kept(s[i], true)) &&
      (r == s <==> 11 as char !in s && 12 as char !in s)
  {
    StartsWithDefaults(ents);
    ExpandEscaped(s, true, ents, rank);
    if KeptAll(s, true) == s {
      forall i | 0 <= i < |s| ensures s[i] != 11 as char && s[i] != 12 as char {
        assert KeptAll(s, true)[i] == Kept(s[i], true);
      }
    }
  }

  lemma StartsWithDefaults(ents: seq<Entity>)
    requires DEFAULT <= ents
    ensures HasDefaults(ents)
  {
    assert forall i :: 0 <= i < |DEFAULT| ==> ents[i] == DEFAULT[i];
  }

  // Escaping a text and decoding the result.
  method DecodeText(s: string, ents: seq<Entity>, ghost rank: seq<nat>) returns (r: string)
    requires Expandable(ents, rank) && DEFAULT <= ents
    ensures r == s
  {
    var out := new Output();
    out.AmpEncode(s, -1, false);
    assert out.dst[..out.dlen] == Escape(s, false);
    DecodeEscaped(s, ents, rank);
    r := Decode(out.dst[..out.dlen], ents, '&', rank);
  }
}
