/** Line ends and ampersands under ezxml_decode. */
module EzxmlLines {
  import opened Sequences
  import opened CString
  import opened EzxmlEntities
  import opened EzxmlDecode
  import opened EzxmlDecodeInPlace
  import opened EzxmlEscape

  // ---------- line ends ----------

  ghost predicate EndsWithCR(a: string) {
    a != "" && a[|a| - 1] == '\r'
  }

  // The first character of a text, where a CR LF is one.
  function Width(s: string): nat {
    if Peek(s) == '\r' && Peek(s, 1) == '\n' then 2 else 1
  }

  lemma NormalizeStep(s: string)
    requires s != ""
    ensures Width(s) <= |s|
    ensures Normalize(s) == [if s[0] == '\r' then '\n' else s[0]] + Normalize(s[Width(s)..])
  {
  }

  lemma WidthAppend(a: string, b: string)
    requires a != "" && (EndsWithCR(a) ==> Peek(b) != '\n')
    ensures Width(a + b) == Width(a) <= |a| && (a + b)[Width(a)..] == a[Width(a)..] + b
    ensures EndsWithCR(a[Width(a)..]) ==> EndsWithCR(a)
  {
    if |a| == 1 && b != "" { assert (a + b)[1] == b[0]; }
  }

  // Unless a CR LF stands where they meet, two texts are normalized apart from each other.
  lemma {:induction false} NormalizeAppend(a: string, b: string)
    requires EndsWithCR(a) ==> Peek(b) != '\n'
    ensures Normalize(a + b) == Normalize(a) + Normalize(b)
    decreases |a|
  {
    if a == "" {
      assert a + b == b;
    } else {
      WidthAppend(a, b);
      NormalizeStep(a + b);
      NormalizeStep(a);
      NormalizeAppend(a[Width(a)..], b);
      Associative([if a[0] == '\r' then '\n' else a[0]], Normalize(a[Width(a)..]), Normalize(b));
    }
  }

  lemma NormalizeFront(b: string)
    ensures Normalize("\r\n" + b) == "\n" + Normalize(b)
    ensures Peek(b) != '\n' ==> Normalize("\r" + b) == "\n" + Normalize(b)
    ensures Normalize("\n" + b) == "\n" + Normalize(b)
  {
    assert ("\r\n" + b)[2..] == b && ("\r" + b)[1..] == b && ("\n" + b)[1..] == b;
  }

  // Section 2.11 of XML 1.0: a CR LF, and a CR or an LF that is not part of one, are a line end,
  // wherever they stand, and become LF. The texts around them are normalized on their own.
  lemma LineEnds(a: string, b: string)
    ensures Normalize(a + "\r\n" + b) == Normalize(a) + "\n" + Normalize(b)
    ensures Peek(b) != '\n' ==> Normalize(a + "\r" + b) == Normalize(a) + "\n" + Normalize(b)
    ensures !EndsWithCR(a) ==> Normalize(a + "\n" + b) == Normalize(a) + "\n" + Normalize(b)
  {
    NormalizeFront(b);
    Associative(a, "\r\n", b);
    Associative(a, "\r", b);
    Associative(a, "\n", b);
    Associative(Normalize(a), "\n", Normalize(b));
    NormalizeAppend(a, "\r\n" + b);
    NormalizeAppend(a, "\r" + b);
    if !EndsWithCR(a) { NormalizeAppend(a, "\n" + b); }
  }

  // The lines of a text, without their ends.
  function Lines(s: string): (r: seq<string>)
    ensures |r| >= 1
  {
    if s == "" then [""]
    else if s[0] == '\r' && Peek(s, 1) == '\n' then [""] + Lines(s[2..])
    else if s[0] == '\r' || s[0] == '\n' then [""] + Lines(s[1..])
    else
      var r := Lines(s[1..]);
      [[s[0]] + r[0]] + r[1..]
  }

  // Lines with an LF between any two.
  function Join(ls: seq<string>): string
    requires |ls| >= 1
  {
    if |ls| == 1 then ls[0] else ls[0] + "\n" + Join(ls[1..])
  }

  // A line end before all lines.
  lemma JoinBreak(r: seq<string>)
    requires |r| >= 1
    ensures Join([""] + r) == "\n" + Join(r)
  {
    assert ([""] + r)[1..] == r;
  }

  // A character before the first line.
  lemma JoinChar(c: char, first: string, more: seq<string>)
    ensures Join([[c] + first] + more) == [c] + Join([first] + more)
  {
    assert ([[c] + first] + more)[1..] == more && ([first] + more)[1..] == more;
    if more != [] {
      Associative([c], first + "\n", Join(more));
      Associative([c], first, "\n");
    }
  }

  lemma LineStart(c: char, s: string)
    ensures c != '\r' && c != '\n' ==> Lines([c] + s) == [[c] + Lines(s)[0]] + Lines(s)[1..]
    ensures c == '\n' ==> Lines([c] + s) == [""] + Lines(s)
  {
    assert ([c] + s)[1..] == s;
  }

  // Normalizing keeps the list of lines, and ends each but the last with LF.
  lemma {:induction false} LinesKept(s: string)
    ensures Normalize(s) == Join(Lines(s))
    ensures Lines(Normalize(s)) == Lines(s)
  {
    if s != "" && s[0] == '\r' {
      var rest := if Peek(s, 1) == '\n' then s[2..] else s[1..];
      LinesKept(rest);
      LineStart('\n', Normalize(rest));
      JoinBreak(Lines(rest));
    } else if s != "" {
      LinesKept(s[1..]);
      LineStart(s[0], Normalize(s[1..]));
      var r := Lines(s[1..]);
      assert [r[0]] + r[1..] == r;
      JoinChar(s[0], r[0], r[1..]);
    }
  }

  // ---------- ampersands ----------

  // What stands after an ampersand is no reference: no number sign and no declared name.
  ghost predicate NoReference(rest: string, ents: seq<Entity>) {
    Peek(rest) != '#' && forall i :: 0 <= i < |ents| ==> !(ents[i].name <= rest)
  }

  // An ampersand that starts no reference stays.
  lemma AmpersandStays(rest: string, ents: seq<Entity>, t: char, rank: seq<nat>)
    requires (t == '&' || t == ' ') && Expandable(ents, rank) && NoReference(rest, ents)
    ensures Expand("&" + rest, ents, t, rank) == "&" + Expand(rest, ents, t, rank)
  {
    var s := "&" + rest;
    assert s[1..] == rest;
    assert Find(rest, ents) == |ents|;
    ExpandPlain(s, ents, t, rank);
  }

  // So does one with a number sign and digits when no semicolon follows them, or when they are zero.
  lemma UnfinishedStays(d: string, rest: string, ents: seq<Entity>, t: char, rank: seq<nat>)
    requires (t == '&' || t == ' ') && Expandable(ents, rank) && AreDigits(d, 10)
    requires Peek(rest) != ';' || ReadDigits(d, 10, 0).0 == 0
    requires !IsDigit(Peek(rest))
    ensures Expand("&#" + d + rest, ents, t, rank) == "&" + Expand("#" + d + rest, ents, t, rank)
  {
    var s, p := "&#" + d + rest, d + rest;
    assert s[..2] == "&#" && s[2..] == p && s[1..] == "#" + d + rest && s[2] == d[0];
    DigitsStop(d, rest, 0);
    assert p[0] == d[0] && DigitValue(d[0]) < 10;
    assert SkipSpaces(p) == p && NumberStart(p, 10) == p && NumberEnd(p, 10) == rest;
    assert CharRef(s) == (Number(p, 10), rest);
    ExpandPlain(s, ents, t, rank);
  }

  lemma {:induction false} DigitsStop(d: string, rest: string, n: nat)
    requires (forall i :: 0 <= i < |d| ==> DigitValue(d[i]) < 10) && !IsDigit(Peek(rest))
    ensures ReadDigits(d + rest, 10, n) == (ReadDigits(d, 10, n).0, rest)
  {
    if d == "" {
      assert d + rest == rest;
    } else {
      assert (d + rest)[1..] == d[1..] + rest;
      DigitsStop(d[1..], rest, n * 10 + DigitValue(d[0]));
    }
  }

  // In a CDATA section nothing is a reference.
  lemma {:induction false} CDataStays(s: string, ents: seq<Entity>, rank: seq<nat>)
    requires Expandable(ents, rank)
    ensures Expand(s, ents, 'c', rank) == s
  {
    if s != "" {
      ExpandPlain(s, ents, 'c', rank);
      CDataStays(s[1..], ents, rank);
    }
  }

  // ---------- values of declarations ----------

  // The first entity of a name is found by its name, whatever follows.
  lemma FindDeclared(k: nat, rest: string, ents: seq<Entity>)
    requires k < |ents| && WellNamedAll(ents) && forall i :: 0 <= i < k ==> ents[i].name != ents[k].name
    ensures Find(ents[k].name + rest, ents) == k
  {
    var s := ents[k].name + rest;
    assert ents[k].name <= s;
    NamesPrefix(ents[Find(s, ents)].name, ents[k].name, s);
  }

  // Sections 4.4.5 and 4.4.7 of XML 1.0: in the value of a declaration a reference to a parameter
  // entity is replaced by the value of the first one of that name, which is decoded in its turn; a
  // reference to a general entity stays, and so does a '%' before no name.
  lemma ParameterReplaced(k: nat, rest: string, pe: seq<Entity>, rank: seq<nat>)
    requires Expandable(pe, rank, '%') && k < |pe| && forall i :: 0 <= i < k ==> pe[i].name != pe[k].name
    ensures Expand("%" + pe[k].name + rest, pe, '%', rank) == Expand(pe[k].value + rest, pe, '%', rank)
  {
    var name := pe[k].name;
    var s := "%" + name + rest;
    FindDeclared(k, rest, pe);
    assert s[1..] == name + rest;
    forall i | 1 <= i < |name| ensures s[i] != ';' { assert s[i] == name[..|name| - 1][i - 1]; }
    assert s[|name|] == ';';
    SemicolonAt(s, 1, |name|);
    assert s[|name| + 1..] == rest;
    ExpandEntity(s, pe, '%', rank);
  }

  lemma GeneralStays(rest: string, pe: seq<Entity>, rank: seq<nat>)
    requires Expandable(pe, rank, '%')
    ensures Peek(rest) != '#' ==> Expand("&" + rest, pe, '%', rank) == "&" + Expand(rest, pe, '%', rank)
    ensures (forall i :: 0 <= i < |pe| ==> !(pe[i].name <= rest)) ==>
      Expand("%" + rest, pe, '%', rank) == "%" + Expand(rest, pe, '%', rank)
  {
    var s, p := "&" + rest, "%" + rest;
    assert s[1..] == rest && p[1..] == rest && p[0] == '%' && s[0] == '&';
    if Peek(rest) != '#' { ExpandPlain(s, pe, '%', rank); }
    if forall i :: 0 <= i < |pe| ==> !(pe[i].name <= rest) {
      assert Find(rest, pe) == |pe|;
      ExpandPlain(p, pe, '%', rank);
    }
  }
}
