/** Minifying keeps the meaning: a text the parser accepts to its end gives the same tree once it is
    minified, however it was written. */
module CJsonMinifyMeaning {
  import opened Sequences
  import opened CString
  import opened CJsonText
  import opened CJsonLiterals
  import opened CJsonRoundTrip
  import opened CJsonStrings
  import opened CJsonNumbers
  import opened CJsonMinify

  // ---------- white space ----------

  // What a value, a name or a separator starts with: neither skipped nor a comment.
  predicate Starts(p: string) {
    p != "" && p[0] > ' ' && p[0] != '/'
  }

  lemma MinifyFirst(p: string)
    requires Starts(p)
    ensures Minify(p) != "" && Minify(p)[0] == p[0] && Skip(Minify(p)) == Minify(p)
    ensures p[0] != '\"' ==> Minify(p) == [p[0]] + Minify(p[1..])
  {
  }

  lemma {:induction false} SkipMinify(p: string)
    requires Starts(Skip(p))
    ensures Skip(Minify(p)) == Minify(Skip(p))
  {
    if '\0' < p[0] <= ' ' {
      SkipMinify(p[1..]);
      if !IsBlank(p[0]) { assert ([p[0]] + Minify(p[1..]))[1..] == Minify(p[1..]); }
    } else {
      MinifyFirst(p);
    }
  }

  lemma {:induction false} SkipMinifyAll(p: string)
    requires Skip(p) == ""
    ensures Skip(Minify(p)) == "" && Stops(Minify(p))
  {
    if p != "" {
      SkipMinifyAll(p[1..]);
      if !IsBlank(p[0]) { assert ([p[0]] + Minify(p[1..]))[1..] == Minify(p[1..]); }
    }
  }

  lemma {:induction false} StopsMinify(p: string)
    requires Peek(Skip(p)) in {',', ':', ']', '}'}
    ensures Stops(Minify(p))
  {
    if '\0' < p[0] <= ' ' { StopsMinify(p[1..]); } else { MinifyFirst(p); }
  }

  // A separator or a bracket after white space, and what follows it.
  lemma SeparatorKept(p: string)
    requires Peek(Skip(p)) in {',', ':', ']', '}'}
    ensures Stops(Minify(p)) && Peek(Skip(Minify(p))) == Peek(Skip(p))
    ensures Skip(Minify(p))[1..] == Minify(Skip(p)[1..])
  {
    StopsMinify(p);
    SkipMinify(p);
    MinifyFirst(Skip(p));
  }

  // ---------- literals ----------

  function AfterQuote(p: string): string {
    if Peek(p) == '\"' then p[1..] else p
  }

  // The literal of `b`, before `next` instead of `tail`: the same bytes, and it ends before `next`.
  predicate SameLiteral(b: string, tail: string, c: string, next: string) {
    && WellEscaped(c) && Unescape(c).0 == Unescape(b).0
    && AfterQuote(Unescape(b).1) == tail && AfterQuote(Unescape(c).1) == next
    && Peek(c) == Peek(b) && (Peek(b) == '\\' ==> Peek(c, 1) == Peek(b, 1))
  }

  // An escape other than \u.
  lemma ShortEscapeAt(e: string, r: string)
    requires |e| == 2 && e[0] == '\\' && e[1] != 'u'
    ensures Unescape(e + r) == (UnescapeOne([e[1]]).0 + Unescape(r).0, Unescape(r).1)
    ensures WellEscaped(e + r) == WellEscaped(r)
  {
    var p := e + r;
    assert p[2..] == r && Advance(p[1..], 1) == r;
    assert UnescapeOne(p[1..]) == (UnescapeOne([e[1]]).0, p[1..]);
  }

  // The first unit `e` of a literal, before a rest that is kept.
  lemma PlainKept(e: string, b: string, tail: string, c: string, next: string)
    requires |e| == 1 && e[0] != '\"' && e[0] != '\\' && SameLiteral(b, tail, c, next)
    ensures SameLiteral(e + b, tail, e + c, next)
  {
    UnescapePlain(e[0], b);
    UnescapePlain(e[0], c);
    assert [e[0]] == e && (e + c)[1..] == c;
  }

  lemma ShortKept(e: string, b: string, tail: string, c: string, next: string)
    requires |e| == 2 && e[0] == '\\' && e[1] != 'u' && SameLiteral(b, tail, c, next)
    ensures SameLiteral(e + b, tail, e + c, next)
  {
    ShortEscapeAt(e, b);
    ShortEscapeAt(e, c);
  }

  // A \u escape alone.
  lemma UnitKept(h: string, b: string, tail: string, c: string, next: string)
    requires |h| == 4 && IsUnit("\\u" + h) && !PairAt(h, b) && SameLiteral(b, tail, c, next)
    ensures SameLiteral("\\u" + h + b, tail, "\\u" + h + c, next)
  {
    UnitAt(h, b);
    UnitAt(h, c);
    RegroupUnit(h, b);
    RegroupUnit(h, c);
    UnitWellEscaped(h, c);
  }

  lemma UnitWellEscaped(h: string, c: string)
    requires |h| == 4 && IsUnit("\\u" + h) && WellEscaped(c)
    ensures WellEscaped("\\u" + h + c)
  {
    var p := "\\u" + h + c;
    assert p[6..] == c && forall i :: 2 <= i < 6 ==> p[i] == ("\\u" + h)[i];
  }

  // A surrogate pair of \u escapes.
  lemma PairKept(h: string, l: string, b: string, tail: string, c: string, next: string)
    requires |h| == 4 && IsUnit("\\u" + h) && |l| == 4 && IsUnit("\\u" + l)
    requires PairAt(h, "\\u") && SameLiteral(b, tail, c, next)
    ensures SameLiteral("\\u" + h + ("\\u" + l + b), tail, "\\u" + h + ("\\u" + l + c), next)
  {
    PairUnescapes(h, l, b);
    PairUnescapes(h, l, c);
    UnitWellEscaped(l, c);
    UnitWellEscaped(h, "\\u" + l + c);
  }

  lemma PairUnescapes(h: string, l: string, r: string)
    requires |h| == 4 && |l| == 4 && PairAt(h, "\\u")
    ensures Unescape("\\u" + h + ("\\u" + l + r)) ==
      (PairBytes(ParseHex4(h), ParseHex4(l)) + Unescape(r).0, Unescape(r).1)
  {
    var second := "\\u" + l + r;
    SecondAt(l, r);
    UnitAt(h, second);
    RegroupUnit(h, second);
  }

  lemma SecondAt(l: string, r: string)
    requires |l| == 4
    ensures var second := "\\u" + l + r;
      Peek(second) == '\\' && Peek(second, 1) == 'u' && Advance(second, 6) == r &&
      ParseHex4(Advance(second, 2)) == ParseHex4(l)
  {
    assert Advance("\\u" + l + r, 2) == l + r;
    ParseHex4Prefix(l, r);
  }

  // Copying a literal keeps what it is read as, whatever follows it then; a literal that the text
  // ends must stay at the end.
  lemma {:induction false} LiteralKept(b: string, next: string)
    requires WellEscaped(b) && (CopyLiteral(b).1 == "" ==> next == "")
    ensures SameLiteral(b, CopyLiteral(b).1, CopyLiteral(b).0 + next, next)
    decreases |b|
  {
    var (out, tail) := CopyLiteral(b);
    if b == "" {
      assert out + next == "";
    } else if b[0] == '\"' {
      assert (out + next)[1..] == next;
    } else if b[0] != '\\' {
      Cut(b, 1);
      LiteralKept(b[1..], next);
      Associative(b[..1], CopyLiteral(b[1..]).0, next);
      PlainKept(b[..1], b[1..], tail, CopyLiteral(b[1..]).0 + next, next);
    } else if b[1] != 'u' {
      Cut(b, 2);
      LiteralKept(b[2..], next);
      Associative(b[..2], CopyLiteral(b[2..]).0, next);
      ShortKept(b[..2], b[2..], tail, CopyLiteral(b[2..]).0 + next, next);
    } else {
      EscapeKept(b, next);
    }
  }

  lemma Cut(b: string, n: nat)
    requires n <= |b|
    ensures b == b[..n] + b[n..]
  {
  }

  // The \u escape at `b` is copied as it is.
  lemma CopyUnitAt(b: string)
    requires IsUnit(b)
    ensures b == "\\u" + b[2..6] + b[6..] && IsUnit("\\u" + b[2..6])
    ensures CopyLiteral(b) == ("\\u" + b[2..6] + CopyLiteral(b[6..]).0, CopyLiteral(b[6..]).1)
  {
    assert b == "\\u" + b[2..6] + b[6..];
    CopyHex(b[2..6], b[6..]);
  }

  lemma {:induction false} EscapeKept(b: string, next: string)
    requires IsUnit(b) && WellEscaped(b[6..]) && (CopyLiteral(b).1 == "" ==> next == "")
    ensures SameLiteral(b, CopyLiteral(b).1, CopyLiteral(b).0 + next, next)
    decreases |b|, 0
  {
    var h, r := b[2..6], b[6..];
    var tail := CopyLiteral(b).1;
    CopyUnitAt(b);
    if PairAt(h, r) {
      var l, s := r[2..6], r[6..];
      CopyUnitAt(r);
      LiteralKept(s, next);
      var c := CopyLiteral(s).0 + next;
      PairKept(h, l, s, tail, c, next);
      Associative("\\u" + l, CopyLiteral(s).0, next);
      Associative("\\u" + h, "\\u" + l + CopyLiteral(s).0, next);
    } else {
      LiteralKept(r, next);
      UnitKept(h, r, tail, CopyLiteral(r).0 + next, next);
      Associative("\\u" + h, CopyLiteral(r).0, next);
    }
  }

  // ---------- trees ----------

  lemma StringKept(p: string)
    requires AllEscaped(p) && Peek(p) == '\"'
    ensures ParseString(p).Read? && ParseString(Minify(p)) == Read(ParseString(p).value, Minify(ParseString(p).rest))
  {
    var b := p[1..];
    var (out, tail) := CopyLiteral(b);
    var c := out + Minify(tail);
    LiteralInText(b);
    LiteralKept(b, Minify(tail));
    QuotedParses(b);
    QuotedParses(c);
    assert p == "\"" + b;
    Associative("\"", out, Minify(tail));
    MinifyQuoted(p);
  }

  lemma QuotedParses(b: string)
    requires WellEscaped(b)
    ensures ParseString("\"" + b) == Read(Unescape(b).0, AfterQuote(Unescape(b).1))
  {
    StaysInside(b);
    assert ("\"" + b)[1..] == b;
  }

  lemma MinifyQuoted(p: string)
    requires Peek(p) == '\"'
    ensures Minify(p) == "\"" + CopyLiteral(p[1..]).0 + Minify(CopyLiteral(p[1..]).1)
  {
  }

  lemma WordKept(word: string, p: string)
    requires word <= p && forall i :: 0 <= i < |word| ==> IsPlain(word[i])
    ensures Minify(p) == word + Minify(p[|word|..])
  {
    assert p == word + p[|word|..];
    MinifyPlain(word, p[|word|..]);
  }

  // The value is a number, and what comes after it goes on it once white space is gone.
  predicate Joins(p: string) {
    var r := ParseValue(p);
    r.Read? && r.value.Number? && |r.rest| <= |p| && GoesOn(p[..|p| - |r.rest|], Minify(r.rest))
  }

  lemma StopsApart(p: string)
    requires ParseValue(p).Read? && Stops(Minify(ParseValue(p).rest))
    ensures !Joins(p)
  {
  }

  // A value is kept, unless it is a number that what comes next goes on: then it is not.
  lemma {:induction false} ValueKept(p: string)
    requires AllEscaped(p) && ParseValue(p).Read?
    ensures ParseValue(Minify(p)) == Read(ParseValue(p).value, Minify(ParseValue(p).rest)) <==> !Joins(p)
    ensures Starts(p)
    decreases |p|, 1
  {
    if Peek(p) == '\"' {
      StringKept(p);
      MinifyFirst(p);
    } else if Peek(p) == '[' {
      ArrayKept(p);
    } else if Peek(p) == '{' {
      ObjectKept(p);
    } else if "null" <= p || "true" <= p || "false" <= p {
      WordValueKept(p);
    } else {
      NumberValueKept(p);
    }
  }

  lemma WordValueKept(p: string)
    requires "null" <= p || "true" <= p || "false" <= p
    ensures ParseValue(p).Read? && ParseValue(Minify(p)) == Read(ParseValue(p).value, Minify(ParseValue(p).rest))
  {
    WordKept(if "null" <= p then "null" else if "true" <= p then "true" else "false", p);
  }

  lemma NumberValueKept(p: string)
    requires Peek(p) == '-' || IsDigit(Peek(p))
    ensures ParseValue(p) == Read(Number(ParseNumber(p).0), ParseNumber(p).1)
    ensures ParseValue(Minify(p)) == Read(Number(ParseNumber(p).0), Minify(ParseNumber(p).1)) <==> !Joins(p)
  {
    var (d, rest) := ParseNumber(p);
    var next := Minify(rest);
    var number := NumberKept(p, next);
    Front(number, rest);
    MinifyNumber(number, rest);
    ParseNumberValue(p);
    ParseNumberValue(number + next);
  }

  lemma Front(a: string, b: string)
    ensures |a + b| - |b| == |a| && (a + b)[..|a|] == a
  {
  }

  lemma MinifyNumber(a: string, rest: string)
    requires NumberChars(a)
    ensures Minify(a + rest) == a + Minify(rest) && (Closed(rest) ==> Closed(a + rest))
  {
    MinifyPlain(a, rest);
  }

  lemma {:induction false} ArrayKept(p: string)
    requires AllEscaped(p) && Peek(p) == '[' && ParseArray(p).Read?
    ensures ParseValue(Minify(p)) == Read(ParseArray(p).value, Minify(ParseArray(p).rest))
    decreases |p|, 0
  {
    var q := Skip(p[1..]);
    MinifyFirst(p);
    SkipSafe(p[1..]);
    if Peek(q) == ']' {
      SeparatorKept(p[1..]);
    } else {
      ItemsKept(q);
      SkipTwice(p[1..]);
      SkipMinify(p[1..]);
      MinifyFirst(q);
    }
  }

  // The first element, its separator or bracket, and what follows.
  lemma {:induction false} FirstKept(p: string)
    requires AllEscaped(p) && ParseItems(p).Read?
    ensures Starts(Skip(p)) && ParseValue(Skip(p)).Read?
    ensures var (v, rest) := (ParseValue(Skip(p)).value, ParseValue(Skip(p)).rest);
      ParseValue(Skip(Minify(p))) == Read(v, Minify(rest)) && AllEscaped(Skip(rest)) &&
      Peek(Skip(rest)) in {',', ']'} && Peek(Skip(Minify(rest))) == Peek(Skip(rest)) &&
      Skip(Minify(rest))[1..] == Minify(Skip(rest)[1..])
    decreases |p|, 2
  {
    var rest := ParseValue(Skip(p)).rest;
    SkipSafe(p);
    ParseValueSafe(Skip(p));
    SkipSafe(rest);
    SeparatorKept(rest);
    StopsApart(Skip(p));
    ValueKept(Skip(p));
    SkipMinify(p);
  }

  lemma {:induction false} ItemsKept(p: string)
    requires AllEscaped(p) && ParseItems(p).Read?
    ensures ParseItems(Minify(p)) == Read(ParseItems(p).value, Minify(ParseItems(p).rest))
    ensures Starts(Skip(p)) && Peek(Skip(p)) != ']'
    decreases |p|, 3
  {
    FirstKept(p);
    var (v, rest) := (ParseValue(Skip(p)).value, ParseValue(Skip(p)).rest);
    var q := Skip(rest);
    if Peek(q) == ',' {
      ItemsKept(q[1..]);
      ParseItemsComma(p, v, rest);
      ParseItemsComma(Minify(p), v, Minify(rest));
    } else {
      ParseItemsEnd(p, v, rest);
      ParseItemsEnd(Minify(p), v, Minify(rest));
    }
  }

  lemma ParseItemsEnd(p: string, v: Json, rest: string)
    requires ParseValue(Skip(p)) == Read(v, rest) && Peek(Skip(rest)) == ']'
    ensures ParseItems(p) == Read([v], Skip(rest)[1..])
  {
  }

  lemma {:induction false} ObjectKept(p: string)
    requires AllEscaped(p) && Peek(p) == '{' && ParseObject(p).Read?
    ensures ParseValue(Minify(p)) == Read(ParseObject(p).value, Minify(ParseObject(p).rest))
    decreases |p|, 0
  {
    var q := Skip(p[1..]);
    MinifyFirst(p);
    SkipSafe(p[1..]);
    if Peek(q) == '}' {
      SeparatorKept(p[1..]);
    } else {
      MembersKept(q);
      SkipTwice(p[1..]);
      SkipMinify(p[1..]);
      MinifyFirst(q);
      ParseFullObject(Minify(p[1..]), ParseMembers(q).value, Minify(ParseMembers(q).rest));
    }
  }

  lemma {:induction false} MemberKept(p: string)
    requires AllEscaped(p) && ParseMember(p).Read? && Stops(Minify(ParseMember(p).rest))
    ensures ParseMember(Minify(p)) == Read(ParseMember(p).value, Minify(ParseMember(p).rest))
    ensures Peek(Skip(p)) == '\"'
    decreases |p|, 2
  {
    var name := ParseString(Skip(p));
    SkipSafe(p);
    ParseStringSafe(Skip(p));
    StringKept(Skip(p));
    SkipMinify(p);
    SeparatorKept(name.rest);
    SkipSafe(name.rest);
    var q := Skip(name.rest)[1..];
    SkipSafe(q);
    StopsApart(Skip(q));
    ValueKept(Skip(q));
    SkipMinify(q);
  }

  lemma {:induction false} MembersKept(p: string)
    requires AllEscaped(p) && ParseMembers(p).Read?
    ensures ParseMembers(Minify(p)) == Read(ParseMembers(p).value, Minify(ParseMembers(p).rest))
    ensures Peek(Skip(p)) == '\"'
    decreases |p|, 3
  {
    var rest := ParseMember(p).rest;
    ParseMemberSafe(p);
    SkipSafe(rest);
    SeparatorKept(rest);
    MemberKept(p);
    var q := Skip(rest);
    if Peek(q) == ',' { MembersKept(q[1..]); }
  }

  // A text that is accepted to its end gives the same tree once it is minified.
  lemma MinifyKeepsMeaning(text: string)
    requires AllEscaped(text) && Closed(text) && Parse(text, true).Read?
    ensures Parse(Minify(text), true) == Parse(text, true)
  {
    var p := Skip(text);
    SkipSafe(text);
    SkipMinifyAll(ParseValue(p).rest);
    StopsApart(p);
    ValueKept(p);
    SkipMinify(text);
  }

  // A text whose end is not required is read as the same tree once it is minified, and up to the
  // same place, if and only if it does not start with a number that what comes next goes on.
  lemma MinifyKeepsStart(text: string)
    requires AllEscaped(text) && Closed(text) && Parse(text, false).Read?
    ensures Parse(Minify(text), false) == Read(Parse(text, false).value, Minify(Parse(text, false).rest)) <==>
      !Joins(Skip(text))
  {
    SkipSafe(text);
    ValueKept(Skip(text));
    SkipMinify(text);
  }

  // "1 2" is read as 1, and minified as 12; "0 0" is read as 0 either way.
  lemma SpaceEndsNumber()
    ensures Parse("1 2", false) == Read(Number(1.0), " 2")
    ensures Minify("1 2") == "12" && Parse("12", false) == Read(Number(12.0), "")
    ensures Parse("0 0", false) == Read(Number(0.0), " 0")
    ensures Minify("0 0") == "00" && Parse("00", false) == Read(Number(0.0), "0")
  {
    assert Minify("1 2") == "1" + Minify(" 2") && Minify("0 0") == "0" + Minify(" 0");
  }
}
