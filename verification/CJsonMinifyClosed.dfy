/** Which accepted texts cJSON_Minify stays inside of: all but those that end in a literal. */
module CJsonMinifyClosed {
  import opened CString
  import opened CJsonText
  import opened CJsonLiterals
  import opened CJsonRoundTrip
  import opened CJsonNumbers
  import opened CJsonMinify
  import opened CJsonMinifyMeaning

  lemma {:induction false} SkipClosed(p: string)
    ensures Closed(p) == Closed(Skip(p))
  {
    if p != "" && '\0' < p[0] <= ' ' { SkipClosed(p[1..]); }
  }

  lemma SeparatorClosed(p: string)
    requires Peek(Skip(p)) in {',', ':', ']', '}'}
    ensures Closed(p) == Closed(Skip(p)[1..])
  {
    SkipClosed(p);
  }

  // A literal is closed if the parser's first pass stops at its quote and not at the end of the text.
  lemma {:induction false} LiteralClosed(b: string)
    requires MeasureInside(b)
    ensures ClosedLiteral(b) <==> Measure(b).1 != ""
    decreases |b|
  {
    if b != "" && b[0] != '\"' { LiteralClosed(b[if b[0] == '\\' then 2 else 1..]); }
  }

  lemma StringClosed(p: string)
    requires AllEscaped(p) && Peek(p) == '\"'
    ensures ParseString(p).Read?
    ensures Closed(p) <==> Measure(p[1..]).1 != "" && Closed(ParseString(p).rest)
    ensures Measure(p[1..]).1 == "" ==> ParseString(p).rest == ""
  {
    var b := p[1..];
    LiteralInText(b);
    StaysInside(b);
    LiteralClosed(b);
    LiteralKept(b, Minify(CopyLiteral(b).1));
  }

  lemma PlainClosed(a: string, p: string)
    requires a <= p && (forall i :: 0 <= i < |a| ==> IsPlain(a[i])) && Closed(p[|a|..])
    ensures Closed(p)
  {
    assert p == a + p[|a|..];
    MinifyPlain(a, p[|a|..]);
  }

  // The text is a string that is not closed.
  predicate EndsInLiteral(p: string) {
    Peek(p) == '\"' && Measure(p[1..]).1 == ""
  }

  lemma {:induction false} ValueClosed(p: string)
    requires AllEscaped(p) && ParseValue(p).Read? && Closed(ParseValue(p).rest)
    ensures Closed(p) <==> !EndsInLiteral(p)
    decreases |p|, 1
  {
    if Peek(p) == '\"' {
      StringClosed(p);
    } else if Peek(p) == '[' || Peek(p) == '{' {
      BracketClosed(p);
    } else if "null" <= p || "true" <= p || "false" <= p {
      WordClosed(p);
    } else {
      NumberClosed(p);
    }
  }

  lemma WordClosed(p: string)
    requires ("null" <= p || "true" <= p || "false" <= p) && Closed(ParseValue(p).rest)
    ensures Closed(p)
  {
    PlainClosed(if "null" <= p then "null" else if "true" <= p then "true" else "false", p);
  }

  lemma NumberClosed(p: string)
    requires (Peek(p) == '-' || IsDigit(Peek(p))) && Closed(ParseNumber(p).1)
    ensures Closed(p)
  {
    var number := NumberKept(p, "");
    MinifyNumber(number, ParseNumber(p).1);
  }

  lemma {:induction false} BracketClosed(p: string)
    requires AllEscaped(p) && Peek(p) in {'[', '{'} && ParseValue(p).Read? && Closed(ParseValue(p).rest)
    ensures Closed(p)
    decreases |p|, 0
  {
    var q := Skip(p[1..]);
    SkipSafe(p[1..]);
    SkipClosed(p[1..]);
    if p[0] == '[' {
      if Peek(q) != ']' { ItemsClosed(q); }
    } else if Peek(q) != '}' {
      MembersClosed(q);
    }
  }

  // A value with something behind it does not end in a literal.
  lemma {:induction false} InnerClosed(p: string)
    requires AllEscaped(p) && ParseValue(p).Read? && ParseValue(p).rest != "" && Closed(ParseValue(p).rest)
    ensures Closed(p)
    decreases |p|, 2
  {
    ValueClosed(p);
    if Peek(p) == '\"' { StringClosed(p); }
  }

  lemma {:induction false} ItemsClosed(p: string)
    requires AllEscaped(p) && ParseItems(p).Read? && Closed(ParseItems(p).rest)
    ensures Closed(p)
    decreases |p|, 3
  {
    var rest := ParseValue(Skip(p)).rest;
    var q := Skip(rest);
    SkipSafe(p);
    ParseValueSafe(Skip(p));
    SkipSafe(rest);
    if Peek(q) == ',' { ItemsClosed(q[1..]); }
    SeparatorClosed(rest);
    InnerClosed(Skip(p));
    SkipClosed(p);
  }

  lemma {:induction false} MemberClosed(p: string)
    requires AllEscaped(p) && ParseMember(p).Read? && ParseMember(p).rest != "" && Closed(ParseMember(p).rest)
    ensures Closed(p)
    decreases |p|, 3
  {
    var name := ParseString(Skip(p));
    SkipSafe(p);
    ParseStringSafe(Skip(p));
    SkipSafe(name.rest);
    var q := Skip(name.rest)[1..];
    SkipSafe(q);
    InnerClosed(Skip(q));
    SkipClosed(q);
    SeparatorClosed(name.rest);
    StringClosed(Skip(p));
    SkipClosed(p);
  }

  lemma {:induction false} MembersClosed(p: string)
    requires AllEscaped(p) && ParseMembers(p).Read? && Closed(ParseMembers(p).rest)
    ensures Closed(p)
    decreases |p|, 4
  {
    var rest := ParseMember(p).rest;
    var q := Skip(rest);
    ParseMemberSafe(p);
    SkipSafe(rest);
    if Peek(q) == ',' { MembersClosed(q[1..]); }
    SeparatorClosed(rest);
    MemberClosed(p);
  }

  // A text that is accepted to its end is closed if and only if it is not a string without its
  // closing quote: on such a string, and on no other, cJSON_Minify reads past the terminator.
  lemma AcceptedClosedIff(text: string)
    requires AllEscaped(text) && Parse(text, true).Read?
    ensures Closed(text) <==> !EndsInLiteral(Skip(text))
  {
    var p := Skip(text);
    SkipSafe(text);
    SkipClosed(ParseValue(p).rest);
    ValueClosed(p);
    SkipClosed(text);
  }

  // The parser takes the end of the text for the end of the string "ab without its closing quote.
  lemma UnclosedAccepted()
    ensures AllEscaped("\"ab") && Parse("\"ab", true) == Read(Text("ab"), "") && !Closed("\"ab")
  {
    var p := "\"ab";
    assert p[1..] == "ab" && "ab"[1..] == "b" && "b"[1..] == "" && "ab" == "a" + "b" && "b" == "b" + "";
    UnescapePlain('a', "b");
    UnescapePlain('b', "");
    assert Unescape("") == ("", "") && "b" + "" == "b";
    LiteralInText("ab");
    StaysInside("ab");
    LiteralClosed("ab");
  }
}
