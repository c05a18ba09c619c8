/** String literals as the parser's two passes read them: which texts keep both passes inside the
    text and the buffer, and what happens on others. */
module CJsonLiterals {
  import opened CString
  import opened CJsonText

  // The body of a literal after its opening quote, as section 7 of RFC 8259 has it: it ends at an
  // unescaped quote and every \u is followed by four hexadecimal digits.
  predicate LiteralBody(p: string)
    decreases |p|
  {
    p != "" &&
    if p[0] == '\"' then true
    else if p[0] != '\\' then LiteralBody(p[1..])
    else
      |p| >= 2 &&
      if p[1] == 'u' then IsHexEscape(p) && LiteralBody(p[6..]) else LiteralBody(p[2..])
  }

  predicate IsHexEscape(p: string) {
    |p| >= 6 && p[0] == '\\' && p[1] == 'u' && forall i :: 2 <= i < 6 ==> IsHex(p[i])
  }

  // A \u and four more bytes, none of which the first pass stops or steps over at.
  predicate IsUnit(p: string) {
    |p| >= 6 && p[0] == '\\' && p[1] == 'u' && forall i :: 2 <= i < 6 ==> p[i] != '\"' && p[i] != '\\'
  }

  // Up to the closing quote or the end of the text, no escape is cut short.
  predicate WellEscaped(p: string)
    decreases |p|
  {
    p == "" || p[0] == '\"' ||
    if p[0] != '\\' then WellEscaped(p[1..])
    else |p| >= 2 && if p[1] == 'u' then IsUnit(p) && WellEscaped(p[6..]) else WellEscaped(p[2..])
  }

  lemma MeasurePlain(p: string)
    requires p != "" && p[0] != '\"' && p[0] != '\\'
    ensures Measure(p) == (Measure(p[1..]).0 + 1, Measure(p[1..]).1)
    ensures MeasureInside(p) == MeasureInside(p[1..])
  {
  }

  lemma {:induction false} MeasureRun(p: string, k: nat)
    requires k <= |p| && forall i :: 0 <= i < k ==> p[i] != '\"' && p[i] != '\\'
    ensures Measure(p) == (Measure(p[k..]).0 + k, Measure(p[k..]).1)
    ensures MeasureInside(p) == MeasureInside(p[k..])
  {
    if k > 0 {
      MeasurePlain(p);
      MeasureRun(p[1..], k - 1);
      assert p[1..][k - 1..] == p[k..];
    } else {
      assert p[0..] == p;
    }
  }

  lemma MeasureUnit(p: string)
    requires IsUnit(p)
    ensures Measure(p) == (Measure(p[6..]).0 + 5, Measure(p[6..]).1)
    ensures MeasureInside(p) == MeasureInside(p[6..])
  {
    MeasureRun(p[2..], 4);
    assert p[2..][4..] == p[6..];
  }

  // One \u escape, or a surrogate pair of them: what is left and what is written.
  lemma UnescapeUnit(p: string)
    requires IsUnit(p) && WellEscaped(p[6..])
    ensures EscapeInside(p[1..])
    ensures var (bytes, at) := UnescapeOne(p[1..]);
      if ReadsPair(p[1..]) then IsUnit(p[6..]) && Advance(at, 1) == p[12..] && |bytes| <= 4
      else Advance(at, 1) == p[6..] && |bytes| <= 3
  {
    var q := p[1..];
    assert UnescapeOne(q) == UnescapeUnicode(q);
    var ptr := Advance(q, 4);
    assert ptr == p[5..] && Advance(ptr, 1) == p[6..];
    if Peek(ptr, 1) == '\\' && Peek(ptr, 2) == 'u' {
      assert p[6..][0] == '\\' && p[6..][1] == 'u';
      assert Advance(ptr, 6) == p[11..] && Advance(p[11..], 1) == p[12..];
    }
  }

  // Where no escape is cut short, both passes stay inside and stop at the same place.
  lemma {:induction false} StaysInside(p: string)
    requires WellEscaped(p)
    ensures Inside(p) && Unescape(p).1 == Measure(p).1
    decreases |p|
  {
    if p == "" || p[0] == '\"' {
    } else if p[0] != '\\' {
      StaysInside(p[1..]);
    } else if p[1] != 'u' {
      StaysInside(p[2..]);
      assert UnescapeOne(p[1..]).1 == p[1..] && Advance(p[1..], 1) == p[2..];
    } else {
      UnitStaysInside(p);
    }
  }

  lemma {:induction false} UnitStaysInside(p: string)
    requires IsUnit(p) && WellEscaped(p[6..])
    ensures Inside(p) && Unescape(p).1 == Measure(p).1
    decreases |p|, 0
  {
    UnescapeUnit(p);
    MeasureUnit(p);
    StaysInside(p[6..]);
    if ReadsPair(p[1..]) {
      MeasureUnit(p[6..]);
      assert p[6..][6..] == p[12..];
      StaysInside(p[12..]);
    }
  }

  lemma {:induction false} LiteralIsWellEscaped(p: string)
    requires LiteralBody(p)
    ensures WellEscaped(p) && Peek(Measure(p).1) == '\"'
    decreases |p|
  {
    if p[0] == '\"' {
    } else if p[0] != '\\' {
      LiteralIsWellEscaped(p[1..]);
    } else if p[1] != 'u' {
      LiteralIsWellEscaped(p[2..]);
    } else {
      LiteralIsWellEscaped(p[6..]);
      MeasureUnit(p);
    }
  }

  // On a literal, the second pass stops at the closing quote the first pass stopped at, and what it
  // writes fits in what the first pass counted.
  lemma PassesAgree(p: string)
    requires LiteralBody(p)
    ensures Inside(p)
    ensures Unescape(p).1 == Measure(p).1 && Peek(Measure(p).1) == '\"'
    ensures |Unescape(p).0| <= Measure(p).0
  {
    LiteralIsWellEscaped(p);
    StaysInside(p);
  }

  lemma CountsTwo(p: string)
    requires p == "\\u1\"AAAAA\""
    ensures MeasureInside(p) && Measure(p).0 == 2
  {
    assert p[2..] == "1\"AAAAA\"";
    MeasurePlain(p[2..]);
    assert p[2..][1..] == "\"AAAAA\"";
  }

  lemma UnescapePlain(c: char, p: string)
    requires c != '\"' && c != '\\'
    ensures Unescape([c] + p) == ([c] + Unescape(p).0, Unescape(p).1)
    ensures UnescapeInside([c] + p) == UnescapeInside(p)
  {
    assert ([c] + p)[1..] == p;
  }

  lemma WritesThree(p: string)
    requires p == "\\u1\"AAAAA\""
    ensures UnescapeInside(p) && Unescape(p) == ("AAA", "\"")
  {
    var q := p[1..];
    assert Advance(q, 1) == "1\"AAAAA\"" && !IsHex('\"');
    assert ParseHex4(Advance(q, 1)) == 0;
    assert UnescapeOne(q) == UnescapeUnicode(q) == ("", q[4..]) && Advance(q[4..], 1) == p[6..];
    assert p[6..] == "A" + ("A" + ("A" + "\"")) && Unescape("\"") == ("", "\"") && UnescapeInside("\"");
    UnescapePlain('A', "\"");
    UnescapePlain('A', "A" + "\"");
    UnescapePlain('A', "A" + ("A" + "\""));
    assert "" + ("A" + ("A" + ("A" + ""))) == "AAA";
    assert |q| >= 5 && !ReadsPair(q);
  }

  // A quote among the four bytes after \u ends the first pass but not the second: two bytes are
  // counted, and three and a terminator are written.
  lemma QuoteInEscapeOverruns()
    ensures var p := "\\u1\"AAAAA\"";
      MeasureInside(p) && UnescapeInside(p) && Measure(p).0 == 2 && Unescape(p) == ("AAA", "\"") && ParseString("\"" + p) == Overrun
  {
    var p := "\\u1\"AAAAA\"";
    CountsTwo(p);
    WritesThree(p);
    assert ("\"" + p)[1..] == p;
  }

  // ---------- printed literals ----------

  // The letter that stands for `c` after a backslash, if there is one.
  function ShortEscape(c: char): char {
    if c == BACKSPACE then 'b'
    else if c == FORM_FEED then 'f'
    else if c == '\n' then 'n'
    else if c == '\r' then 'r'
    else if c == '\t' then 't'
    else c
  }

  // print_string_ptr only writes well-formed literals.
  lemma {:induction false} EscapeIsLiteral(s: string, rest: string)
    requires NulFree(s)
    ensures LiteralBody(Escape(s) + "\"" + rest)
  {
    var p := Escape(s) + "\"" + rest;
    if s != "" {
      EscapeIsLiteral(s[1..], rest);
      EscapedCharIsLiteral(s[0], Escape(s[1..]) + "\"" + rest);
      assert p == EscapeChar(s[0]) + (Escape(s[1..]) + "\"" + rest);
    }
  }

  lemma EscapedCharIsLiteral(c: char, tail: string)
    requires c != '\0' && LiteralBody(tail)
    ensures LiteralBody(EscapeChar(c) + tail)
  {
    var p := EscapeChar(c) + tail;
    if !NeedsEscape(c) {
      assert p[1..] == tail;
    } else if c == '\\' || c == '\"' || ShortEscape(c) != c {
      assert p[2..] == tail;
    } else {
      assert p[6..] == tail;
    }
  }

  // ---------- whole texts ----------

  // No backslash of the text starts an escape that is cut short, be it by the end of the text or,
  // after \u, by a quote or another backslash.
  predicate AllEscaped(p: string)
    decreases |p|
  {
    p == "" ||
    if p[0] != '\\' then AllEscaped(p[1..])
    else |p| >= 2 && if p[1] == 'u' then IsUnit(p) && AllEscaped(p[6..]) else AllEscaped(p[2..])
  }

  lemma {:induction false} LiteralInText(p: string)
    requires AllEscaped(p)
    ensures WellEscaped(p) && AllEscaped(Measure(p).1)
    decreases |p|
  {
    if p == "" || p[0] == '\"' {
    } else if p[0] != '\\' {
      LiteralInText(p[1..]);
    } else if p[1] != 'u' {
      LiteralInText(p[2..]);
    } else {
      LiteralInText(p[6..]);
      MeasureUnit(p);
    }
  }

  // The parser stays inside, and all escapes after where it stops are whole.
  predicate Safe<T>(r: Parsed<T>) {
    r.Failed? || (r.Read? && AllEscaped(r.rest))
  }

  lemma ParseStringSafe(p: string)
    requires AllEscaped(p)
    ensures Safe(ParseString(p))
  {
    if Peek(p) == '\"' {
      LiteralInText(p[1..]);
      StaysInside(p[1..]);
    }
  }

  lemma {:induction false} SkipSafe(p: string)
    requires AllEscaped(p)
    ensures AllEscaped(Skip(p))
  {
    if p != "" && '\0' < p[0] <= ' ' { SkipSafe(p[1..]); }
  }

  lemma {:induction false} ParseDigitsSafe(p: string, n: real)
    requires AllEscaped(p)
    ensures AllEscaped(ParseDigits(p, n).2)
  {
    if p != "" && IsDigit(p[0]) { ParseDigitsSafe(p[1..], n * 10.0 + (p[0] as int - '0' as int) as real); }
  }

  lemma {:induction false} ParseIntSafe(p: string, n: int)
    requires AllEscaped(p)
    ensures AllEscaped(ParseInt(p, n).1)
  {
    if p != "" && IsDigit(p[0]) { ParseIntSafe(p[1..], n * 10 + (p[0] as int - '0' as int)); }
  }

  lemma ParseExponentSafe(p: string)
    requires AllEscaped(p)
    ensures AllEscaped(ParseExponent(p).1)
  {
    if Peek(p) == 'e' || Peek(p) == 'E' {
      var q := Advance(p, 1);
      ParseIntSafe(if Peek(q) == '+' || Peek(q) == '-' then Advance(q, 1) else q, 0);
    }
  }

  lemma ParseNumberSafe(p: string)
    requires AllEscaped(p)
    ensures AllEscaped(ParseNumber(p).1)
  {
    var p0 := if Peek(p) == '-' then Advance(p, 1) else p;
    var q := if Peek(p0) == '0' then Advance(p0, 1) else p0;
    ParseDigitsSafe(q, 0.0);
    var (whole, p1) := ParseWhole(p0);
    if Peek(p1) == '.' && IsDigit(Peek(p1, 1)) { ParseDigitsSafe(Advance(p1, 1), whole); }
    ParseExponentSafe(ParseFraction(p1, whole).2);
  }

  lemma {:induction false} PlainPrefixSafe(p: string, k: nat)
    requires AllEscaped(p) && k <= |p| && forall i :: 0 <= i < k ==> p[i] != '\\'
    ensures AllEscaped(p[k..])
  {
    if k > 0 {
      PlainPrefixSafe(p[1..], k - 1);
      assert p[1..][k - 1..] == p[k..];
    } else {
      assert p[0..] == p;
    }
  }

  lemma {:induction false} ParseValueSafe(p: string)
    requires AllEscaped(p)
    ensures Safe(ParseValue(p))
    decreases |p|, 1
  {
    if "null" <= p || "true" <= p {
      PlainPrefixSafe(p, 4);
    } else if "false" <= p {
      PlainPrefixSafe(p, 5);
    } else if Peek(p) == '\"' {
      ParseStringSafe(p);
    } else if Peek(p) == '-' || IsDigit(Peek(p)) {
      ParseNumberSafe(p);
    } else if Peek(p) == '[' {
      SkipSafe(p[1..]);
      if Peek(Skip(p[1..])) != ']' { ParseItemsSafe(Skip(p[1..])); }
    } else if Peek(p) == '{' {
      SkipSafe(p[1..]);
      if Peek(Skip(p[1..])) != '}' { ParseMembersSafe(Skip(p[1..])); }
    }
  }

  lemma {:induction false} ParseItemsSafe(p: string)
    requires AllEscaped(p)
    ensures Safe(ParseItems(p))
    decreases |p|, 2
  {
    SkipSafe(p);
    ParseValueSafe(Skip(p));
    var first := ParseValue(Skip(p));
    if first.Read? {
      SkipSafe(first.rest);
      var q := Skip(first.rest);
      if Peek(q) == ',' { ParseItemsSafe(q[1..]); }
    }
  }

  lemma {:induction false} ParseMemberSafe(p: string)
    requires AllEscaped(p)
    ensures Safe(ParseMember(p))
    decreases |p|, 2
  {
    SkipSafe(p);
    ParseStringSafe(Skip(p));
    var name := ParseString(Skip(p));
    if name.Read? {
      SkipSafe(name.rest);
      var q := Skip(name.rest);
      if Peek(q) == ':' {
        SkipSafe(q[1..]);
        ParseValueSafe(Skip(q[1..]));
      }
    }
  }

  lemma {:induction false} ParseMembersSafe(p: string)
    requires AllEscaped(p)
    ensures Safe(ParseMembers(p))
    decreases |p|, 3
  {
    ParseMemberSafe(p);
    var first := ParseMember(p);
    if first.Read? {
      SkipSafe(first.rest);
      var q := Skip(first.rest);
      if Peek(q) == ',' { ParseMembersSafe(q[1..]); }
    }
  }

  // A text whose escapes are whole never makes the parser leave it or a string's buffer.
  lemma ParseInside(text: string, requireEnd: bool)
    requires AllEscaped(text)
    ensures Parse(text, requireEnd) != Overrun
  {
    SkipSafe(text);
    ParseValueSafe(Skip(text));
  }
}
