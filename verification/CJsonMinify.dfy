/** cJSON_Minify, in place. On a formatted print it leaves the unformatted print. */
module CJsonMinify {
  import opened Sequences
  import opened CString
  import opened CJsonText
  import opened CJsonLiterals
  import opened CJsonNumbers
  import opened CJsonRoundTrip

  predicate IsBlank(c: char) {
    c == ' ' || c == '\t' || c == '\r' || c == '\n'
  }

  // Up to the end of the line.
  function SkipLine(p: string): (r: string)
    ensures |r| <= |p|
  {
    if p != "" && p[0] != '\n' then SkipLine(p[1..]) else p
  }

  // Up to the end of a multiline comment.
  function SkipComment(p: string): (r: string)
    ensures |r| <= |p|
  {
    if p != "" && !(p[0] == '*' && Peek(p, 1) == '/') then SkipComment(p[1..]) else p
  }

  // The rest of a literal after its opening quote: what is copied and what follows.
  function CopyLiteral(p: string): (r: (string, string))
    ensures |r.1| <= |p|
    decreases |p|
  {
    if p == "" then ("", "")
    else if p[0] == '\"' then ("\"", p[1..])
    else
      var n := if p[0] == '\\' then 2 else 1;
      var (out, rest) := CopyLiteral(Advance(p, n));
      (if n <= |p| then p[..n] + out else p + out, rest)
  }

  function Minify(p: string): string
    decreases |p|
  {
    if p == "" then ""
    else if IsBlank(p[0]) then Minify(p[1..])
    else if p[0] == '/' && Peek(p, 1) == '/' then Minify(SkipLine(p[1..]))
    else if p[0] == '/' && Peek(p, 1) == '*' then Minify(Advance(SkipComment(p[1..]), 2))
    else if p[0] == '\"' then
      var (out, rest) := CopyLiteral(p[1..]);
      "\"" + out + Minify(rest)
    else [p[0]] + Minify(p[1..])
  }

  // The literal is closed before the terminator.
  predicate ClosedLiteral(p: string)
    decreases |p|
  {
    p != "" && (p[0] == '\"' || (if p[0] == '\\' then |p| > 1 && ClosedLiteral(p[2..]) else ClosedLiteral(p[1..])))
  }

  // Every literal and every multiline comment is closed before the terminator, so that reading
  // stops at the terminator.
  predicate Closed(p: string)
    decreases |p|
  {
    if p == "" then true
    else if IsBlank(p[0]) then Closed(p[1..])
    else if p[0] == '/' && Peek(p, 1) == '/' then Closed(SkipLine(p[1..]))
    else if p[0] == '/' && Peek(p, 1) == '*' then
      SkipComment(p[1..]) != "" && Closed(Advance(SkipComment(p[1..]), 2))
    else if p[0] == '\"' then ClosedLiteral(p[1..]) && Closed(CopyLiteral(p[1..]).1)
    else Closed(p[1..])
  }

  // ---------- on printed text ----------

  predicate IsPlain(c: char) {
    !IsBlank(c) && c != '/' && c != '\"'
  }

  lemma {:induction false} MinifyPlain(a: string, rest: string)
    requires forall i :: 0 <= i < |a| ==> IsPlain(a[i])
    ensures Minify(a + rest) == a + Minify(rest) && (Closed(rest) ==> Closed(a + rest))
  {
    if a == "" {
      assert a + rest == rest;
    } else {
      MinifyPlain(a[1..], rest);
      assert (a + rest)[1..] == a[1..] + rest;
      Associative([a[0]], a[1..], Minify(rest));
      assert [a[0]] + a[1..] == a;
    }
  }

  lemma {:induction false} MinifyBlank(a: string, rest: string)
    requires forall i :: 0 <= i < |a| ==> IsBlank(a[i])
    ensures Minify(a + rest) == Minify(rest) && Closed(a + rest) == Closed(rest)
  {
    if a == "" {
      assert a + rest == rest;
    } else {
      MinifyBlank(a[1..], rest);
      assert (a + rest)[1..] == a[1..] + rest;
    }
  }

  // Whatever follows, `e` is copied from a literal as it is.
  ghost predicate Copied(e: string) {
    forall tail {:trigger CopyLiteral(e + tail)} :: CopyLiteral(e + tail) == (e + CopyLiteral(tail).0, CopyLiteral(tail).1)
      && ClosedLiteral(e + tail) == ClosedLiteral(tail)
  }

  lemma UnitCopied(e: string)
    requires (|e| == 1 && e[0] != '\\' && e[0] != '\"') || (|e| == 2 && e[0] == '\\')
    ensures Copied(e)
  {
    forall tail
      ensures CopyLiteral(e + tail) == (e + CopyLiteral(tail).0, CopyLiteral(tail).1)
      ensures ClosedLiteral(e + tail) == ClosedLiteral(tail)
    {
      CopyOne(e, tail);
    }
  }

  lemma HexCopied(hex: string)
    requires forall i :: 0 <= i < |hex| ==> hex[i] != '\\' && hex[i] != '\"'
    ensures Copied("\\u" + hex)
  {
    forall tail
      ensures CopyLiteral("\\u" + hex + tail) == ("\\u" + hex + CopyLiteral(tail).0, CopyLiteral(tail).1)
      ensures ClosedLiteral("\\u" + hex + tail) == ClosedLiteral(tail)
    {
      CopyHex(hex, tail);
    }
  }

  lemma EscapeCopied(c: char)
    requires c != '\0'
    ensures Copied(EscapeChar(c))
  {
    if !NeedsEscape(c) {
      UnitCopied([c]);
    } else if c == '\\' || c == '\"' || ShortEscape(c) != c {
      ShortEscaped(c);
      UnitCopied(['\\', ShortEscape(c)]);
    } else {
      HexPlain(c as nat);
      HexCopied(Hex4(c as nat));
    }
  }

  lemma ShortEscaped(c: char)
    requires NeedsEscape(c) && (c == '\\' || c == '\"' || ShortEscape(c) != c)
    ensures EscapeChar(c) == ['\\', ShortEscape(c)]
  {
  }

  // One plain character, or a backslash and the character after it.
  lemma CopyOne(e: string, tail: string)
    requires (|e| == 1 && e[0] != '\\' && e[0] != '\"') || (|e| == 2 && e[0] == '\\')
    ensures CopyLiteral(e + tail) == (e + CopyLiteral(tail).0, CopyLiteral(tail).1)
    ensures ClosedLiteral(e + tail) == ClosedLiteral(tail)
  {
    var p := e + tail;
    assert p[..|e|] == e && p[|e|..] == tail;
  }

  lemma {:induction false} CopyPlain(a: string, tail: string)
    requires forall i :: 0 <= i < |a| ==> a[i] != '\\' && a[i] != '\"'
    ensures CopyLiteral(a + tail) == (a + CopyLiteral(tail).0, CopyLiteral(tail).1)
    ensures ClosedLiteral(a + tail) == ClosedLiteral(tail)
  {
    if a == "" {
      assert a + tail == tail && a + CopyLiteral(tail).0 == CopyLiteral(tail).0;
    } else {
      CopyPlain(a[1..], tail);
      CopyOne([a[0]], a[1..] + tail);
      Associative([a[0]], a[1..], tail);
      Associative([a[0]], a[1..], CopyLiteral(tail).0);
      assert [a[0]] + a[1..] == a;
    }
  }

  lemma HexPlain(n: nat)
    requires n < 0x10000
    ensures forall i :: 0 <= i < 4 ==> Hex4(n)[i] != '\\' && Hex4(n)[i] != '\"'
  {
  }

  lemma CopyHex(hex: string, tail: string)
    requires forall i :: 0 <= i < |hex| ==> hex[i] != '\\' && hex[i] != '\"'
    ensures CopyLiteral("\\u" + hex + tail) == ("\\u" + hex + CopyLiteral(tail).0, CopyLiteral(tail).1)
    ensures ClosedLiteral("\\u" + hex + tail) == ClosedLiteral(tail)
  {
    CopyPlain(hex, tail);
    CopyOne("\\u", hex + tail);
    Associative("\\u", hex, tail);
    Associative("\\u", hex, CopyLiteral(tail).0);
  }

  lemma {:induction false} CopyEscape(s: string, rest: string)
    requires NulFree(s)
    ensures CopyLiteral(Escape(s) + ("\"" + rest)) == (Escape(s) + "\"", rest)
    ensures ClosedLiteral(Escape(s) + ("\"" + rest))
  {
    if s == "" {
      assert Escape(s) + ("\"" + rest) == "\"" + rest;
      assert ("\"" + rest)[1..] == rest && Escape(s) + "\"" == "\"";
    } else {
      CopyEscape(s[1..], rest);
      EscapeCopied(s[0]);
      Associative(EscapeChar(s[0]), Escape(s[1..]), "\"" + rest);
      Associative(EscapeChar(s[0]), Escape(s[1..]), "\"");
    }
  }

  lemma MinifyString(s: string, rest: string)
    requires NulFree(s)
    ensures Minify(StringText(s) + rest) == StringText(s) + Minify(rest)
    ensures Closed(rest) ==> Closed(StringText(s) + rest)
  {
    var p := StringText(s) + rest;
    assert p[1..] == Escape(s) + ("\"" + rest);
    CopyEscape(s, rest);
    assert "\"" + (Escape(s) + "\"") == StringText(s);
  }

  // The printed text of a tree loses its white space and nothing else, whatever follows it.
  lemma {:induction false} MinifyPrinted(v: Json, depth: nat, rest: string)
    requires Printable(v)
    ensures Minify(Print(v, depth, true) + rest) == Print(v, depth, false) + Minify(rest)
    ensures Closed(rest) ==> Closed(Print(v, depth, true) + rest)
    decreases v
  {
    match v
    case Null => MinifyPlain("null", rest);
    case False => MinifyPlain("false", rest);
    case True => MinifyPlain("true", rest);
    case Number(d) =>
      NumberTextChars(d);
      MinifyPlain(NumberText(d), rest);
    case Text(s) => MinifyString(s, rest);
    case Array(items) =>
      if items == [] {
        MinifyPlain("[]", rest);
      } else {
        MinifyItems(items, depth + 1, rest);
        MinifyPlain("[", PrintItems(items, depth + 1, true) + rest);
        Associative("[", PrintItems(items, depth + 1, true), rest);
        Associative("[", PrintItems(items, depth + 1, false), Minify(rest));
      }
    case Object(members) =>
      MinifyObject(members, depth, rest);
  }

  lemma {:induction false} MinifyItems(items: seq<Json>, depth: nat, rest: string)
    requires PrintableItems(items)
    ensures Minify(PrintItems(items, depth, true) + rest) == PrintItems(items, depth, false) + Minify(rest)
    ensures Closed(rest) ==> Closed(PrintItems(items, depth, true) + rest)
    decreases items
  {
    if items == [] {
      MinifyPlain("]", rest);
    } else {
      var more, more' := PrintItems(items[1..], depth, true), PrintItems(items[1..], depth, false);
      var sep, sep' := ItemSeparator(|items| > 1, true), ItemSeparator(|items| > 1, false);
      MinifyItems(items[1..], depth, rest);
      MinifySeparator(|items| > 1, more + rest);
      MinifyPrinted(items[0], depth, sep + (more + rest));
      RightNested4(Print(items[0], depth, true), sep, more, rest);
      RightNested4(Print(items[0], depth, false), sep', more', Minify(rest));
    }
  }

  lemma MinifySeparator(more: bool, rest: string)
    ensures Minify(ItemSeparator(more, true) + rest) == ItemSeparator(more, false) + Minify(rest)
    ensures Closed(rest) ==> Closed(ItemSeparator(more, true) + rest)
  {
    if more {
      MinifyBlank(" ", rest);
      MinifyPlain(",", " " + rest);
      Associative(",", " ", rest);
      assert "," + " " == ", ";
    } else {
      MinifyPlain("", rest);
    }
  }

  lemma {:induction false} MinifyObject(members: seq<Member>, depth: nat, rest: string)
    requires PrintableMembers(members)
    ensures Minify(Print(Object(members), depth, true) + rest) == Print(Object(members), depth, false) + Minify(rest)
    ensures Closed(rest) ==> Closed(Print(Object(members), depth, true) + rest)
    decreases members, 1
  {
    if members == [] {
      MinifyPlain("}", rest);
      MinifyBlank(Tabs(depth - 1), "}" + rest);
      Associative(Tabs(depth - 1), "}", rest);
      MinifyOpen(Tabs(depth - 1) + "}", "}", rest);
      Associative("{\n", Tabs(depth - 1), "}");
      assert "{" + "}" == "{}";
    } else {
      MinifyMembers(members, depth + 1, rest);
      MinifyOpen(PrintMembers(members, depth + 1, true), PrintMembers(members, depth + 1, false), rest);
    }
  }

  lemma MinifyOpen(inner: string, inner': string, rest: string)
    requires Minify(inner + rest) == inner' + Minify(rest)
    ensures Minify("{\n" + inner + rest) == "{" + inner' + Minify(rest)
    ensures Closed(inner + rest) ==> Closed("{\n" + inner + rest)
  {
    MinifyBlank("\n", inner + rest);
    MinifyPlain("{", "\n" + (inner + rest));
    assert "{\n" + inner + rest == "{" + ("\n" + (inner + rest));
    Associative("{", inner', Minify(rest));
  }

  lemma {:induction false} MinifyMembers(members: seq<Member>, depth: nat, rest: string)
    requires PrintableMembers(members)
    ensures Minify(PrintMembers(members, depth, true) + rest) == PrintMembers(members, depth, false) + Minify(rest)
    ensures Closed(rest) ==> Closed(PrintMembers(members, depth, true) + rest)
    decreases members, 0
  {
    if members == [] {
      MinifyPlain("}", rest);
      MinifyBlank(Tabs(depth - 1), "}" + rest);
      Associative(Tabs(depth - 1), "}", rest);
    } else {
      var m := members[0];
      var more, more' := PrintMembers(members[1..], depth, true), PrintMembers(members[1..], depth, false);
      var value, value' := Print(m.value, depth, true), Print(m.value, depth, false);
      var head, head' := MemberHead(m.name, depth, true), MemberHead(m.name, depth, false);
      var tail, tail' := MemberTail(|members| > 1, true), MemberTail(|members| > 1, false);
      MinifyMembers(members[1..], depth, rest);
      MinifyTail(|members| > 1, more + rest);
      MinifyPrinted(m.value, depth, tail + (more + rest));
      MinifyHead(m.name, depth, value + (tail + (more + rest)));
      RightNested5(head, value, tail, more, rest);
      RightNested5(head', value', tail', more', Minify(rest));
    }
  }

  lemma MinifyHead(name: string, depth: nat, rest: string)
    requires NulFree(name)
    ensures Minify(MemberHead(name, depth, true) + rest) == MemberHead(name, depth, false) + Minify(rest)
    ensures Closed(rest) ==> Closed(MemberHead(name, depth, true) + rest)
  {
    var text := StringText(name);
    MinifyBlank("\t", rest);
    MinifyPlain(":", "\t" + rest);
    MinifyString(name, ":" + ("\t" + rest));
    MinifyBlank(Tabs(depth), text + (":" + ("\t" + rest)));
    HeadText(Tabs(depth), text, rest);
    HeadText'(text, Minify(rest));
  }

  lemma HeadText(tabs: string, text: string, rest: string)
    ensures tabs + text + ":\t" + rest == tabs + (text + (":" + ("\t" + rest)))
  {
    RightNested4(tabs, text, ":\t", rest);
    assert ":\t" + rest == ":" + ("\t" + rest);
  }

  lemma HeadText'(text: string, rest: string)
    ensures "" + text + ":" + rest == text + (":" + rest)
  {
  }

  lemma MinifyTail(more: bool, rest: string)
    ensures Minify(MemberTail(more, true) + rest) == MemberTail(more, false) + Minify(rest)
    ensures Closed(rest) ==> Closed(MemberTail(more, true) + rest)
  {
    MinifyBlank("\n", rest);
    var comma := if more then "," else "";
    MinifyPlain(comma, "\n" + rest);
    Associative(comma, "\n", rest);
    assert comma + "" == comma;
  }

  // cJSON_Minify of cJSON_Print is cJSON_PrintUnformatted.
  lemma MinifyPrint(v: Json)
    requires Printable(v)
    ensures Minify(Print(v, 0, true)) == Print(v, 0, false) && Closed(Print(v, 0, true))
  {
    MinifyPrinted(v, 0, "");
    assert Print(v, 0, true) + "" == Print(v, 0, true);
    assert Print(v, 0, false) + "" == Print(v, 0, false);
  }

  // ---------- in place ----------

  // The read cursor `i` and the write cursor `into`: what is not yet read is untouched, what is
  // written is the start of the result, and writing never overtakes reading.
  ghost predicate Cursors(json: array<char>, text: string, i: nat, into: nat)
    reads json
  {
    && into <= i <= |text| < json.Length
    && json[i..|text|] == text[i..] && json[|text|] == '\0'
  }

  // cJSON_Minify
  method MinifyInPlace(json: array<char>, ghost text: string)
    requires |text| < json.Length && json[..|text|] == text && json[|text|] == '\0'
    requires NulFree(text) && Closed(text)
    modifies json
    ensures var out := Minify(text); |out| <= |text| && json[..|out|] == out && json[|out|] == '\0'
  {
    var i: nat, into: nat := 0, 0;
    assert text[0..] == text;
    while json[i] != '\0'
      invariant Cursors(json, text, i, into) && Closed(text[i..])
      invariant json[..into] + Minify(text[i..]) == Minify(text)
      decreases |text| - i
    {
      i, into := MinifyToken(json, text, i, into, Minify(text));
    }
    assert i == |text| && json[..into] + "" == json[..into];
    json[into] := '\0';
  }

  // One turn of the loop: white space, a comment, a literal, or another character.
  method MinifyToken(json: array<char>, ghost text: string, i: nat, into: nat, ghost all: string)
      returns (j: nat, into': nat)
    requires Cursors(json, text, i, into) && json[i] != '\0' && Closed(text[i..]) && NulFree(text)
    requires json[..into] + Minify(text[i..]) == all
    modifies json
    ensures i < j && Cursors(json, text, j, into') && Closed(text[j..])
    ensures json[..into'] + Minify(text[j..]) == all
  {
    j, into' := i, into;
    assert i < |text| && text[i..][1..] == text[i + 1..];
    assert json[i] == json[i..|text|][0] == text[i..][0] && json[i + 1] == Peek(text[i..], 1);
    if json[i] == ' ' || json[i] == '\t' || json[i] == '\r' || json[i] == '\n' {
      j := PassBlank(json, text, i, into);
    } else if json[i] == '/' && json[i + 1] == '/' {
      j := PassLine(json, text, i, into);
    } else if json[i] == '/' && json[i + 1] == '*' {
      j := PassComment(json, text, i, into);
    } else if json[i] == '\"' {
      j, into' := CopyQuoted(json, text, i, into);
      Associative(old(json[..into]), "\"" + CopyLiteral(text[i..][1..]).0, Minify(text[j..]));
    } else {
      Associative(json[..into], [json[i]], Minify(text[i + 1..]));
      j, into' := CopyChar(json, text, i, into);
    }
  }

  method PassBlank(json: array<char>, ghost text: string, i: nat, ghost into: nat) returns (j: nat)
    requires Cursors(json, text, i, into) && i < |text|
    ensures j == i + 1 && Cursors(json, text, j, into)
  {
    j := i + 1;
    assert json[j..|text|] == json[i..|text|][1..];
  }

  // One character is copied, and both cursors move on.
  method CopyChar(json: array<char>, ghost text: string, i: nat, into: nat) returns (i': nat, into': nat)
    requires Cursors(json, text, i, into) && i < |text|
    modifies json
    ensures i' == i + 1 && into' == into + 1 && Cursors(json, text, i', into')
    ensures json[..into'] == old(json[..into]) + [text[i]]
  {
    assert json[i] == json[i..|text|][0];
    json[into] := json[i];
    i', into' := i + 1, into + 1;
    assert json[i'..|text|] == old(json[i..|text|])[1..];
  }

  // A double-slash comment, to the end of its line.
  method PassLine(json: array<char>, ghost text: string, i: nat, ghost into: nat) returns (j: nat)
    requires Cursors(json, text, i, into) && i < |text| && text[i] == '/' && Peek(text[i..], 1) == '/' && NulFree(text)
    ensures i < j && Cursors(json, text, j, into) && text[j..] == SkipLine(text[i..][1..])
  {
    j := i;
    while json[j] != '\0' && json[j] != '\n'
      invariant i <= j && Cursors(json, text, j, into)
      invariant SkipLine(text[j..]) == SkipLine(text[i..])
      decreases |text| - j
    {
      assert json[j] == json[j..|text|][0] && text[j..][1..] == text[j + 1..];
      assert json[j + 1..|text|] == json[j..|text|][1..];
      j := j + 1;
    }
    assert j < |text| ==> json[j] == json[j..|text|][0] == text[j..][0];
    assert json[i] == json[i..|text|][0];
  }

  // A multiline comment.
  method PassComment(json: array<char>, ghost text: string, i: nat, ghost into: nat) returns (j: nat)
    requires Cursors(json, text, i, into) && i < |text| && text[i] == '/' && Peek(text[i..], 1) == '*' && NulFree(text)
    requires SkipComment(text[i..][1..]) != ""
    ensures i < j && Cursors(json, text, j, into) && text[j..] == Advance(SkipComment(text[i..][1..]), 2)
  {
    j := i;
    while json[j] != '\0' && !(json[j] == '*' && json[j + 1] == '/')
      invariant i <= j && Cursors(json, text, j, into)
      invariant SkipComment(text[j..]) == SkipComment(text[i..])
      decreases |text| - j
    {
      assert json[j] == json[j..|text|][0] && json[j + 1] == Peek(text[j..], 1) && text[j..][1..] == text[j + 1..];
      assert json[j + 1..|text|] == json[j..|text|][1..];
      j := j + 1;
    }
    assert SkipComment(text[i..]) == SkipComment(text[i..][1..]);
    assert j < |text| && json[j] == json[j..|text|][0] && json[j + 1] == Peek(text[j..], 1);
    assert SkipComment(text[j..]) == text[j..] && Advance(text[j..], 2) == text[j + 2..];
    assert json[j + 2..|text|] == json[j..|text|][2..];
    j := j + 2;
  }

  // One character of a literal, or a backslash and the character after it.
  ghost function CopyUnit(p: string): string
    requires p != "" && (p[0] == '\\' ==> |p| > 1)
  {
    p[..if p[0] == '\\' then 2 else 1]
  }

  lemma CopyLiteralStep(p: string)
    requires ClosedLiteral(p) && p[0] != '\"'
    ensures var unit := CopyUnit(p);
      CopyLiteral(p) == (unit + CopyLiteral(p[|unit|..]).0, CopyLiteral(p[|unit|..]).1) && ClosedLiteral(p[|unit|..])
  {
  }

  // One character is copied, or a backslash and the character after it.
  method CopyOneUnit(json: array<char>, ghost text: string, i: nat, into: nat) returns (j: nat, into': nat)
    requires Cursors(json, text, i, into) && i < |text| && (text[i] == '\\' ==> i + 1 < |text|)
    modifies json
    ensures j == i + |CopyUnit(text[i..])| && Cursors(json, text, j, into')
    ensures text[j..] == text[i..][|CopyUnit(text[i..])|..]
    ensures json[..into'] == old(json[..into]) + CopyUnit(text[i..])
  {
    j, into' := i, into;
    assert json[j] == json[j..|text|][0];
    if json[j] == '\\' {
      j, into' := CopyChar(json, text, j, into');
    }
    j, into' := CopyChar(json, text, j, into');
  }

  // One turn inside a literal.
  method CopyInside(json: array<char>, ghost text: string, i: nat, into: nat, ghost all: string)
      returns (j: nat, into': nat)
    requires Cursors(json, text, i, into) && ClosedLiteral(text[i..]) && json[i] != '\0' && json[i] != '\"'
    requires json[..into] + CopyLiteral(text[i..]).0 == all && NulFree(text)
    modifies json
    ensures i < j && Cursors(json, text, j, into') && ClosedLiteral(text[j..])
    ensures CopyLiteral(text[j..]).1 == CopyLiteral(text[i..]).1 && json[..into'] + CopyLiteral(text[j..]).0 == all
  {
    assert json[i] == json[i..|text|][0];
    CopyLiteralStep(text[i..]);
    ghost var unit, more := CopyUnit(text[i..]), CopyLiteral(text[i..][|CopyUnit(text[i..])|..]).0;
    Associative(json[..into], unit, more);
    j, into' := CopyOneUnit(json, text, i, into);
  }

  // A string literal with its quotes.
  method CopyQuoted(json: array<char>, ghost text: string, i: nat, into: nat) returns (j: nat, into': nat)
    requires Cursors(json, text, i, into) && i < |text| && text[i] == '\"' && NulFree(text)
    requires ClosedLiteral(text[i..][1..])
    modifies json
    ensures i < j && Cursors(json, text, j, into') && text[j..] == CopyLiteral(text[i..][1..]).1
    ensures json[..into'] == old(json[..into]) + ("\"" + CopyLiteral(text[i..][1..]).0)
  {
    ghost var p, before := text[i + 1..], json[..into] + "\"";
    assert text[i..][1..] == p;
    j, into' := CopyChar(json, text, i, into);
    j, into' := CopyBody(json, text, j, into', before + CopyLiteral(p).0);
    assert text[j..][0] == '\"' && text[j..][1..] == text[j + 1..];
    Associative(old(json[..into]), "\"", CopyLiteral(p).0);
    j, into' := CopyChar(json, text, j, into');
  }

  // A literal up to its closing quote.
  method CopyBody(json: array<char>, ghost text: string, i: nat, into: nat, ghost all: string)
      returns (j: nat, into': nat)
    requires Cursors(json, text, i, into) && ClosedLiteral(text[i..]) && NulFree(text)
    requires json[..into] + CopyLiteral(text[i..]).0 == all
    modifies json
    ensures i <= j < |text| && text[j] == '\"' && Cursors(json, text, j, into')
    ensures CopyLiteral(text[j..]).1 == CopyLiteral(text[i..]).1 && json[..into'] + CopyLiteral(text[j..]).0 == all
  {
    j, into' := i, into;
    while json[j] != '\0' && json[j] != '\"'
      invariant i <= j && Cursors(json, text, j, into') && ClosedLiteral(text[j..])
      invariant CopyLiteral(text[j..]).1 == CopyLiteral(text[i..]).1
      invariant json[..into'] + CopyLiteral(text[j..]).0 == all
      decreases |text| - j
    {
      j, into' := CopyInside(json, text, j, into', all);
    }
    assert json[j] == json[j..|text|][0] == '\"';
  }
}
