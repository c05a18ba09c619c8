/** How printed texts are laid out: where white space is, and how far lines are indented. */
module CJsonLayout {
  import opened Sequences
  import opened CString
  import opened CJsonText
  import opened CJsonSizes
  import opened CJsonNumbers
  import opened CJsonMinify
  import opened CJsonPrecision
  import opened CJsonSpelling

  function LeadingTabs(p: string): (k: nat)
    ensures k <= |p|
  {
    if p != "" && p[0] == 0x09 as char then 1 + LeadingTabs(p[1..]) else 0
  }

  // The text after a literal's opening quote, from behind its closing one.
  function AfterLiteral(p: string): (r: string)
    ensures |r| <= |p|
  {
    CopyLiteral(p).1
  }

  // From a place outside literals on; `open` are the brackets and braces that are open there.
  // A compact text has no white space. A formatted text has one space behind a comma in an array,
  // one tab behind a colon, a new line behind an opening brace and a comma in an object, and before
  // a closing brace; and nothing else.
  predicate Laid(p: string, open: seq<char>, fmt: bool)
    decreases |p|, 1
  {
    if p == "" then open == []
    else if p[0] == '\"' then Laid(AfterLiteral(p[1..]), open, fmt)
    else if p[0] == '[' then Laid(p[1..], open + ['['], fmt)
    else if p[0] == ']' then Inside(open, '[') && Laid(p[1..], open[..|open| - 1], fmt)
    else if !fmt then
      if p[0] == '{' then Laid(p[1..], open + ['{'], fmt)
      else if p[0] == '}' then Inside(open, '{') && Laid(p[1..], open[..|open| - 1], fmt)
      else p[0] > ' ' && Laid(p[1..], open, fmt)
    else if p[0] == '{' then
      Peek(p, 1) == '\n' && (BraceLine(p[2..], open + ['{'], 2) || NameLine(p[2..], open + ['{']))
    else if p[0] == ',' then
      if Inside(open, '[') then Peek(p, 1) == ' ' && Laid(p[2..], open, fmt)
      else Peek(p, 1) == '\n' && NameLine(p[2..], open)
    else if p[0] == ':' then Peek(p, 1) == '\t' && Laid(p[2..], open, fmt)
    else if p[0] == '\n' then BraceLine(p[1..], open, 1)
    else p[0] > ' ' && p[0] != '}' && Laid(p[1..], open, fmt)
  }

  // The innermost one that is open.
  predicate Inside(open: seq<char>, c: char) {
    open != [] && open[|open| - 1] == c
  }

  // A line with a member: as many tabs as brackets and braces are open, and a name.
  predicate NameLine(p: string, open: seq<char>)
    decreases |p|, 0
  {
    LeadingTabs(p) == |open| && Peek(p, |open|) == '\"' && Inside(open, '{') && |p| > |open| &&
    Laid(AfterLiteral(p[|open| + 1..]), open, true)
  }

  // A line with a closing brace: so many tabs less, or none.
  predicate BraceLine(p: string, open: seq<char>, less: nat)
    decreases |p|, 0
  {
    var k := if |open| >= less then |open| - less else 0;
    LeadingTabs(p) == k && Peek(p, k) == '}' && Inside(open, '{') && |p| > k &&
    Laid(p[k + 1..], open[..|open| - 1], true)
  }

  // ---------- printed texts ----------

  // Characters that nothing is laid out around.
  predicate IsInner(c: char) {
    c > ' ' && c !in {'\"', '[', ']', '{', '}', ',', ':'}
  }

  lemma {:induction false} InnerLaid(a: string, rest: string, open: seq<char>, fmt: bool)
    requires (forall i :: 0 <= i < |a| ==> IsInner(a[i])) && Laid(rest, open, fmt)
    ensures Laid(a + rest, open, fmt)
  {
    if a == "" {
      assert a + rest == rest;
    } else {
      assert (a + rest)[1..] == a[1..] + rest;
      InnerLaid(a[1..], rest, open, fmt);
    }
  }

  lemma AfterString(s: string, rest: string)
    requires NulFree(s)
    ensures var p := StringText(s) + rest; p != "" && p[0] == '\"' && AfterLiteral(p[1..]) == rest
  {
    var p := StringText(s) + rest;
    CopyEscape(s, rest);
    RightNested4("\"", Escape(s), "\"", rest);
    assert p[1..] == Escape(s) + ("\"" + rest);
  }

  lemma StringLaid(s: string, rest: string, open: seq<char>, fmt: bool)
    requires NulFree(s) && Laid(rest, open, fmt)
    ensures Laid(StringText(s) + rest, open, fmt)
  {
    AfterString(s, rest);
  }

  lemma {:induction false} TabsLead(n: int, p: string)
    requires Peek(p) != '\t'
    ensures var k := if n < 0 then 0 else n;
      LeadingTabs(Tabs(n) + p) == k && |Tabs(n)| == k && (Tabs(n) + p)[k..] == p
    decreases if n < 0 then 0 else n
  {
    if n > 0 {
      assert (Tabs(n) + p)[1..] == Tabs(n - 1) + p;
      TabsLead(n - 1, p);
      assert (Tabs(n) + p)[n..] == p;
    } else {
      assert Tabs(n) + p == p && p[0..] == p;
    }
  }

  // A value inside so many brackets and braces, before what is laid out in them.
  lemma {:induction false} PrintLaid(v: Json, depth: nat, fmt: bool, rest: string, open: seq<char>)
    requires Printable(v) && |open| == depth && Laid(rest, open, fmt)
    ensures Laid(Print(v, depth, fmt) + rest, open, fmt)
    decreases v, 1
  {
    match v
    case Number(d) =>
      NumberTextChars(d);
      InnerLaid(NumberText(d), rest, open, fmt);
    case Text(s) => StringLaid(s, rest, open, fmt);
    case Array(items) => ArrayLaid(items, depth, fmt, rest, open);
    case Object(members) => ObjectLaid(members, depth, fmt, rest, open);
    case _ => InnerLaid(Print(v, depth, fmt), rest, open, fmt);
  }

  lemma ClosedBracket(rest: string, open: seq<char>, c: char, fmt: bool)
    requires Laid(rest, open, fmt) && (c == '[' || (c == '{' && !fmt))
    ensures Laid((if c == '[' then "]" else "}") + rest, open + [c], fmt)
  {
    var p := (if c == '[' then "]" else "}") + rest;
    assert p[1..] == rest && (open + [c])[..|open|] == open;
  }

  lemma {:induction false} ArrayLaid(items: seq<Json>, depth: nat, fmt: bool, rest: string, open: seq<char>)
    requires PrintableItems(items) && |open| == depth && Laid(rest, open, fmt)
    ensures Laid(Print(Array(items), depth, fmt) + rest, open, fmt)
    decreases items, 1
  {
    var inner := PrintItems(items, depth + 1, fmt) + rest;
    ItemsLaid(items, depth + 1, fmt, rest, open);
    Associative("[", PrintItems(items, depth + 1, fmt), rest);
    assert "[" + "]" == "[]";
    assert ("[" + inner)[1..] == inner;
  }

  lemma {:induction false} ItemsLaid(items: seq<Json>, depth: nat, fmt: bool, rest: string, open: seq<char>)
    requires PrintableItems(items) && |open| + 1 == depth && Laid(rest, open, fmt)
    ensures Laid(PrintItems(items, depth, fmt) + rest, open + ['['], fmt)
    decreases items, 0
  {
    if items == [] {
      ClosedBracket(rest, open, '[', fmt);
    } else {
      var sep, more := ItemSeparator(|items| > 1, fmt), PrintItems(items[1..], depth, fmt);
      ItemsLaid(items[1..], depth, fmt, rest, open);
      SeparatorLaid(|items| > 1, fmt, more + rest, open + ['[']);
      PrintLaid(items[0], depth, fmt, sep + (more + rest), open + ['[']);
      RightNested4(Print(items[0], depth, fmt), sep, more, rest);
    }
  }

  lemma SeparatorLaid(more: bool, fmt: bool, p: string, open: seq<char>)
    requires Inside(open, '[') && Laid(p, open, fmt)
    ensures Laid(ItemSeparator(more, fmt) + p, open, fmt)
  {
    var q := ItemSeparator(more, fmt) + p;
    if !more {
      assert q == p;
    } else if fmt {
      assert q[2..] == p;
    } else {
      assert q[1..] == p;
    }
  }

  lemma {:induction false} ObjectLaid(members: seq<Member>, depth: nat, fmt: bool, rest: string, open: seq<char>)
    requires PrintableMembers(members) && |open| == depth && Laid(rest, open, fmt)
    ensures Laid(Print(Object(members), depth, fmt) + rest, open, fmt)
    decreases members, 1
  {
    var q := PrintMembers(members, depth + 1, fmt) + rest;
    var p := Print(Object(members), depth, fmt) + rest;
    if members == [] {
      EmptyLaid(depth, fmt, rest, open);
    } else if fmt {
      MembersLaid(members, depth + 1, rest, open);
      Associative("{\n", PrintMembers(members, depth + 1, fmt), rest);
      assert p[0] == '{' && p[1] == '\n' && p[2..] == q;
    } else {
      CompactLaid(members, depth + 1, rest, open);
      Associative("{", PrintMembers(members, depth + 1, fmt), rest);
      assert p[0] == '{' && p[1..] == q;
    }
  }

  lemma EmptyLaid(depth: nat, fmt: bool, rest: string, open: seq<char>)
    requires |open| == depth && Laid(rest, open, fmt)
    ensures Laid(Print(Object([]), depth, fmt) + rest, open, fmt)
  {
    var p := Print(Object([]), depth, fmt) + rest;
    if fmt {
      Brace(rest, open, depth - 1, 2);
      RightNested4("{\n", Tabs(depth - 1), "}", rest);
      assert p[0] == '{' && p[1] == '\n' && p[2..] == Tabs(depth - 1) + ("}" + rest);
    } else {
      ClosedBracket(rest, open, '{', fmt);
      Associative("{", "}", rest);
      assert "{" + "}" == "{}";
      assert p[0] == '{' && p[1..] == "}" + rest;
    }
  }

  // A closing brace on a line of its own.
  lemma Brace(rest: string, open: seq<char>, n: int, less: nat)
    requires Laid(rest, open, true) && n == |open| + 1 - less
    ensures BraceLine(Tabs(n) + ("}" + rest), open + ['{'], less)
  {
    var k: nat := if n < 0 then 0 else n;
    TabsLead(n, "}" + rest);
    assert (Tabs(n) + ("}" + rest))[k + 1..] == rest;
    assert (open + ['{'])[..|open|] == open;
  }

  // The lines of an object, from its first member's on.
  lemma {:induction false} MembersLaid(members: seq<Member>, depth: nat, rest: string, open: seq<char>)
    requires members != [] && PrintableMembers(members) && |open| + 1 == depth && Laid(rest, open, true)
    ensures NameLine(PrintMembers(members, depth, true) + rest, open + ['{'])
    decreases members, 0
  {
    var m, inner := members[0], open + ['{'];
    var tail, more := MemberTail(|members| > 1, true), PrintMembers(members[1..], depth, true);
    if |members| > 1 {
      MembersLaid(members[1..], depth, rest, open);
      assert (tail + (more + rest))[2..] == more + rest;
    } else {
      Brace(rest, open, depth - 1, 1);
      assert members[1..] == [] && "" + Tabs(depth - 1) + "}" == Tabs(depth - 1) + "}";
      Associative(Tabs(depth - 1), "}", rest);
      assert (tail + (more + rest))[1..] == more + rest;
    }
    PrintLaid(m.value, depth, true, tail + (more + rest), inner);
    MemberLine(m.name, depth, Print(m.value, depth, true) + (tail + (more + rest)), inner);
    RightNested5(MemberHead(m.name, depth, true), Print(m.value, depth, true), tail, more, rest);
  }

  lemma MemberLine(name: string, depth: nat, p: string, open: seq<char>)
    requires NulFree(name) && |open| == depth && Inside(open, '{') && Laid(p, open, true)
    ensures NameLine(MemberHead(name, depth, true) + p, open)
  {
    var text, q := StringText(name), StringText(name) + (":\t" + p);
    var line := Tabs(depth) + q;
    AfterString(name, ":\t" + p);
    TabsLead(depth, q);
    assert line[depth..] == q && line[depth + 1..] == q[1..];
    assert (":\t" + p)[2..] == p;
    RightNested4(Tabs(depth), text, ":\t", p);
  }

  // The members of a compact object.
  lemma {:induction false} CompactLaid(members: seq<Member>, depth: nat, rest: string, open: seq<char>)
    requires PrintableMembers(members) && |open| + 1 == depth && Laid(rest, open, false)
    ensures Laid(PrintMembers(members, depth, false) + rest, open + ['{'], false)
    decreases members, 0
  {
    var inner := open + ['{'];
    if members == [] {
      ClosedBracket(rest, open, '{', false);
      assert PrintMembers([], depth, false) == "" + "}" == "}";
    } else {
      var m := members[0];
      var tail, more := MemberTail(|members| > 1, false), PrintMembers(members[1..], depth, false);
      CompactLaid(members[1..], depth, rest, open);
      assert "," + "" == "," && "" + "" == "";
      CommaLaid(tail, more + rest, inner);
      PrintLaid(m.value, depth, false, tail + (more + rest), inner);
      HeadLaid(m.name, depth, Print(m.value, depth, false) + (tail + (more + rest)), inner);
      RightNested5(MemberHead(m.name, depth, false), Print(m.value, depth, false), tail, more, rest);
    }
  }

  lemma CommaLaid(tail: string, p: string, open: seq<char>)
    requires tail in {"", ","} && Laid(p, open, false)
    ensures Laid(tail + p, open, false)
  {
    if tail == "" { assert tail + p == p; } else { assert (tail + p)[1..] == p; }
  }

  lemma HeadLaid(name: string, depth: nat, p: string, open: seq<char>)
    requires NulFree(name) && Laid(p, open, false)
    ensures Laid(MemberHead(name, depth, false) + p, open, false)
  {
    assert (":" + p)[1..] == p;
    StringLaid(name, ":" + p, open, false);
    assert "" + StringText(name) == StringText(name);
    Associative(StringText(name), ":", p);
  }

  // cJSON_Print and cJSON_PrintUnformatted.
  lemma PrintedLaid(v: Json, fmt: bool)
    requires Printable(v)
    ensures Laid(Print(v, 0, fmt), [], fmt)
  {
    PrintLaid(v, 0, fmt, "", []);
    assert Print(v, 0, fmt) + "" == Print(v, 0, fmt);
  }

  // ---------- printed characters and numbers ----------

  // Section 7 of RFC 8259: what a character of a string is printed as. Only quotes, backslashes and
  // control characters are escaped, those with a letter of their own by it.
  lemma EscapeForms(c: char)
    requires c != '\0'
    ensures c >= ' ' && c != '\"' && c != '\\' ==> EscapeChar(c) == [c]
    ensures c == '\"' || c == '\\' ==> EscapeChar(c) == ['\\', c]
    ensures forall e {:trigger EscapeValue(e)} :: e in "bfnrt" && EscapeValue(e) == c ==> EscapeChar(c) == ['\\', e]
    ensures c < ' ' && (forall e :: e in "bfnrt" ==> EscapeValue(e) != c) ==>
      EscapeChar(c) == "\\u00" + [LOWER[c as int / 16], LOWER[c as int % 16]]
  {
    forall e | e in "bfnrt" && EscapeValue(e) == c ensures EscapeChar(c) == ['\\', e] { LetterForm(e); }
    if c < ' ' && forall e :: e in "bfnrt" ==> EscapeValue(e) != c {
      NoLetter(c);
      ControlForm(c as int);
    }
  }

  lemma LetterForm(e: char)
    requires e in "bfnrt"
    ensures EscapeChar(EscapeValue(e)) == ['\\', e]
  {
  }

  lemma NoLetter(c: char)
    requires forall e :: e in "bfnrt" ==> EscapeValue(e) != c
    ensures c !in {BACKSPACE, FORM_FEED, '\n', '\r', '\t'}
  {
    assert 'b' in "bfnrt" && 'f' in "bfnrt" && 'n' in "bfnrt" && 'r' in "bfnrt" && 't' in "bfnrt";
  }

  lemma ControlForm(n: nat)
    requires n < 32
    ensures "\\u" + Hex4(n) == "\\u00" + [LOWER[n / 16], LOWER[n % 16]]
  {
    HexIsLower(n / 16);
    HexIsLower(n % 16);
    assert Hex4(n) == ['0', '0', HexDigit(n / 16), HexDigit(n % 16)];
  }

  lemma HexIsLower(d: nat)
    requires d < 16
    ensures HexDigit(d) == LOWER[d]
  {
  }

  // "%f" prints digits without a leading zero, a point and six digits.
  lemma FixedForm(d: real) returns (w: string, f: string)
    ensures FixedText(d) == SignText(d) + (w + ("." + f)) && AllDigits(w) && (|w| > 1 ==> w[0] != '0')
    ensures AllDigits(f) && |f| == 6
  {
    MillionthsForm(FixedUnits(d));
    w, f := Digits(FixedUnits(d) / 1000000), LastDigits(FixedUnits(d) % 1000000, 6);
  }

  lemma MillionthsForm(m: nat)
    ensures var w, f := Digits(m / 1000000), LastDigits(m % 1000000, 6);
      Millionths(m) == w + ("." + f) && AllDigits(w) && (|w| > 1 ==> w[0] != '0') && AllDigits(f) && |f| == 6
  {
    var w := Digits(m / 1000000);
    DigitsStart(m / 1000000);
    assert forall i :: 0 <= i < |w| ==> IsDigit(w[i]);
  }

  // "%e" prints one digit that is not zero, a point and six digits, and an exponent with its sign
  // and two digits or more.
  lemma ScientificForm(d: real) returns (w: string, f: string, s: string, x: string)
    requires Finite(d) && d != 0.0
    ensures ScientificText(d) == SignText(d) + (w + ("." + f)) + ("e" + (s + x))
    ensures |w| == 1 && '1' <= w[0] <= '9' && AllDigits(f) && |f| == 6
    ensures s in {"+", "-"} && AllDigits(x) && |x| >= 2 && (|x| > 2 ==> x[0] != '0')
  {
    var (m, e) := ScientificUnits(d);
    OneDigit(d);
    MillionthsForm(m);
    DigitsStart(m / 1000000);
    ExponentForm(if e < 0 then -e else e);
    w, f := Digits(m / 1000000), LastDigits(m % 1000000, 6);
    s, x := if e < 0 then "-" else "+", TwoDigits(if e < 0 then -e else e);
  }

  lemma OneDigit(d: real)
    requires Finite(d) && d != 0.0
    ensures var m := ScientificUnits(d).0; 0 < m / 1000000 < 10 && |Digits(m / 1000000)| == 1
  {
    SevenDigits(d);
    RoundedNear(Shift(Abs(d), 6, PLACES + 10).0);
  }

  lemma ExponentForm(n: nat)
    ensures var x := TwoDigits(n); AllDigits(x) && |x| >= 2 && (|x| > 2 ==> x[0] != '0')
  {
    ParseTwoDigits(n);
    DigitsStart(n);
  }

  // Within DBL_EPSILON of the integer towards zero, in the range of an int, or of the one below it,
  // below 10^60 in magnitude.
  predicate NearInteger(d: real) {
    || (Abs(Truncate(d) as real - d) <= EPSILON && INT_MIN as real <= d <= INT_MAX as real)
    || (Abs(d.Floor as real - d) <= EPSILON && Abs(d) < WHOLE_LIMIT)
  }

  // Which numbers are printed with a point, and which of them with an exponent.
  lemma PointShown(d: real)
    ensures '.' in NumberText(d) <==> !NearInteger(d)
    ensures 'e' in NumberText(d) <==> !NearInteger(d) && (Abs(d) < 0.000001 || Abs(d) > 1000000000.0)
  {
    if d != 0.0 && NearInteger(d) {
      NoPoint(Truncate(d));
      NoPoint(d.Floor);
    } else if d != 0.0 {
      var (m, e) := ScientificUnits(d);
      OnePoint(d, m, ExponentText(e));
      OnePoint(d, FixedUnits(d), "");
      NoLetterE(d, FixedUnits(d));
      assert FixedText(d) + "" == FixedText(d);
      assert ExponentText(e)[0] == 'e';
    }
  }

  lemma NoPoint(n: int)
    ensures '.' !in IntText(n) && 'e' !in IntText(n)
  {
    var d := Digits(if n < 0 then -n else n);
    assert forall i :: 0 <= i < |d| ==> IsDigit(d[i]);
  }

  lemma OnePoint(d: real, m: nat, x: string)
    ensures '.' in SignText(d) + Millionths(m) + x
    ensures x != "" ==> x[0] in SignText(d) + Millionths(m) + x
  {
    MillionthsForm(m);
    var w, f := Digits(m / 1000000), LastDigits(m % 1000000, 6);
    assert Millionths(m)[|w|] == '.';
    assert (SignText(d) + Millionths(m))[|SignText(d)| + |w|] == '.';
    assert (SignText(d) + Millionths(m) + x)[|SignText(d)| + |w|] == '.';
    if x != "" { assert (SignText(d) + Millionths(m) + x)[|SignText(d) + Millionths(m)|] == x[0]; }
  }

  lemma NoLetterE(d: real, m: nat)
    ensures 'e' !in SignText(d) + Millionths(m)
  {
    MillionthsForm(m);
    var w, f := Digits(m / 1000000), LastDigits(m % 1000000, 6);
    assert forall i :: 0 <= i < |w| ==> IsDigit(w[i]);
    assert forall i :: 0 <= i < |f| ==> IsDigit(f[i]);
  }
}
