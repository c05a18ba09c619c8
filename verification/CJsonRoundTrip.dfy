/** Parsing what was printed gives back the tree, whatever text follows it. */
module CJsonRoundTrip {
  import opened Sequences
  import opened CString
  import opened CJsonText
  import opened CJsonLiterals
  import opened CJsonNumbers

  // ---------- strings ----------

  lemma ParseHex4Of(p: string, a: nat, b: nat, c: nat, d: nat)
    requires |p| >= 4 && a < 16 && b < 16 && c < 16 && d < 16
    requires HexValue(p[0]) == a && HexValue(p[1]) == b && HexValue(p[2]) == c && HexValue(p[3]) == d
    ensures ParseHex4(p) == a * 0x1000 + b * 0x100 + c * 0x10 + d
  {
  }

  lemma Nibbles(n: nat)
    requires n < 0x10000
    ensures n / 0x1000 * 0x1000 + n / 0x100 % 16 * 0x100 + n / 16 % 16 * 16 + n % 16 == n
  {
    var a := n / 16;
    var b := a / 16;
    var c := b / 16;
    Quotients(n, a, b, c);
    assert n == 16 * a + n % 16 && a == 16 * b + a % 16 && b == 16 * c + b % 16;
  }

  lemma Quotients(n: nat, a: nat, b: nat, c: nat)
    requires a == n / 16 && b == a / 16 && c == b / 16
    ensures n / 0x100 == b && n / 0x1000 == c
  {
  }

  lemma ParseHex4Print(n: nat, rest: string)
    requires n < 0x10000
    ensures ParseHex4(Hex4(n) + rest) == n
  {
    Nibbles(n);
    ParseHex4Of(Hex4(n) + rest, n / 0x1000, n / 0x100 % 16, n / 16 % 16, n % 16);
  }

  lemma UnescapeControl(c: char, tail: string)
    requires '\0' < c < ' '
    ensures UnescapeUnicode("u" + Hex4(c as nat) + tail) == ([c], Advance("u" + Hex4(c as nat) + tail, 4))
    ensures Advance(Advance("u" + Hex4(c as nat) + tail, 4), 1) == tail
  {
    var p := "u" + Hex4(c as nat) + tail;
    assert Advance(p, 1) == Hex4(c as nat) + tail;
    ParseHex4Print(c as nat, tail);
  }

  // Unescape past one escape.
  lemma UnescapeStep(q: string, bytes: string, at: string)
    requires UnescapeOne(q) == (bytes, at)
    ensures Unescape("\\" + q) == (bytes + Unescape(Advance(at, 1)).0, Unescape(Advance(at, 1)).1)
  {
    var p := "\\" + q;
    assert p[1..] == q;
  }

  lemma UnescapeShort(e: char, c: char, tail: string)
    requires e != 'u' && UnescapeOne([e] + tail) == ([c], [e] + tail)
    ensures Unescape("\\" + ([e] + tail)) == ([c] + Unescape(tail).0, Unescape(tail).1)
  {
    var q := [e] + tail;
    UnescapeStep(q, [c], q);
    assert Advance(q, 1) == tail;
  }

  lemma UnescapeOneChar(c: char, tail: string)
    requires c != '\0'
    ensures Unescape(EscapeChar(c) + tail) == ([c] + Unescape(tail).0, Unescape(tail).1)
  {
    var p := EscapeChar(c) + tail;
    if !NeedsEscape(c) {
      assert p[1..] == tail;
    } else if c == '\\' || c == '\"' || ShortEscape(c) != c {
      assert p == "\\" + ([ShortEscape(c)] + tail);
      UnescapeShort(ShortEscape(c), c, tail);
    } else {
      UnescapeLong(c, tail);
    }
  }

  lemma UnescapeLong(c: char, tail: string)
    requires '\0' < c < ' ' && ShortEscape(c) == c
    ensures Unescape(EscapeChar(c) + tail) == ([c] + Unescape(tail).0, Unescape(tail).1)
  {
    EscapeLong(c, tail);
    UnescapeControl(c, tail);
    var q := "u" + Hex4(c as nat) + tail;
    UnescapeStep(q, [c], Advance(q, 4));
  }

  lemma EscapeLong(c: char, tail: string)
    requires '\0' < c < ' ' && ShortEscape(c) == c
    ensures EscapeChar(c) + tail == "\\" + ("u" + Hex4(c as nat) + tail)
  {
    RegroupHex(Hex4(c as nat), tail);
  }

  lemma RegroupHex(hex: string, tail: string)
    ensures "\\u" + hex + tail == "\\" + ("u" + hex + tail)
  {
  }

  lemma {:induction false} UnescapeEscape(s: string, rest: string)
    requires NulFree(s)
    ensures Unescape(Escape(s) + "\"" + rest) == (s, "\"" + rest)
  {
    if s == "" {
      assert Escape(s) + "\"" + rest == "\"" + rest;
    } else {
      UnescapeEscape(s[1..], rest);
      var tail := Escape(s[1..]) + "\"" + rest;
      Behind3(EscapeChar(s[0]), Escape(s[1..]), "\"", rest);
      UnescapeOneChar(s[0], tail);
      assert [s[0]] + s[1..] == s;
    }
  }

  // Reading back a printed string, whatever follows it.
  lemma ParsePrintedString(s: string, rest: string)
    requires NulFree(s)
    ensures ParseString(StringText(s) + rest) == Read(s, rest)
  {
    var p := StringText(s) + rest;
    assert p[1..] == Escape(s) + "\"" + rest;
    EscapeIsLiteral(s, rest);
    PassesAgree(Escape(s) + "\"" + rest);
    UnescapeEscape(s, rest);
    assert ("\"" + rest)[1..] == rest;
  }

  // ---------- white space ----------

  lemma SkipNothing(p: string)
    requires p != "" ==> p[0] > ' '
    ensures Skip(p) == p
  {
  }

  lemma {:induction false} SkipTabs(n: int, p: string)
    ensures Skip(Tabs(n) + p) == Skip(p)
    decreases if n < 0 then 0 else n
  {
    if n > 0 {
      assert (Tabs(n) + p)[1..] == Tabs(n - 1) + p;
      SkipTabs(n - 1, p);
    } else {
      assert Tabs(n) + p == p;
    }
  }

  lemma PrintStart(v: Json, depth: nat, fmt: bool)
    ensures Print(v, depth, fmt) != "" && Print(v, depth, fmt)[0] > ' '
    ensures Print(v, depth, fmt)[0] !in {']', '}'}
  {
    if v.Number? { ParsePrintedNumber(v.value, ""); }
  }

  // ---------- trees ----------

  // The main round trip: the printed text of a tree, compact or formatted and at any depth, is
  // read back as that tree with its numbers as printed, and the parser stops where the text ends.
  lemma {:induction false} ParsePrinted(v: Json, depth: nat, fmt: bool, rest: string)
    requires Printable(v) && EndsNumber(rest)
    ensures ParseValue(Print(v, depth, fmt) + rest) == Read(Shown(v), rest)
    decreases v, 1
  {
    match v
    case Number(d) => ParsePrintedNumberValue(d, rest);
    case Text(s) => ParsePrintedString(s, rest);
    case Array(items) =>
      ParsePrintedArray(v, depth, fmt, rest);
    case Object(members) =>
      ParsePrintedObject(v, depth, fmt, rest);
    case _ => ParsePrintedWord(v, depth, fmt, rest);
  }

  lemma ParsePrintedWord(v: Json, depth: nat, fmt: bool, rest: string)
    requires v.Null? || v.False? || v.True?
    ensures ParseValue(Print(v, depth, fmt) + rest) == Read(v, rest)
  {
    var p := Print(v, depth, fmt) + rest;
    assert p[0] == if v.Null? then 'n' else if v.False? then 'f' else 't';
    assert p[if v.False? then 5 else 4..] == rest;
  }

  lemma ParsePrintedNumberValue(d: real, rest: string)
    requires EndsNumber(rest)
    ensures ParseValue(NumberText(d) + rest) == Read(Number(ShownNumber(d)), rest)
  {
    ParsePrintedNumber(d, rest);
    ParseNumberValue(NumberText(d) + rest);
  }

  lemma ParseNumberValue(p: string)
    requires Peek(p) == '-' || IsDigit(Peek(p))
    ensures ParseValue(p) == Read(Number(ParseNumber(p).0), ParseNumber(p).1)
  {
  }

  lemma ParseEmptyArray(rest: string)
    ensures ParseValue("[]" + rest) == Read(Array([]), rest)
  {
    var p := "[]" + rest;
    assert p[1..] == "]" + rest;
    SkipNothing(p[1..]);
  }

  lemma ParseFullArray(p: string, items: seq<Json>, rest: string)
    requires Peek(Skip(p)) != ']' && ParseItems(Skip(p)) == Read(items, rest)
    ensures ParseValue("[" + p) == Read(Array(items), rest)
  {
    assert ("[" + p)[1..] == p;
  }

  lemma {:induction false} ParsePrintedArray(v: Json, depth: nat, fmt: bool, rest: string)
    requires v.Array? && Printable(v)
    ensures ParseValue(Print(v, depth, fmt) + rest) == Read(Shown(v), rest)
    decreases v, 0
  {
    if v.items == [] {
      ParseEmptyArray(rest);
    } else {
      var p := PrintItems(v.items, depth + 1, fmt);
      ItemsStart(v.items, depth + 1, fmt, rest);
      ParsePrintedItems(v.items, depth + 1, fmt, rest);
      ParseFullArray(p + rest, ShownItems(v.items), rest);
      Associative("[", p, rest);
    }
  }

  // The printed elements do not start with the closing bracket.
  lemma ItemsStart(items: seq<Json>, depth: nat, fmt: bool, rest: string)
    requires items != []
    ensures Peek(Skip(PrintItems(items, depth, fmt) + rest)) != ']'
  {
    PrintItemsSplit(items, depth, fmt, rest);
    SkipPrinted(items[0], depth, fmt, ItemsAfter(items, depth, fmt, rest));
    PrintStart(items[0], depth, fmt);
  }

  // The last element and the closing bracket.
  lemma ParseItemsLast(p: string, items: seq<Json>, rest: string, end: string)
    requires |items| == 1 && ParseValue(Skip(p)) == Read(items[0], rest) && Skip(rest) == "]" + end
    ensures ParseItems(Skip(p)) == Read(items, end)
  {
    SkipTwice(p);
    assert [items[0]] == items;
    assert ("]" + end)[1..] == end;
  }

  lemma ParseItemsComma(p: string, v: Json, rest: string)
    requires ParseValue(Skip(p)) == Read(v, rest) && Peek(Skip(rest)) == ','
    ensures var more := ParseItems(Skip(rest)[1..]);
      ParseItems(p) == if more.Read? then Read([v] + more.value, more.rest) else more
  {
  }

  // An element, a comma and the other elements.
  lemma ParseItemsMore(p: string, items: seq<Json>, rest: string, end: string)
    requires |items| > 1 && ParseValue(Skip(p)) == Read(items[0], rest) && Peek(Skip(rest)) == ','
    requires ParseItems(Skip(Skip(rest)[1..])) == Read(items[1..], end)
    ensures ParseItems(Skip(p)) == Read(items, end)
  {
    assert [items[0]] + items[1..] == items;
    ParseItemsSkip(p);
    ParseItemsSkip(Skip(rest)[1..]);
    ParseItemsComma(p, items[0], rest);
  }

  lemma PrintItemsSplit(items: seq<Json>, depth: nat, fmt: bool, rest: string)
    requires items != []
    ensures PrintItems(items, depth, fmt) + rest == Print(items[0], depth, fmt) + ItemsAfter(items, depth, fmt, rest)
  {
    RightNested4(Print(items[0], depth, fmt), ItemSeparator(|items| > 1, fmt), PrintItems(items[1..], depth, fmt), rest);
  }

  lemma ItemsAfterStart(items: seq<Json>, depth: nat, fmt: bool, rest: string)
    requires items != []
    ensures var after := ItemsAfter(items, depth, fmt, rest);
      Skip(after) == after && EndsNumber(after) &&
      if |items| == 1 then after == "]" + rest
      else Peek(after) == ',' && after[1..] == Space(fmt, PrintItems(items[1..], depth, fmt) + rest)
  {
    var after := ItemsAfter(items, depth, fmt, rest);
    if |items| == 1 {
      assert PrintItems(items[1..], depth, fmt) == "]";
      assert after == "]" + rest;
    } else {
      var more := PrintItems(items[1..], depth, fmt) + rest;
      assert after[1..] == Space(fmt, more);
    }
    SkipNothing(after);
  }

  function Space(fmt: bool, p: string): string {
    if fmt then " " + p else p
  }

  lemma SkipSpace(p: string)
    ensures Skip(" " + p) == Skip(p)
    ensures Skip("\n" + p) == Skip(p)
    ensures Skip("\t" + p) == Skip(p)
  {
    assert (" " + p)[1..] == p && ("\n" + p)[1..] == p && ("\t" + p)[1..] == p;
  }

  function ItemsAfter(items: seq<Json>, depth: nat, fmt: bool, rest: string): string
    requires items != []
  {
    ItemSeparator(|items| > 1, fmt) + (PrintItems(items[1..], depth, fmt) + rest)
  }

  lemma {:induction false} ParsePrintedItems(items: seq<Json>, depth: nat, fmt: bool, rest: string)
    requires items != [] && PrintableItems(items)
    ensures ParseItems(Skip(PrintItems(items, depth, fmt) + rest)) == Read(ShownItems(items), rest)
    decreases items
  {
    var p := PrintItems(items, depth, fmt) + rest;
    var after := ItemsAfter(items, depth, fmt, rest);
    PrintItemsSplit(items, depth, fmt, rest);
    ItemsAfterStart(items, depth, fmt, rest);
    ParsePrinted(items[0], depth, fmt, after);
    SkipPrinted(items[0], depth, fmt, after);
    if |items| == 1 {
      ParseItemsLast(p, ShownItems(items), after, rest);
    } else {
      ParsePrintedItems(items[1..], depth, fmt, rest);
      SkipSpace(PrintItems(items[1..], depth, fmt) + rest);
      assert ShownItems(items)[1..] == ShownItems(items[1..]);
      ParseItemsMore(p, ShownItems(items), after, rest);
    }
  }

  lemma SkipPrinted(v: Json, depth: nat, fmt: bool, rest: string)
    ensures Skip(Print(v, depth, fmt) + rest) == Print(v, depth, fmt) + rest
  {
    PrintStart(v, depth, fmt);
    assert (Print(v, depth, fmt) + rest)[0] == Print(v, depth, fmt)[0];
    SkipNothing(Print(v, depth, fmt) + rest);
  }

  lemma ParseItemsSkip(p: string)
    ensures ParseItems(p) == ParseItems(Skip(p))
  {
    SkipTwice(p);
  }

  lemma ParseEmptyObject(p: string, rest: string)
    requires Skip(p) == "}" + rest
    ensures ParseValue("{" + p) == Read(Object([]), rest)
  {
    assert ("{" + p)[1..] == p;
    assert Skip(p)[1..] == rest;
  }

  lemma ParseFullObject(p: string, members: seq<Member>, rest: string)
    requires Peek(Skip(p)) == '\"' && ParseMembers(Skip(p)) == Read(members, rest)
    ensures ParseValue("{" + p) == Read(Object(members), rest)
  {
    var s := "{" + p;
    assert s[0] == '{' && s[1..] == p && Skip(p) != "" && Skip(p)[0] != '}';
    assert ParseObject(s) == Read(Object(members), rest);
  }

  lemma PrintEmptySplit(depth: nat, fmt: bool, rest: string)
    ensures Print(Object([]), depth, fmt) + rest ==
      "{" + Newline(fmt, Tabs(if fmt then depth - 1 else 0) + ("}" + rest))
  {
    if fmt {
      assert "{\n" == "{" + "\n";
      RightNested5("{", "\n", Tabs(depth - 1), "}", rest);
    } else {
      assert "{}" == "{" + "}" && "" + ("}" + rest) == "}" + rest;
      Associative("{", "}", rest);
    }
  }

  lemma SkipNewline(fmt: bool, p: string)
    ensures Skip(Newline(fmt, p)) == Skip(p)
  {
    SkipSpace(p);
  }

  lemma ParsePrintedEmpty(depth: nat, fmt: bool, rest: string)
    ensures ParseValue(Print(Object([]), depth, fmt) + rest) == Read(Object([]), rest)
  {
    var close := "}" + rest;
    var tabs := if fmt then depth - 1 else 0;
    PrintEmptySplit(depth, fmt, rest);
    SkipNewline(fmt, Tabs(tabs) + close);
    SkipTabs(tabs, close);
    SkipNothing(close);
    ParseEmptyObject(Newline(fmt, Tabs(tabs) + close), rest);
  }

  lemma PrintObjectSplit(members: seq<Member>, depth: nat, fmt: bool, rest: string)
    requires members != []
    ensures Print(Object(members), depth, fmt) + rest ==
      "{" + Newline(fmt, PrintMembers(members, depth + 1, fmt) + rest)
  {
    var q := PrintMembers(members, depth + 1, fmt);
    assert "{\n" + q + rest == "{" + ("\n" + (q + rest));
    assert "{" + q + rest == "{" + (q + rest);
  }

  lemma {:induction false} ParsePrintedObject(v: Json, depth: nat, fmt: bool, rest: string)
    requires v.Object? && Printable(v)
    ensures ParseValue(Print(v, depth, fmt) + rest) == Read(Shown(v), rest)
    decreases v, 0
  {
    if v.members == [] {
      ParsePrintedEmpty(depth, fmt, rest);
    } else {
      var q := PrintMembers(v.members, depth + 1, fmt) + rest;
      PrintObjectSplit(v.members, depth, fmt, rest);
      ParsePrintedMembers(v.members, depth + 1, fmt, rest);
      MembersStart(v.members, depth + 1, fmt, rest);
      SkipNewline(fmt, q);
      ParseFullObject(Newline(fmt, q), ShownMembers(v.members), rest);
    }
  }

  function MembersAfterName(members: seq<Member>, depth: nat, fmt: bool, rest: string): string
    requires members != []
  {
    (if fmt then ":\t" else ":") + (Print(members[0].value, depth, fmt) + MembersAfterValue(members, depth, fmt, rest))
  }

  function MembersAfterValue(members: seq<Member>, depth: nat, fmt: bool, rest: string): string
    requires members != []
  {
    MemberTail(|members| > 1, fmt) + (PrintMembers(members[1..], depth, fmt) + rest)
  }

  lemma PrintMembersSplit(members: seq<Member>, depth: nat, fmt: bool, rest: string)
    requires members != []
    ensures PrintMembers(members, depth, fmt) + rest ==
      Tabs(if fmt then depth else 0) + (StringText(members[0].name) + MembersAfterName(members, depth, fmt, rest))
  {
    var head := StringText(members[0].name);
    var mid := if fmt then ":\t" else ":";
    var value := Print(members[0].value, depth, fmt);
    var tail := MemberTail(|members| > 1, fmt);
    var more := PrintMembers(members[1..], depth, fmt);
    var tabs := Tabs(if fmt then depth else 0);
    assert PrintMembers(members, depth, fmt) == tabs + head + mid + value + tail + more;
    RightNested7(tabs, head, mid, value, tail, more, rest);
  }

  // White space before the first member is skipped up to its name's quote.
  lemma MembersStart(members: seq<Member>, depth: nat, fmt: bool, rest: string)
    requires members != []
    ensures var q := PrintMembers(members, depth, fmt) + rest;
      Skip(q) == StringText(members[0].name) + MembersAfterName(members, depth, fmt, rest) &&
      Peek(Skip(q)) == '\"' && Skip(Skip(q)) == Skip(q)
  {
    var named := StringText(members[0].name) + MembersAfterName(members, depth, fmt, rest);
    PrintMembersSplit(members, depth, fmt, rest);
    SkipTabs(if fmt then depth else 0, named);
    SkipNothing(named);
  }

  lemma ParseMemberStep(name: string, p: string, v: Json, rest: string)
    requires NulFree(name) && Peek(p) == ':' && ParseValue(Skip(p[1..])) == Read(v, rest)
    ensures ParseMember(StringText(name) + p) == Read(Member(name, v), rest)
  {
    ParsePrintedString(name, p);
    SkipNothing(p);
    SkipNothing(StringText(name) + p);
  }

  lemma {:induction false} ParsePrintedMember(members: seq<Member>, depth: nat, fmt: bool, rest: string)
    requires members != [] && PrintableMembers(members)
    ensures ParseMember(Skip(PrintMembers(members, depth, fmt) + rest)) ==
      Read(ShownMembers(members)[0], MembersAfterValue(members, depth, fmt, rest))
    decreases members, 0
  {
    var m := members[0];
    var end := MembersAfterValue(members, depth, fmt, rest);
    MembersStart(members, depth, fmt, rest);
    MemberEnd(members, depth, fmt, rest);
    AfterColon(fmt, Print(m.value, depth, fmt) + end);
    SkipPrinted(m.value, depth, fmt, end);
    ParsePrinted(m.value, depth, fmt, end);
    ParseMemberStep(m.name, MembersAfterName(members, depth, fmt, rest), Shown(m.value), end);
  }

  lemma AfterColon(fmt: bool, p: string)
    ensures var q := (if fmt then ":\t" else ":") + p; Peek(q) == ':' && Skip(q[1..]) == Skip(p)
  {
    var q := (if fmt then ":\t" else ":") + p;
    assert q[1..] == if fmt then "\t" + p else p;
    SkipSpace(p);
  }

  // After a member's value: a comma and the next member, or the closing brace.
  lemma MemberEnd(members: seq<Member>, depth: nat, fmt: bool, rest: string)
    requires members != []
    ensures var end := MembersAfterValue(members, depth, fmt, rest);
      EndsNumber(end) &&
      if |members| > 1 then
        Skip(end) == end && Peek(end) == ',' && end[1..] == Newline(fmt, PrintMembers(members[1..], depth, fmt) + rest)
      else Skip(end) == "}" + rest
  {
    if |members| > 1 {
      var more := Newline(fmt, PrintMembers(members[1..], depth, fmt) + rest);
      TailBefore(true, fmt, PrintMembers(members[1..], depth, fmt) + rest);
      CommaFirst("," + more, more);
    } else {
      assert members[1..] == [];
      TailBefore(false, fmt, PrintMembers([], depth, fmt) + rest);
      MemberLast(depth, fmt, rest);
    }
  }

  lemma TailBefore(more: bool, fmt: bool, p: string)
    ensures MemberTail(more, fmt) + p == (if more then "," else "") + Newline(fmt, p)
  {
    assert "," + "\n" == ",\n" && "" + "\n" == "\n" && "," + "" == ",";
    Associative(if more then "," else "", if fmt then "\n" else "", p);
    assert "" + p == p;
  }

  lemma CommaFirst(end: string, more: string)
    requires end == "," + more
    ensures EndsNumber(end) && Skip(end) == end && Peek(end) == ',' && end[1..] == more
  {
    SkipNothing(end);
  }

  function Newline(fmt: bool, p: string): string {
    if fmt then "\n" + p else p
  }

  lemma MemberLast(depth: nat, fmt: bool, rest: string)
    ensures var end := Newline(fmt, PrintMembers([], depth, fmt) + rest);
      EndsNumber(end) && Skip(end) == "}" + rest
  {
    var close := "}" + rest;
    SkipNothing(close);
    SkipTabs(depth - 1, close);
    SkipSpace(Tabs(depth - 1) + close);
    ClosingBrace(depth, fmt, rest);
  }

  lemma ClosingBrace(depth: nat, fmt: bool, rest: string)
    ensures PrintMembers([], depth, fmt) + rest == if fmt then Tabs(depth - 1) + ("}" + rest) else "}" + rest
  {
    if fmt { Associative(Tabs(depth - 1), "}", rest); }
  }

  // The last member and the closing brace.
  lemma ParseMembersLast(p: string, members: seq<Member>, rest: string, end: string)
    requires |members| == 1 && ParseMember(p) == Read(members[0], rest) && Skip(rest) == "}" + end
    ensures ParseMembers(p) == Read(members, end)
  {
    assert [members[0]] == members;
    assert ("}" + end)[1..] == end;
  }

  // A member, a comma and the other members.
  lemma ParseMembersMore(p: string, members: seq<Member>, rest: string, end: string)
    requires |members| > 1 && ParseMember(p) == Read(members[0], rest) && Peek(Skip(rest)) == ','
    requires ParseMembers(Skip(Skip(rest)[1..])) == Read(members[1..], end)
    ensures ParseMembers(p) == Read(members, end)
  {
    assert [members[0]] + members[1..] == members;
    ParseMembersSkip(Skip(rest)[1..]);
    ParseMembersComma(p, members[0], rest);
  }

  lemma ParseMembersComma(p: string, m: Member, rest: string)
    requires ParseMember(p) == Read(m, rest) && Peek(Skip(rest)) == ','
    ensures var more := ParseMembers(Skip(rest)[1..]);
      ParseMembers(p) == if more.Read? then Read([m] + more.value, more.rest) else more
  {
  }

  lemma {:induction false} ParsePrintedMembers(members: seq<Member>, depth: nat, fmt: bool, rest: string)
    requires members != [] && PrintableMembers(members)
    ensures ParseMembers(Skip(PrintMembers(members, depth, fmt) + rest)) == Read(ShownMembers(members), rest)
    decreases members, 1
  {
    var q := PrintMembers(members, depth, fmt) + rest;
    var end := MembersAfterValue(members, depth, fmt, rest);
    ParsePrintedMember(members, depth, fmt, rest);
    MemberEnd(members, depth, fmt, rest);
    if |members| == 1 {
      ParseMembersLast(Skip(q), ShownMembers(members), end, rest);
    } else {
      ParsePrintedMembers(members[1..], depth, fmt, rest);
      SkipNewline(fmt, PrintMembers(members[1..], depth, fmt) + rest);
      assert ShownMembers(members)[1..] == ShownMembers(members[1..]);
      ParseMembersMore(Skip(q), ShownMembers(members), end, rest);
    }
  }

  lemma ParseMembersSkip(p: string)
    ensures ParseMembers(p) == ParseMembers(Skip(p))
  {
    SkipTwice(p);
    assert ParseMember(p) == ParseMember(Skip(p));
  }

  lemma {:induction false} SkipTwice(p: string)
    ensures Skip(Skip(p)) == Skip(p)
  {
    if p != "" && '\0' < p[0] <= ' ' { SkipTwice(p[1..]); }
  }

  // cJSON_Parse of cJSON_Print or cJSON_PrintUnformatted, requiring the end of the text or not.
  lemma ParsePrint(v: Json, fmt: bool, requireEnd: bool)
    requires Printable(v)
    ensures Parse(Print(v, 0, fmt), requireEnd) == Read(Shown(v), "")
    ensures Parse(Print(v, 0, fmt), requireEnd) == Read(v, "") <==> Shown(v) == v
  {
    var p := Print(v, 0, fmt);
    assert p + "" == p;
    ParsePrinted(v, 0, fmt, "");
    PrintStart(v, 0, fmt);
    SkipNothing(p);
  }

  // Two trees that print to the same text are the same tree, as printed.
  lemma PrintInjective(v: Json, w: Json, fmt: bool, fmt': bool)
    requires Printable(v) && Printable(w)
    requires Print(v, 0, fmt) == Print(w, 0, fmt')
    ensures Shown(v) == Shown(w)
  {
    ParsePrint(v, fmt, true);
    ParsePrint(w, fmt', true);
  }
}
