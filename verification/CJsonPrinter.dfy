/** The allocating printer: each text is composed from its parts in a buffer whose size was computed
    beforehand. Every write is an array write, so it is proved to stay inside that size. */
module CJsonPrinter {
  import opened Sequences
  import opened CString
  import opened CJsonText
  import opened CJsonSizes
  import P = CJsonParser

  // A NUL-terminated text at the start of a buffer.
  ghost predicate Holds(out: array<char>, s: string)
    reads out
  {
    |s| < out.Length && out[..|s|] == s && out[|s|] == '\0'
  }

  // strlen
  method StrLen(a: array<char>, ghost s: string) returns (n: nat)
    requires Holds(a, s) && NulFree(s)
    ensures n == |s|
  {
    n := 0;
    assert forall i :: 0 <= i < |s| ==> a[i] == s[i];
    while a[n] != '\0'
      invariant n <= |s|
      decreases |s| - n
    {
      n := n + 1;
    }
  }

  // Writes characters from `ptr` on.
  method Put(out: array<char>, ptr: nat, s: string)
    requires ptr + |s| <= out.Length
    modifies out
    ensures out[..ptr + |s|] == old(out[..ptr]) + s
  {
    var i := 0;
    while i < |s|
      invariant i <= |s| && out[..ptr + i] == old(out[..ptr]) + s[..i]
    {
      out[ptr + i] := s[i];
      i := i + 1;
      assert out[..ptr + i] == out[..ptr + i - 1] + [s[i - 1]];
    }
  }

  // strlen of a text, memcpy of it, and the pointer moved past it.
  method CopyText(out: array<char>, ptr: nat, from: array<char>, ghost s: string) returns (end: nat)
    requires from != out && Holds(from, s) && NulFree(s) && ptr + |s| <= out.Length
    modifies out
    ensures end == ptr + |s| && out[..end] == old(out[..ptr]) + s
  {
    var n := StrLen(from, s);
    Put(out, ptr, from[..n]);
    end := ptr + n;
  }

  lemma {:induction false} EscapePlain(s: string)
    requires forall c <- s :: !NeedsEscape(c)
    ensures Escape(s) == s
  {
    if s != "" {
      EscapePlain(s[1..]);
      assert s == [s[0]] + s[1..];
    }
  }

  // print_string_ptr: the buffer is filled exactly.
  method PrintString(str: string) returns (out: array<char>)
    ensures fresh(out) && out[..] == StringText(str) + ['\0']
  {
    var flag, i := false, 0;
    while i < |str|
      invariant i <= |str| && (!flag ==> forall c <- str[..i] :: !NeedsEscape(c))
    {
      flag := flag || NeedsEscape(str[i]);
      i := i + 1;
    }
    if !flag {
      assert str[..i] == str;
      EscapePlain(str);
      out := new char[|str| + 3];
      PutPlain(out, str);
    } else {
      var len := EscapedLength(str);
      out := new char[len + 3];
      PutEscaped(out, 0, str);
      assert out[..] == out[..len + 2] + ['\0'];
    }
  }

  // A quote, the text, a quote and the terminator.
  method PutPlain(out: array<char>, str: string)
    requires out.Length == |str| + 3
    modifies out
    ensures out[..] == "\"" + str + "\"" + ['\0']
  {
    out[0] := '\"';
    assert out[..1] == "\"";
    Put(out, 1, str);
    out[|str| + 1] := '\"';
    out[|str| + 2] := '\0';
    assert out[..] == out[..1 + |str|] + ['\"', '\0'];
  }

  // The escaping loop, between its quotes.
  method PutEscaped(out: array<char>, at: nat, str: string)
    requires at + |Escape(str)| + 3 <= out.Length
    modifies out
    ensures out[..at + |StringText(str)|] == old(out[..at]) + StringText(str)
    ensures out[at + |StringText(str)|] == '\0'
  {
    ghost var before := out[..at];
    out[at] := '\"';
    assert out[..at + 1] == before + "\"";
    var ptr := EscapeLoop(out, at + 1, str);
    ghost var text := out[..ptr];
    out[ptr], out[ptr + 1] := '\"', '\0';
    assert out[..ptr + 1] == text + "\"";
    Quoted(before, Escape(str));
  }

  lemma Quoted(before: string, s: string)
    ensures before + "\"" + s + "\"" == before + ("\"" + s + "\"")
  {
  }

  method EscapeLoop(out: array<char>, start: nat, str: string) returns (ptr: nat)
    requires start + |Escape(str)| + 1 < out.Length
    modifies out
    ensures ptr == start + |Escape(str)| && out[..ptr] == old(out[..start]) + Escape(str)
  {
    var i := 0;
    ptr := start;
    ghost var text := out[..start] + Escape(str);
    assert str[0..] == str;
    while i < |str|
      invariant 0 <= i <= |str| && start <= ptr && ptr + |Escape(str[i..])| == start + |Escape(str)|
      invariant out[..ptr] + Escape(str[i..]) == text
    {
      ptr := EscapeNth(out, ptr, str, i, text);
      i := i + 1;
    }
    assert out[..ptr] + "" == out[..ptr];
  }

  method EscapeNth(out: array<char>, start: nat, str: string, i: nat, ghost text: string) returns (ptr: nat)
    requires i < |str| && start + |Escape(str[i..])| + 1 < out.Length && out[..start] + Escape(str[i..]) == text
    modifies out
    ensures ptr + |Escape(str[i + 1..])| == start + |Escape(str[i..])| && start <= ptr
    ensures out[..ptr] + Escape(str[i + 1..]) == text
  {
    EscapeFrom(str, i);
    Associative(out[..start], EscapeChar(str[i]), Escape(str[i + 1..]));
    PutChar(out, start, str[i]);
    ptr := start + |EscapeChar(str[i])|;
  }

  lemma EscapeFrom(str: string, i: nat)
    requires i < |str|
    ensures Escape(str[i..]) == EscapeChar(str[i]) + Escape(str[i + 1..])
  {
    assert str[i..][1..] == str[i + 1..];
  }

  // The size loop of print_string_ptr.
  method EscapedLength(str: string) returns (len: nat)
    ensures len == |Escape(str)|
  {
    len := 0;
    var i := 0;
    assert str[0..] == str;
    while i < |str|
      invariant i <= |str| && len + |Escape(str[i..])| == |Escape(str)|
    {
      assert str[i..][1..] == str[i + 1..];
      var token := str[i];
      len := len + 1;
      if token in {'\"', '\\', BACKSPACE, FORM_FEED, '\n', '\r', '\t'} { len := len + 1; }
      else if token < ' ' { len := len + 5; }
      i := i + 1;
    }
  }

  // One turn of the escaping loop; sprintf also writes a NUL after the digits.
  method PutChar(out: array<char>, ptr: nat, c: char)
    requires ptr + |EscapeChar(c)| + 1 < out.Length
    modifies out
    ensures out[..ptr + |EscapeChar(c)|] == old(out[..ptr]) + EscapeChar(c)
  {
    if c >= ' ' && c != '\"' && c != '\\' {
      out[ptr] := c;
      assert out[..ptr + 1] == out[..ptr] + [c];
      return;
    }
    ghost var e := EscapeChar(c);
    out[ptr] := '\\';
    ghost var at := out[..ptr + 1];
    assert at == old(out[..ptr]) + "\\";
    if c == '\\' || c == '\"' { out[ptr + 1] := c; }
    else if c == BACKSPACE { out[ptr + 1] := 'b'; }
    else if c == FORM_FEED { out[ptr + 1] := 'f'; }
    else if c == '\n' { out[ptr + 1] := 'n'; }
    else if c == '\r' { out[ptr + 1] := 'r'; }
    else if c == '\t' { out[ptr + 1] := 't'; }
    else {
      PutHex(out, ptr + 1, c);
      return;
    }
    assert out[..ptr + 2] == at + [out[ptr + 1]];
    assert e == ['\\', out[ptr + 1]];
  }

  // strcpy of a literal into a buffer of its own
  method StrDup(s: string, size: nat) returns (out: array<char>)
    requires |s| < size
    ensures fresh(out) && Holds(out, s)
  {
    out := new char[size];
    Put(out, 0, s);
    out[|s|] := '\0';
    assert out[..|s|] == s;
  }

  // A printed string as a NUL-terminated text.
  method PrintName(s: string) returns (out: array<char>)
    ensures fresh(out) && Holds(out, StringText(s))
  {
    out := PrintString(s);
    assert out[..|StringText(s)|] == out[..][..|StringText(s)|];
    assert out[|StringText(s)|] == out[..][|StringText(s)|];
  }

  // print_number
  method PrintNumber(item: P.Item) returns (out: array<char>)
    requires Finite(item.valuedouble) && item.valueint == Truncate(item.valuedouble)
    ensures fresh(out) && Holds(out, NumberText(item.valuedouble))
  {
    var d := item.valuedouble;
    NumberTextShort(d);
    if d == 0.0 {
      out := StrDup("0", 2);
    } else if Abs(item.valueint as real - d) <= EPSILON && INT_MIN as real <= d <= INT_MAX as real {
      out := StrDup(IntText(item.valueint), 21);
    } else {
      out := StrDup(FloatText(d), 64);
    }
  }

  // print_value
  method PrintValue(item: P.Item, depth: nat, fmt: bool, ghost nodes: set<P.Item>) returns (out: array<char>)
    requires item in nodes && P.Sound(nodes) && Printable(item.tree)
    ensures fresh(out) && Holds(out, Print(item.tree, depth, fmt))
    decreases item.tree, 3
  {
    match item.kind
    case Null => out := StrDup("null", 5);
    case False => out := StrDup("false", 6);
    case True => out := StrDup("true", 5);
    case Number => out := PrintNumber(item);
    case String => out := PrintName(item.valuestring.s);
    case Array => out := PrintArray(item, depth, fmt, nodes);
    case Object => out := PrintObject(item, depth, fmt, nodes);
  }

  // The children are counted along their chain.
  method CountChildren(item: P.Item, ghost nodes: set<P.Item>) returns (n: nat)
    requires item in nodes && P.Sound(nodes)
    ensures n == |item.kids|
  {
    n := 0;
    var child := item.child;
    while child != null
      invariant n <= |item.kids| && child == At(item.kids, n)
      decreases |item.kids| - n
    {
      n, child := n + 1, child.next;
    }
  }

  // The k-th node of a chain, or the null that ends it.
  ghost function At(chain: seq<P.Item>, k: nat): P.Item? {
    if k < |chain| then chain[k] else null
  }

  // The texts of the first elements, each in a buffer of its own.
  ghost predicate Entries(entries: seq<array<char>>, items: seq<Json>, depth: nat, fmt: bool)
    reads entries
  {
    |entries| <= |items| && forall k :: 0 <= k < |entries| ==> Holds(entries[k], Print(items[k], depth, fmt))
  }

  method PrintArray(item: P.Item, depth: nat, fmt: bool, ghost nodes: set<P.Item>) returns (out: array<char>)
    requires item in nodes && P.Sound(nodes) && Printable(item.tree) && item.tree.Array?
    ensures fresh(out) && Holds(out, Print(item.tree, depth, fmt))
    decreases item.tree, 2
  {
    var numentries := CountChildren(item, nodes);
    if numentries == 0 {
      out := StrDup("[]", 3);
      return;
    }
    var entries, len := PrintEntries(item, depth + 1, fmt, nodes);
    out := new char[len];
    ComposeArray(out, entries, item.tree.items, depth + 1, fmt);
  }

  // A value's text and its length.
  method PrintMeasured(item: P.Item, depth: nat, fmt: bool, ghost nodes: set<P.Item>) returns (ret: array<char>, n: nat)
    requires item in nodes && P.Sound(nodes) && Printable(item.tree)
    ensures fresh(ret) && Holds(ret, Print(item.tree, depth, fmt)) && n == |Print(item.tree, depth, fmt)|
    decreases item.tree, 4
  {
    PrintNulFree(item.tree, depth, fmt);
    ret := PrintValue(item, depth, fmt, nodes);
    n := StrLen(ret, Print(item.tree, depth, fmt));
  }

  lemma ExtendEntries(entries: seq<array<char>>, ret: array<char>, items: seq<Json>, depth: nat, fmt: bool)
    requires Entries(entries, items, depth, fmt) && |entries| < |items|
    requires Holds(ret, Print(items[|entries|], depth, fmt))
    ensures Entries(entries + [ret], items, depth, fmt)
  {
  }

  // Retrieves all the results, and sizes the output.
  method PrintEntries(item: P.Item, depth: nat, fmt: bool, ghost nodes: set<P.Item>)
    returns (entries: seq<array<char>>, len: nat)
    requires item in nodes && P.Sound(nodes) && Printable(item.tree) && item.tree.Array?
    ensures |entries| == |item.tree.items| && Entries(entries, item.tree.items, depth, fmt)
    ensures len >= |PrintItems(item.tree.items, depth, fmt)| + 4
    decreases item.tree, 1
  {
    ghost var items := item.tree.items;
    entries, len := [], 5;
    var child := item.child;
    assert items[0..] == items;
    while child != null
      invariant |entries| <= |items| == |item.kids| && child == At(item.kids, |entries|)
      invariant Entries(entries, items, depth, fmt)
      invariant len + |PrintItems(items[|entries|..], depth, fmt)| >= 5 + |PrintItems(items, depth, fmt)|
      decreases |items| - |entries|
    {
      LengthFrom(items, |entries|, depth, fmt);
      var n;
      entries, n, child := AddEntry(entries, child, item, depth, fmt, nodes);
      len := len + n + 2 + (if fmt then 1 else 0);
    }
  }

  lemma LengthFrom(items: seq<Json>, k: nat, depth: nat, fmt: bool)
    requires k < |items|
    ensures |PrintItems(items[k..], depth, fmt)| <=
      |Print(items[k], depth, fmt)| + 2 + (if fmt then 1 else 0) + |PrintItems(items[k + 1..], depth, fmt)|
  {
    PrintItemsFrom(items, k, depth, fmt);
  }

  // One more element: its text is added to those before it.
  method AddEntry(entries: seq<array<char>>, child: P.Item, ghost item: P.Item, depth: nat, fmt: bool,
      ghost nodes: set<P.Item>) returns (more: seq<array<char>>, n: nat, next: P.Item?)
    requires item in nodes && P.Sound(nodes) && Printable(item.tree) && item.tree.Array?
    requires |entries| < |item.kids| && child == item.kids[|entries|] && Entries(entries, item.tree.items, depth, fmt)
    ensures |more| == |entries| + 1 && Entries(more, item.tree.items, depth, fmt)
    ensures n == |Print(item.tree.items[|entries|], depth, fmt)| && next == At(item.kids, |entries| + 1)
    decreases item.tree, 0, 1
  {
    var ret;
    ret, n, next := PrintElement(child, item, |entries|, depth, fmt, nodes);
    ExtendEntries(entries, ret, item.tree.items, depth, fmt);
    more := entries + [ret];
  }

  // The text of the k-th element, its length, and the next element.
  method PrintElement(child: P.Item, ghost item: P.Item, ghost k: nat, depth: nat, fmt: bool, ghost nodes: set<P.Item>)
    returns (ret: array<char>, n: nat, next: P.Item?)
    requires item in nodes && P.Sound(nodes) && Printable(item.tree) && item.tree.Array?
    requires k < |item.kids| && child == item.kids[k]
    ensures fresh(ret) && Holds(ret, Print(item.tree.items[k], depth, fmt)) && n == |Print(item.tree.items[k], depth, fmt)|
    ensures next == At(item.kids, k + 1)
    decreases item.tree, 0, 0
  {
    PrintableItem(item.tree.items, k);
    assert child in P.Nodes(item.kids);
    ret, n := PrintMeasured(child, depth, fmt, nodes);
    next := child.next;
  }

  // Composes the output array.
  method ComposeArray(out: array<char>, entries: seq<array<char>>, ghost items: seq<Json>, ghost depth: nat, fmt: bool)
    requires |entries| == |items| > 0 && PrintableItems(items) && Entries(entries, items, depth, fmt) && out !in entries
    requires out.Length >= |PrintItems(items, depth, fmt)| + 4
    modifies out
    ensures Holds(out, "[" + PrintItems(items, depth, fmt))
  {
    ghost var text := "[" + PrintItems(items, depth, fmt);
    out[0] := '[';
    var ptr, i := 1, 0;
    out[ptr] := '\0';
    assert out[..1] == "[" && items[0..] == items;
    while i < |entries|
      invariant i <= |items| && 1 <= ptr < out.Length && Entries(entries, items, depth, fmt)
      invariant out[..ptr] + PrintItems(items[i..], depth, fmt) == text
    {
      ptr := ComposeItem(out, ptr, entries, items, i, depth, fmt, text);
      i := i + 1;
    }
    CloseArray(out, ptr);
  }

  // The closing bracket and the terminator.
  method CloseArray(out: array<char>, ptr: nat)
    requires ptr + 1 < out.Length
    modifies out
    ensures Holds(out, old(out[..ptr]) + "]")
  {
    out[ptr], out[ptr + 1] := ']', '\0';
    assert out[..ptr + 1] == out[..ptr] + "]";
  }

  // The i-th element, of what is still to be written.
  method ComposeItem(out: array<char>, start: nat, entries: seq<array<char>>, ghost items: seq<Json>, i: nat,
      ghost depth: nat, fmt: bool, ghost text: string) returns (ptr: nat)
    requires i < |entries| == |items| && PrintableItems(items) && Entries(entries, items, depth, fmt) && out !in entries
    requires 1 <= start < out.Length && out[..start] + PrintItems(items[i..], depth, fmt) == text && |text| + 1 < out.Length
    modifies out
    ensures 1 <= ptr < out.Length && out[..ptr] + PrintItems(items[i + 1..], depth, fmt) == text
    ensures Entries(entries, items, depth, fmt)
  {
    ghost var e, more := Print(items[i], depth, fmt), PrintItems(items[i + 1..], depth, fmt);
    PrintableItem(items, i);
    PrintNulFree(items[i], depth, fmt);
    PrintItemsFrom(items, i, depth, fmt);
    Behind3(out[..start], e, ItemSeparator(i + 1 < |items|, fmt), more);
    ptr := CopyText(out, start, entries[i], e);
    ptr := ComposeSeparator(out, ptr, i != |entries| - 1, fmt);
  }

  // The separator, behind every element but the last.
  method ComposeSeparator(out: array<char>, start: nat, more: bool, fmt: bool) returns (ptr: nat)
    requires start + |ItemSeparator(more, fmt)| < out.Length
    modifies out
    ensures ptr == start + |ItemSeparator(more, fmt)|
    ensures out[..ptr] == old(out[..start]) + ItemSeparator(more, fmt)
  {
    ptr := start;
    if more {
      Put(out, ptr, if fmt then ", " else ",");
      ptr := ptr + if fmt then 2 else 1;
      ghost var kept := out[..ptr];
      out[ptr] := '\0';
      assert out[..ptr] == kept;
    }
  }

  method PrintObject(item: P.Item, depth: nat, fmt: bool, ghost nodes: set<P.Item>) returns (out: array<char>)
    requires item in nodes && P.Sound(nodes) && Printable(item.tree) && item.tree.Object?
    ensures fresh(out) && Holds(out, Print(item.tree, depth, fmt))
    decreases item.tree, 2
  {
    var numentries := CountChildren(item, nodes);
    if numentries == 0 {
      out := EmptyObject(depth, fmt);
      return;
    }
    var names, entries, len := PrintPairs(item, depth + 1, fmt, nodes);
    out := FullObject(names, entries, len, item.tree.members, depth, fmt);
  }

  // An object with members, from the texts of its names and values.
  method FullObject(names: seq<array<char>>, entries: seq<array<char>>, len: nat, ghost members: seq<Member>,
      depth: nat, fmt: bool) returns (out: array<char>)
    requires |names| == |entries| == |members| > 0 && PrintableMembers(members)
    requires Names(names, members) && Values(entries, members, depth + 1, fmt)
    requires len == 7 + (if fmt then depth + 1 else 0) + CountedSize(members, |members|, depth + 1, fmt)
    ensures fresh(out) && Holds(out, Print(Object(members), depth, fmt))
  {
    RoomForAll(members, len, depth + 1, fmt);
    ObjectSplit(members, depth, fmt);
    out := new char[len];
    ComposeObject(out, names, entries, members, depth + 1, fmt);
  }

  lemma RoomForAll(members: seq<Member>, len: nat, depth: nat, fmt: bool)
    requires len == 7 + (if fmt then depth else 0) + CountedSize(members, |members|, depth, fmt)
    ensures len >= |PrintMembers(members, depth, fmt)| + 4
  {
    CountedCovers(members, |members|, depth, fmt);
  }

  lemma ObjectSplit(members: seq<Member>, depth: nat, fmt: bool)
    requires members != []
    ensures Print(Object(members), depth, fmt) == (if fmt then "{\n" else "{") + PrintMembers(members, depth + 1, fmt)
  {
  }

  // The empty object: with formatting, its closing brace is on a line of its own.
  method EmptyObject(depth: nat, fmt: bool) returns (out: array<char>)
    ensures fresh(out) && Holds(out, Print(Object([]), depth, fmt))
  {
    out := new char[if fmt then depth + 4 else 3];
    out[0] := '{';
    var ptr := 1;
    if fmt {
      out[1] := '\n';
      assert out[..2] == "{\n";
      Put(out, 2, Tabs(depth - 1));
      ptr := 2 + |Tabs(depth - 1)|;
    }
    out[ptr], out[ptr + 1] := '}', '\0';
    assert out[..ptr + 1] == out[..ptr] + "}";
  }

  // The texts of the first names.
  ghost predicate Names(names: seq<array<char>>, members: seq<Member>)
    reads names
  {
    |names| <= |members| && forall k :: 0 <= k < |names| ==> Holds(names[k], StringText(members[k].name))
  }

  // The texts of the first values.
  ghost predicate Values(entries: seq<array<char>>, members: seq<Member>, depth: nat, fmt: bool)
    reads entries
  {
    |entries| <= |members| && forall k :: 0 <= k < |entries| ==> Holds(entries[k], Print(members[k].value, depth, fmt))
  }

  // A name's text and its length.
  method PrintMeasuredName(s: string) returns (str: array<char>, n: nat)
    requires NulFree(s)
    ensures fresh(str) && Holds(str, StringText(s)) && n == |StringText(s)|
  {
    StringTextNulFree(s);
    str := PrintName(s);
    n := StrLen(str, StringText(s));
  }

  // The size counted for the first `k` members.
  ghost function CountedSize(members: seq<Member>, k: nat, depth: nat, fmt: bool): nat
    requires k <= |members|
  {
    if k == 0 then 0
    else CountedSize(members, k - 1, depth, fmt) + PairSize(members[k - 1], depth, fmt) + 2 + if fmt then 2 + depth else 0
  }

  ghost function PairSize(m: Member, depth: nat, fmt: bool): nat {
    |StringText(m.name)| + |Print(m.value, depth, fmt)|
  }

  // It covers their text.
  lemma {:induction false} CountedCovers(members: seq<Member>, k: nat, depth: nat, fmt: bool)
    requires k <= |members|
    ensures CountedSize(members, k, depth, fmt) + |PrintMembers(members[k..], depth, fmt)| >= |PrintMembers(members, depth, fmt)|
  {
    if k > 0 {
      PrintMembersFrom(members, k - 1, depth, fmt);
      CountedCovers(members, k - 1, depth, fmt);
    } else {
      assert members[0..] == members;
    }
  }

  lemma ExtendPairs(names: seq<array<char>>, str: array<char>, entries: seq<array<char>>, ret: array<char>,
      members: seq<Member>, depth: nat, fmt: bool)
    requires |names| == |entries| < |members| && Names(names, members) && Values(entries, members, depth, fmt)
    requires Holds(str, StringText(members[|names|].name)) && Holds(ret, Print(members[|names|].value, depth, fmt))
    ensures Names(names + [str], members) && Values(entries + [ret], members, depth, fmt)
  {
  }

  // Collects all the names and values, and sizes the output; `depth` is one more than the object's.
  method PrintPairs(item: P.Item, depth: nat, fmt: bool, ghost nodes: set<P.Item>)
    returns (names: seq<array<char>>, entries: seq<array<char>>, len: nat)
    requires item in nodes && P.Sound(nodes) && Printable(item.tree) && item.tree.Object?
    ensures |names| == |entries| == |item.tree.members|
    ensures Names(names, item.tree.members) && Values(entries, item.tree.members, depth, fmt)
    ensures len == 7 + (if fmt then depth else 0) + CountedSize(item.tree.members, |item.tree.members|, depth, fmt)
    decreases item.tree, 1
  {
    ghost var members := item.tree.members;
    names, entries, len := [], [], 7;
    if fmt { len := len + depth; }
    var child := item.child;
    while child != null
      invariant |names| == |entries| <= |members| == |item.kids| && child == At(item.kids, |entries|)
      invariant Names(names, members) && Values(entries, members, depth, fmt)
      invariant len == 7 + (if fmt then depth else 0) + CountedSize(members, |entries|, depth, fmt)
      decreases |members| - |entries|
    {
      var n;
      names, entries, n, child := AddPair(child, item, names, entries, depth, fmt, nodes);
      len := len + n + 2 + (if fmt then 2 + depth else 0);
    }
  }

  // The next name and value join those printed so far.
  method AddPair(child: P.Item, ghost item: P.Item, names: seq<array<char>>, entries: seq<array<char>>, depth: nat,
      fmt: bool, ghost nodes: set<P.Item>)
    returns (names': seq<array<char>>, entries': seq<array<char>>, n: nat, next: P.Item?)
    requires item in nodes && P.Sound(nodes) && Printable(item.tree) && item.tree.Object?
    requires |names| == |entries| < |item.kids| == |item.tree.members| && child == item.kids[|entries|]
    requires Names(names, item.tree.members) && Values(entries, item.tree.members, depth, fmt)
    ensures |names'| == |entries'| == |entries| + 1 && n == PairSize(item.tree.members[|entries|], depth, fmt)
    ensures Names(names', item.tree.members) && Values(entries', item.tree.members, depth, fmt)
    ensures next == At(item.kids, |entries'|)
    decreases item.tree, 0, 1
  {
    var str, ret;
    str, ret, n, next := PrintPair(child, item, |entries|, depth, fmt, nodes);
    ExtendPairs(names, str, entries, ret, item.tree.members, depth, fmt);
    names', entries' := names + [str], entries + [ret];
  }

  // The texts of the k-th name and value, their lengths together, and the next member.
  method PrintPair(child: P.Item, ghost item: P.Item, ghost k: nat, depth: nat, fmt: bool, ghost nodes: set<P.Item>)
    returns (str: array<char>, ret: array<char>, n: nat, next: P.Item?)
    requires item in nodes && P.Sound(nodes) && Printable(item.tree) && item.tree.Object?
    requires k < |item.kids| && child == item.kids[k]
    ensures fresh(str) && fresh(ret) && Holds(str, StringText(item.tree.members[k].name))
    ensures Holds(ret, Print(item.tree.members[k].value, depth, fmt))
    ensures n == PairSize(item.tree.members[k], depth, fmt)
    ensures next == At(item.kids, k + 1)
    decreases item.tree, 0, 0
  {
    PrintableMember(item.tree.members, k);
    assert child in P.Nodes(item.kids);
    var l, m;
    str, l := PrintMeasuredName(child.name.s);
    ret, m := PrintMeasured(child, depth, fmt, nodes);
    n, next := l + m, child.next;
  }

  // Composes the output.
  method ComposeObject(out: array<char>, names: seq<array<char>>, entries: seq<array<char>>,
      ghost members: seq<Member>, depth: nat, fmt: bool)
    requires |names| == |entries| == |members| > 0 && PrintableMembers(members)
    requires Names(names, members) && Values(entries, members, depth, fmt) && out !in entries && out !in names
    requires out.Length >= |PrintMembers(members, depth, fmt)| + 4
    modifies out
    ensures Holds(out, (if fmt then "{\n" else "{") + PrintMembers(members, depth, fmt))
  {
    ghost var text := (if fmt then "{\n" else "{") + PrintMembers(members, depth, fmt);
    var ptr := ComposeOpen(out, fmt);
    ptr := ComposeMembers(out, ptr, names, entries, members, depth, fmt, text);
    ComposeClose(out, ptr, depth, fmt);
  }

  // The member loop.
  method ComposeMembers(out: array<char>, start: nat, names: seq<array<char>>, entries: seq<array<char>>,
      ghost members: seq<Member>, depth: nat, fmt: bool, ghost text: string) returns (ptr: nat)
    requires |names| == |entries| == |members| && PrintableMembers(members)
    requires Names(names, members) && Values(entries, members, depth, fmt) && out !in entries && out !in names
    requires start < out.Length && out[..start] + PrintMembers(members, depth, fmt) == text && |text| < out.Length
    modifies out
    ensures ptr < out.Length && out[..ptr] + PrintMembers([], depth, fmt) == text
  {
    ptr := start;
    var i := 0;
    assert members[0..] == members;
    while i < |entries|
      invariant i <= |members| && ptr < out.Length
      invariant Names(names, members) && Values(entries, members, depth, fmt)
      invariant out[..ptr] + PrintMembers(members[i..], depth, fmt) == text
    {
      ptr := ComposeNth(out, ptr, names, entries, members, i, depth, fmt, text);
      i := i + 1;
    }
  }

  // The i-th member, of what is still to be written.
  method ComposeNth(out: array<char>, start: nat, names: seq<array<char>>, entries: seq<array<char>>,
      ghost members: seq<Member>, i: nat, depth: nat, fmt: bool, ghost text: string) returns (ptr: nat)
    requires i < |names| == |entries| == |members| && PrintableMembers(members) && start < out.Length
    requires Names(names, members) && Values(entries, members, depth, fmt) && out !in entries && out !in names
    requires out[..start] + PrintMembers(members[i..], depth, fmt) == text && |text| < out.Length
    modifies out
    ensures ptr < out.Length && out[..ptr] + PrintMembers(members[i + 1..], depth, fmt) == text
    ensures Names(names, members) && Values(entries, members, depth, fmt)
  {
    ghost var m, more := members[i], PrintMembers(members[i + 1..], depth, fmt);
    PrintableMember(members, i);
    PrintMembersFrom(members, i, depth, fmt);
    Behind4(out[..start], MemberHead(m.name, depth, fmt), Print(m.value, depth, fmt), MemberTail(i + 1 < |members|, fmt), more);
    ptr := ComposeMember(out, start, names[i], entries[i], m, i == |entries| - 1, depth, fmt);
  }

  method ComposeOpen(out: array<char>, fmt: bool) returns (ptr: nat)
    requires out.Length > 2
    modifies out
    ensures ptr == |if fmt then "{\n" else "{"| && out[..ptr] == if fmt then "{\n" else "{"
  {
    out[0] := '{';
    ptr := 1;
    if fmt { out[ptr], ptr := '\n', ptr + 1; }
    out[ptr] := '\0';
  }

  method ComposeClose(out: array<char>, start: nat, depth: nat, fmt: bool)
    requires start + |PrintMembers([], depth, fmt)| < out.Length
    modifies out
    ensures Holds(out, old(out[..start]) + PrintMembers([], depth, fmt))
  {
    var ptr := start;
    if fmt {
      Put(out, ptr, Tabs(depth - 1));
      ptr := ptr + |Tabs(depth - 1)|;
    }
    ghost var before := out[..ptr];
    out[ptr], out[ptr + 1] := '}', '\0';
    assert out[..ptr + 1] == before + "}" == old(out[..start]) + PrintMembers([], depth, fmt);
  }

  // One member of the output.
  method ComposeMember(out: array<char>, start: nat, name: array<char>, entry: array<char>,
      ghost m: Member, last: bool, depth: nat, fmt: bool) returns (ptr: nat)
    requires Printable(m.value) && NulFree(m.name) && name != out && entry != out
    requires Holds(name, StringText(m.name)) && Holds(entry, Print(m.value, depth, fmt))
    requires start + |MemberHead(m.name, depth, fmt)| + |Print(m.value, depth, fmt)| + |MemberTail(!last, fmt)| < out.Length
    modifies out
    ensures ptr == start + |MemberHead(m.name, depth, fmt)| + |Print(m.value, depth, fmt)| + |MemberTail(!last, fmt)|
    ensures out[..ptr] == old(out[..start]) + MemberHead(m.name, depth, fmt) + Print(m.value, depth, fmt)
      + MemberTail(!last, fmt)
  {
    ptr := ComposeHead(out, start, name, m.name, depth, fmt);
    PrintNulFree(m.value, depth, fmt);
    ptr := CopyText(out, ptr, entry, Print(m.value, depth, fmt));
    ptr := ComposeTail(out, ptr, !last, fmt);
  }

  method ComposeHead(out: array<char>, start: nat, name: array<char>, ghost s: string, depth: nat, fmt: bool)
    returns (ptr: nat)
    requires NulFree(s) && name != out && Holds(name, StringText(s))
    requires start + |MemberHead(s, depth, fmt)| <= out.Length
    modifies out
    ensures ptr == start + |MemberHead(s, depth, fmt)|
    ensures out[..ptr] == old(out[..start]) + MemberHead(s, depth, fmt)
  {
    ghost var before := out[..start];
    ptr := start;
    var tabs := if fmt then Tabs(depth) else "";
    Put(out, ptr, tabs);
    ptr := ptr + |tabs|;
    StringTextNulFree(s);
    ptr := CopyText(out, ptr, name, StringText(s));
    Put(out, ptr, if fmt then ":\t" else ":");
    ptr := ptr + if fmt then 2 else 1;
    Behind3(before, tabs, StringText(s), if fmt then ":\t" else ":");
  }

  method ComposeTail(out: array<char>, start: nat, more: bool, fmt: bool) returns (ptr: nat)
    requires start + |MemberTail(more, fmt)| < out.Length
    modifies out
    ensures ptr == start + |MemberTail(more, fmt)|
    ensures out[..ptr] == old(out[..start]) + MemberTail(more, fmt)
  {
    ptr := start;
    if more { out[ptr], ptr := ',', ptr + 1; }
    if fmt { out[ptr], ptr := '\n', ptr + 1; }
    out[ptr] := '\0';
    assert out[..start] == old(out[..start]);
    assert out[..ptr] == out[..start] + MemberTail(more, fmt);
  }

  // The letter u and four hexadecimal digits.
  method PutHex(out: array<char>, ptr: nat, c: char)
    requires ptr + 5 < out.Length && c < ' '
    modifies out
    ensures out[..ptr + 5] == old(out[..ptr]) + ("u" + Hex4(c as nat))
  {
    Put(out, ptr, "u" + Hex4(c as nat));
    ghost var text := out[..ptr + 5];
    out[ptr + 5] := '\0';
    assert out[..ptr + 5] == text;
  }
}
