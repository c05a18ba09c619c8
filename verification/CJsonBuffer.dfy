/** The growing-buffer printer: one buffer, an offset that lags behind the text, and ensure() before
    every write. Every write is an array write, so it is proved to stay inside the buffer. */
module CJsonBuffer {
  import opened Sequences
  import opened CString
  import opened CJsonText
  import opened CJsonSizes
  import opened PowerOfTwo
  import P = CJsonParser
  import CJsonPrinter

  // Sizes up to here round up to a power of two within int; a number asks for up to 64 bytes at once.
  const MAX_SIZE := 0x4000_0000
  const MAX_TEXT := MAX_SIZE - 64

  class PrintBuffer {
    var buffer: array<char>
    var length: nat
    var offset: nat

    constructor (prebuffer: nat)
      ensures Valid() && fresh(buffer) && offset == 0
    {
      buffer, length, offset := new char[prebuffer], prebuffer, 0;
    }

    ghost predicate Valid()
      reads this
    {
      length == buffer.Length && offset <= length
    }

    // The text written so far, up to the offset.
    ghost function Text(): string
      requires Valid()
      reads this, buffer
    {
      buffer[..offset]
    }

    // ensure
    method Ensure(needed: nat)
      requires Valid() && 1 <= needed && (offset + needed <= length || offset + needed <= MAX_SIZE)
      modifies this
      ensures Valid() && offset == old(offset) && offset + needed <= length
      ensures length == if offset + needed <= old(length) then old(length) else Pow2gt(offset + needed)
      ensures (buffer == old(buffer) || fresh(buffer)) && Text() == old(Text())
    {
      if offset + needed <= length { return; }
      Pow2gtIsLeast(offset + needed);
      Grow(Pow2gt(offset + needed));
    }

    // A new buffer with the contents of the old one.
    method Grow(newsize: nat)
      requires Valid() && newsize >= length
      modifies this
      ensures Valid() && offset == old(offset) && length == newsize && fresh(buffer) && Text() == old(Text())
    {
      var newbuffer := new char[newsize];
      CJsonPrinter.Put(newbuffer, 0, buffer[..length]);
      assert newbuffer[..length] == buffer[..length];
      assert newbuffer[..offset] == newbuffer[..length][..offset] == buffer[..length][..offset];
      length, buffer := newsize, newbuffer;
    }

    // The text and what a print left after it: `s`, part of it behind the offset, and a NUL.
    ghost predicate Printed(before: string, s: string)
      reads this, buffer
    {
      && Valid()
      && |before| <= offset <= |before| + |s| < length
      && buffer[..|before| + |s|] == before + s
      && buffer[|before| + |s|] == '\0'
    }

    // The offset moves to the end of the text that was left after it.
    method Update(ghost before: string, ghost s: string)
      requires Printed(before, s) && NulFree(s)
      modifies `offset
      ensures Valid() && Text() == before + s
    {
      var n := 0;
      ghost var end := |before| + |s|;
      assert forall i :: |before| <= i < end ==> buffer[i] == (before + s)[i] == s[i - |before|];
      while buffer[offset + n] != '\0'
        invariant offset + n <= end
        decreases end - n
      {
        n := n + 1;
      }
      offset := offset + n;
    }

    // Room is made, characters are written at the offset, and it moves past them.
    method Append(s: string, needed: nat)
      requires Valid() && |s| <= needed && 1 <= needed && offset + needed <= MAX_SIZE
      modifies this, buffer
      ensures Valid() && Text() == old(Text()) + s
      ensures buffer == old(buffer) || fresh(buffer)
    {
      Ensure(needed);
      CJsonPrinter.Put(buffer, offset, s);
      offset := offset + |s|;
    }

    // Room is made, and a terminated text is left at the offset, which stays.
    method Leave(s: string, needed: nat)
      requires Valid() && |s| < needed && offset + needed <= MAX_SIZE
      modifies this, buffer
      ensures Printed(old(Text()), s) && offset == old(offset)
      ensures buffer == old(buffer) || fresh(buffer)
    {
      Ensure(needed);
      CJsonPrinter.Put(buffer, offset, s);
      ghost var text := buffer[..offset + |s|];
      buffer[offset + |s|] := '\0';
      assert buffer[..offset + |s|] == text;
    }

    // A terminated text is left at the offset, which moves past it.
    method Advance(s: string)
      requires Valid() && offset + |s| < MAX_SIZE
      modifies this, buffer
      ensures Valid() && Text() == old(Text()) + s
      ensures buffer == old(buffer) || fresh(buffer)
    {
      Leave(s, |s| + 1);
      offset := offset + |s|;
    }

    // print_string_ptr
    method PrintString(str: string)
      requires Valid() && offset + |StringText(str)| <= MAX_TEXT
      modifies this, buffer
      ensures Printed(old(Text()), StringText(str))
      ensures buffer == old(buffer) || fresh(buffer)
    {
      var flag, i := false, 0;
      while i < |str|
        invariant i <= |str| && (!flag ==> forall c <- str[..i] :: !NeedsEscape(c))
      {
        flag := flag || NeedsEscape(str[i]);
        i := i + 1;
      }
      if !flag {
        assert str[..i] == str;
        CJsonPrinter.EscapePlain(str);
        Leave("\"" + str + "\"", |str| + 3);
      } else {
        var len := CJsonPrinter.EscapedLength(str);
        Ensure(len + 3);
        CJsonPrinter.PutEscaped(buffer, offset, str);
      }
    }

    // print_number
    method PrintNumber(item: P.Item)
      requires Finite(item.valuedouble) && item.valueint == Truncate(item.valuedouble)
      requires Valid() && offset + |NumberText(item.valuedouble)| <= MAX_TEXT
      modifies this, buffer
      ensures Printed(old(Text()), NumberText(item.valuedouble))
      ensures buffer == old(buffer) || fresh(buffer)
    {
      var d := item.valuedouble;
      NumberTextShort(d);
      if d == 0.0 {
        Leave("0", 2);
      } else if Abs(item.valueint as real - d) <= EPSILON && INT_MIN as real <= d <= INT_MAX as real {
        Leave(IntText(item.valueint), 21);
      } else {
        Leave(FloatText(d), 64);
      }
    }

    // print_value
    method PrintValue(item: P.Item, depth: nat, fmt: bool, ghost nodes: set<P.Item>)
      requires item in nodes && P.Sound(nodes) && Printable(item.tree)
      requires Valid() && offset + |Print(item.tree, depth, fmt)| <= MAX_TEXT
      modifies this, buffer
      ensures Printed(old(Text()), Print(item.tree, depth, fmt))
      ensures buffer == old(buffer) || fresh(buffer)
      decreases item.tree, 3
    {
      match item.kind
      case Null => Leave("null", 5);
      case False => Leave("false", 6);
      case True => Leave("true", 5);
      case Number => PrintNumber(item);
      case String => PrintString(item.valuestring.s);
      case Array => PrintArray(item, depth, fmt, nodes);
      case Object => PrintObject(item, depth, fmt, nodes);
    }

    method PrintArray(item: P.Item, depth: nat, fmt: bool, ghost nodes: set<P.Item>)
      requires item in nodes && P.Sound(nodes) && Printable(item.tree) && item.tree.Array?
      requires Valid() && offset + |Print(item.tree, depth, fmt)| <= MAX_TEXT
      modifies this, buffer
      ensures Printed(old(Text()), Print(item.tree, depth, fmt))
      ensures buffer == old(buffer) || fresh(buffer)
      decreases item.tree, 2
    {
      var numentries := CJsonPrinter.CountChildren(item, nodes);
      if numentries == 0 {
        Leave("[]", 3);
        return;
      }
      Append("[", 1);
      ghost var text := old(Text()) + Print(item.tree, depth, fmt);
      Associative(old(Text()), "[", PrintItems(item.tree.items, depth + 1, fmt));
      PrintElements(item, depth + 1, fmt, nodes, text);
      CloseArray(old(Text()), Print(item.tree, depth, fmt));
    }

    // The closing bracket; the offset stays before it.
    method CloseArray(ghost before: string, ghost s: string)
      requires Valid() && Text() + "]" == before + s && |before| <= offset && |before + s| <= MAX_TEXT
      modifies this, buffer
      ensures Printed(before, s)
      ensures buffer == old(buffer) || fresh(buffer)
    {
      Leave("]", 2);
    }

    // A child's value is printed, and the offset brought up to its end.
    method PrintChild(item: P.Item, depth: nat, fmt: bool, ghost nodes: set<P.Item>)
      requires item in nodes && P.Sound(nodes) && Printable(item.tree)
      requires Valid() && offset + |Print(item.tree, depth, fmt)| <= MAX_TEXT
      modifies this, buffer
      ensures Valid() && Text() == old(Text()) + Print(item.tree, depth, fmt)
      ensures buffer == old(buffer) || fresh(buffer)
      decreases item.tree, 4
    {
      ghost var before := Text();
      PrintNulFree(item.tree, depth, fmt);
      PrintValue(item, depth, fmt, nodes);
      Update(before, Print(item.tree, depth, fmt));
    }

    // The element loop.
    method PrintElements(item: P.Item, depth: nat, fmt: bool, ghost nodes: set<P.Item>, ghost text: string)
      requires item in nodes && P.Sound(nodes) && Printable(item.tree) && item.tree.Array?
      requires Valid() && Text() + PrintItems(item.tree.items, depth, fmt) == text && |text| <= MAX_TEXT
      modifies this, buffer
      ensures Valid() && Text() + "]" == text && offset >= old(offset)
      ensures buffer == old(buffer) || fresh(buffer)
      decreases item.tree, 1
    {
      ghost var items, k := item.tree.items, 0;
      var child := item.child;
      assert items[0..] == items;
      while child != null
        invariant k <= |items| == |item.kids| && child == CJsonPrinter.At(item.kids, k)
        invariant Valid() && Text() + PrintItems(items[k..], depth, fmt) == text && offset >= old(offset)
        invariant buffer == old(buffer) || fresh(buffer)
        decreases |items| - k
      {
        PrintItemsFrom(items, k, depth, fmt);
        Behind3(Text(), Print(items[k], depth, fmt), ItemSeparator(k + 1 < |items|, fmt), PrintItems(items[k + 1..], depth, fmt));
        child := PrintElement(child, item, k, depth, fmt, nodes);
        k := k + 1;
      }
    }

    // The k-th element and its separator.
    method PrintElement(child: P.Item, ghost item: P.Item, ghost k: nat, depth: nat, fmt: bool, ghost nodes: set<P.Item>)
      returns (next: P.Item?)
      requires item in nodes && P.Sound(nodes) && Printable(item.tree) && item.tree.Array?
      requires k < |item.kids| && child == item.kids[k]
      requires Valid()
      requires offset + |Print(item.tree.items[k], depth, fmt)| + |ItemSeparator(k + 1 < |item.kids|, fmt)| <= MAX_TEXT
      modifies this, buffer
      ensures Valid() && Text() == old(Text()) + Print(item.tree.items[k], depth, fmt) + ItemSeparator(k + 1 < |item.kids|, fmt)
      ensures buffer == old(buffer) || fresh(buffer)
      ensures next == CJsonPrinter.At(item.kids, k + 1)
      decreases item.tree, 0, 0
    {
      PrintableItem(item.tree.items, k);
      assert child in P.Nodes(item.kids);
      PrintChild(child, depth, fmt, nodes);
      ghost var text := Text();
      next := child.next;
      assert next == CJsonPrinter.At(item.kids, k + 1);
      if next != null { Advance(if fmt then ", " else ","); }
      assert text + "" == text;
    }

    method PrintObject(item: P.Item, depth: nat, fmt: bool, ghost nodes: set<P.Item>)
      requires item in nodes && P.Sound(nodes) && Printable(item.tree) && item.tree.Object?
      requires Valid() && offset + |Print(item.tree, depth, fmt)| <= MAX_TEXT
      modifies this, buffer
      ensures Printed(old(Text()), Print(item.tree, depth, fmt))
      ensures buffer == old(buffer) || fresh(buffer)
      decreases item.tree, 2, 1
    {
      var numentries := CJsonPrinter.CountChildren(item, nodes);
      if numentries == 0 {
        Leave(if fmt then "{\n" + Tabs(depth - 1) + "}" else "{}", if fmt then depth + 4 else 3);
        return;
      }
      PrintFilled(item, depth, fmt, nodes, Print(item.tree, depth, fmt));
    }

    // An object with members.
    method PrintFilled(item: P.Item, depth: nat, fmt: bool, ghost nodes: set<P.Item>, ghost s: string)
      requires item in nodes && P.Sound(nodes) && Printable(item.tree) && item.tree.Object?
      requires Valid() && offset + |s| <= MAX_TEXT
      requires s == (if fmt then "{\n" else "{") + CJsonText.PrintMembers(item.tree.members, depth + 1, fmt)
      modifies this, buffer
      ensures Printed(old(Text()), s)
      ensures buffer == old(buffer) || fresh(buffer)
      decreases item.tree, 2, 0
    {
      ghost var before := Text();
      var open := if fmt then "{\n" else "{";
      Associative(before, open, CJsonText.PrintMembers(item.tree.members, depth + 1, fmt));
      Advance(open);
      PrintMembers(item, depth + 1, fmt, nodes, before + s);
      Close(depth, fmt, before, s);
    }

    // The closing brace; the offset stays before it.
    method Close(depth: nat, fmt: bool, ghost before: string, ghost s: string)
      requires Valid() && Text() + CJsonText.PrintMembers([], depth + 1, fmt) == before + s
      requires |before| <= offset && |before + s| <= MAX_TEXT
      modifies this, buffer
      ensures Printed(before, s)
      ensures buffer == old(buffer) || fresh(buffer)
    {
      ghost var text := Text();
      var close := (if fmt then Tabs(depth) else "") + "}";
      assert close == CJsonText.PrintMembers([], depth + 1, fmt);
      Leave(close, if fmt then depth + 2 else 2);
    }

    // The member loop; `depth` is one more than the object's.
    method PrintMembers(item: P.Item, depth: nat, fmt: bool, ghost nodes: set<P.Item>, ghost text: string)
      requires item in nodes && P.Sound(nodes) && Printable(item.tree) && item.tree.Object? && depth > 0
      requires Valid() && Text() + CJsonText.PrintMembers(item.tree.members, depth, fmt) == text && |text| <= MAX_TEXT
      modifies this, buffer
      ensures Valid() && Text() + CJsonText.PrintMembers([], depth, fmt) == text && offset >= old(offset)
      ensures buffer == old(buffer) || fresh(buffer)
      decreases item.tree, 1
    {
      ghost var members, k := item.tree.members, 0;
      var child := item.child;
      assert members[0..] == members;
      while child != null
        invariant k <= |members| == |item.kids| && child == CJsonPrinter.At(item.kids, k)
        invariant Valid() && Text() + CJsonText.PrintMembers(members[k..], depth, fmt) == text && offset >= old(offset)
        invariant buffer == old(buffer) || fresh(buffer)
        decreases |members| - k
      {
        child := PrintNth(child, item, k, depth, fmt, nodes, text);
        k := k + 1;
      }
    }

    // The k-th member, of what is still to be printed.
    method PrintNth(child: P.Item, ghost item: P.Item, ghost k: nat, depth: nat, fmt: bool, ghost nodes: set<P.Item>,
        ghost text: string) returns (next: P.Item?)
      requires item in nodes && P.Sound(nodes) && Printable(item.tree) && item.tree.Object? && depth > 0
      requires k < |item.kids| == |item.tree.members| && child == item.kids[k] && Valid() && |text| <= MAX_TEXT
      requires Text() + CJsonText.PrintMembers(item.tree.members[k..], depth, fmt) == text
      modifies this, buffer
      ensures Valid() && Text() + CJsonText.PrintMembers(item.tree.members[k + 1..], depth, fmt) == text
      ensures offset >= old(offset) && (buffer == old(buffer) || fresh(buffer))
      ensures next == CJsonPrinter.At(item.kids, k + 1)
      decreases item.tree, 0, 1
    {
      ghost var members := item.tree.members;
      ghost var m := members[k];
      PrintMembersFrom(members, k, depth, fmt);
      Behind4(Text(), MemberHead(m.name, depth, fmt), Print(m.value, depth, fmt),
        MemberTail(k + 1 < |members|, fmt), CJsonText.PrintMembers(members[k + 1..], depth, fmt));
      next := PrintMember(child, item, k, depth, fmt, nodes);
    }

    // The k-th member: its indentation and name, its value, and what follows.
    method PrintMember(child: P.Item, ghost item: P.Item, ghost k: nat, depth: nat, fmt: bool, ghost nodes: set<P.Item>)
      returns (next: P.Item?)
      requires item in nodes && P.Sound(nodes) && Printable(item.tree) && item.tree.Object? && depth > 0
      requires k < |item.kids| && child == item.kids[k]
      requires Valid()
      requires var m := item.tree.members[k];
        offset + |MemberHead(m.name, depth, fmt)| + |Print(m.value, depth, fmt)| + |MemberTail(k + 1 < |item.kids|, fmt)| <= MAX_TEXT
      modifies this, buffer
      ensures Valid()
      ensures var m := item.tree.members[k];
        Text() == old(Text()) + MemberHead(m.name, depth, fmt) + Print(m.value, depth, fmt) + MemberTail(k + 1 < |item.kids|, fmt)
      ensures buffer == old(buffer) || fresh(buffer)
      ensures next == CJsonPrinter.At(item.kids, k + 1)
      decreases item.tree, 0, 0
    {
      PrintableMember(item.tree.members, k);
      assert child in P.Nodes(item.kids);
      PrintHead(child.name.s, depth, fmt);
      PrintChild(child, depth, fmt, nodes);
      next := child.next;
      assert next == CJsonPrinter.At(item.kids, k + 1);
      Advance((if next != null then "," else "") + (if fmt then "\n" else ""));
    }

    // Indentation, name and colon.
    method PrintHead(name: string, depth: nat, fmt: bool)
      requires NulFree(name) && depth > 0
      requires Valid() && offset + |MemberHead(name, depth, fmt)| <= MAX_TEXT
      modifies this, buffer
      ensures Valid() && Text() == old(Text()) + MemberHead(name, depth, fmt)
      ensures buffer == old(buffer) || fresh(buffer)
    {
      ghost var start, tabs := Text(), if fmt then Tabs(depth) else "";
      if fmt { Append(Tabs(depth), depth); }
      assert Text() == start + tabs;
      StringTextNulFree(name);
      ghost var before := Text();
      PrintString(name);
      Update(before, StringText(name));
      Append(if fmt then ":\t" else ":", if fmt then 2 else 1);
      Behind3(start, tabs, StringText(name), if fmt then ":\t" else ":");
    }
  }

  // cJSON_PrintBuffered
  method PrintBuffered(item: P.Item, prebuffer: nat, fmt: bool, ghost nodes: set<P.Item>) returns (out: array<char>)
    requires item in nodes && P.Sound(nodes) && Printable(item.tree)
    requires |Print(item.tree, 0, fmt)| <= MAX_TEXT
    ensures CJsonPrinter.Holds(out, Print(item.tree, 0, fmt))
  {
    var p := new PrintBuffer(prebuffer);
    p.PrintValue(item, 0, fmt, nodes);
    out := p.buffer;
  }
}
