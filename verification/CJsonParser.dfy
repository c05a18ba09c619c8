/** The parser on its own data: `cJSON` nodes filled in place and linked into child chains. */
module CJsonParser {
  import opened CString
  import opened Wrappers
  import Sequences
  import T = CJsonText

  // A `char *` that may be null.
  datatype CharPtr = NullPtr | Chars(s: string)

  // cJSON_False is 0, what a zeroed node starts as.
  datatype Kind = False | True | Null | Number | String | Array | Object

  // The two loops of parse_string, from after the opening quote: the bytes the text may need, and
  // the bytes it gives, written to a buffer of that size and a terminator.
  method Measure(str: string) returns (len: nat)
    requires T.MeasureInside(str)
    ensures len == T.Measure(str).0
  {
    var ptr := str;
    len := 0;
    while Peek(ptr) != '\"' && ptr != ""
      invariant T.Measure(str).0 == len + T.Measure(ptr).0 && T.MeasureInside(ptr)
      decreases |ptr|
    {
      len := len + 1;
      ptr := ptr[if ptr[0] == '\\' then 2 else 1..];
    }
  }

  method Unescape(str: string, out: array<char>) returns (n: nat, end: string)
    requires T.UnescapeInside(str) && |T.Unescape(str).0| < out.Length
    modifies out
    ensures n < out.Length && (out[..n], end) == T.Unescape(str)
  {
    n, end := 0, str;
    assert "" + T.Unescape(str).0 == T.Unescape(str).0;
    while Peek(end) != '\"' && end != ""
      invariant n <= out.Length && T.UnescapeInside(end)
      invariant T.Unescape(str) == (out[..n] + T.Unescape(end).0, T.Unescape(end).1)
      decreases |end|
    {
      n, end := UnescapeNext(end, out, n);
    }
    assert T.Unescape(end) == ("", end) && out[..n] + "" == out[..n];
  }

  // One turn of the second loop: a plain byte, or an escape and the bytes it stands for
  method UnescapeNext(ptr: string, out: array<char>, n: nat) returns (m: nat, end: string)
    requires ptr != "" && ptr[0] != '\"' && T.UnescapeInside(ptr) && n + |T.Unescape(ptr).0| < out.Length
    modifies out
    ensures n <= m < out.Length && T.UnescapeInside(end) && |end| < |ptr|
    ensures out[..m] + T.Unescape(end).0 == old(out[..n]) + T.Unescape(ptr).0 && T.Unescape(end).1 == T.Unescape(ptr).1
  {
    var bytes;
    if ptr[0] != '\\' {
      bytes, end := [ptr[0]], ptr[1..];
    } else {
      var at := T.UnescapeOne(ptr[1..]).1;
      bytes, end := T.UnescapeOne(ptr[1..]).0, at[1..];
    }
    assert T.Unescape(ptr) == (bytes + T.Unescape(end).0, T.Unescape(end).1);
    Sequences.Associative(out[..n], bytes, T.Unescape(end).0);
    Put(out, n, bytes);
    m := n + |bytes|;
  }

  // The bytes of one character or escape
  method Put(out: array<char>, n: nat, bytes: string)
    requires n + |bytes| <= out.Length
    modifies out
    ensures out[..n + |bytes|] == old(out[..n]) + bytes
  {
    forall i | 0 <= i < |bytes| { out[n + i] := bytes[i]; }
  }

  // The three loops of parse_number: "Number?", "Fractional part?" and "Exponent?".
  method ReadWhole(num: string) returns (n: real, p: string)
    ensures (n, p) == T.ParseWhole(num)
  {
    n, p := 0.0, num;
    if Peek(p) == '0' { p := Advance(p, 1); }
    if '1' <= Peek(p) <= '9' {
      while p != "" && IsDigit(p[0])
        invariant (T.ParseDigits(p, n).0, T.ParseDigits(p, n).2) == T.ParseWhole(num)
        decreases |p|
      {
        n, p := n * 10.0 + (p[0] as int - '0' as int) as real, p[1..];
      }
    }
  }

  method ReadFraction(num: string, whole: real) returns (n: real, scale: int, p: string)
    ensures (n, -scale, p) == T.ParseFraction(num, whole)
  {
    n, scale, p := whole, 0, num;
    if Peek(p) == '.' && IsDigit(Peek(p, 1)) {
      p := Advance(p, 1);
      while p != "" && IsDigit(p[0])
        invariant var r := T.ParseDigits(p, n); (r.0, r.1 - scale, r.2) == T.ParseFraction(num, whole)
        decreases |p|
      {
        n, p, scale := n * 10.0 + (p[0] as int - '0' as int) as real, p[1..], scale - 1;
      }
    }
  }

  method ReadExponent(num: string) returns (exponent: int, p: string)
    ensures (exponent, p) == T.ParseExponent(num)
  {
    var subscale, signsubscale := 0, 1;
    p := num;
    if Peek(p) == 'e' || Peek(p) == 'E' {
      p := Advance(p, 1);
      if Peek(p) == '+' { p := Advance(p, 1); } else if Peek(p) == '-' { signsubscale, p := -1, Advance(p, 1); }
      ghost var start := T.ParseInt(p, 0);
      while p != "" && IsDigit(p[0])
        invariant T.ParseInt(p, subscale) == start
        decreases |p|
      {
        subscale, p := subscale * 10 + (p[0] as int - '0' as int), p[1..];
      }
    }
    exponent := subscale * signsubscale;
    assert exponent == if signsubscale == 1 then subscale else -subscale;
  }

  class Item {
    var next: Item?
    var prev: Item?
    var child: Item?
    var kind: Kind
    var valuestring: CharPtr
    var valueint: int
    var valuedouble: real
    var name: CharPtr

    ghost var owner: Item?     // the node this one is a child of
    ghost var kids: seq<Item>  // the child chain
    ghost var tree: T.Json     // what the node and everything below it stands for

    // cJSON_New_Item
    constructor (ghost owner: Item?)
      ensures next == null && prev == null && child == null && kind == False
      ensures valuestring == NullPtr && name == NullPtr && valueint == 0 && valuedouble == 0.0
      ensures this.owner == owner && kids == [] && tree == T.False
    {
      next, prev, child, kind := null, null, null, False;
      valuestring, name, valueint, valuedouble := NullPtr, NullPtr, 0, 0.0;
      this.owner, kids, tree := owner, [], T.False;
    }

    // The node's own fields and its child chain agree with its tree and with its children's trees.
    // Its own place in a chain (next, prev) and its name belong to its parent.
    ghost predicate Matches()
      reads `child, `kind, `valuestring, `valueint, `valuedouble, `kids, `tree
      reads Nodes(kids)`next, Nodes(kids)`prev, Nodes(kids)`owner, Nodes(kids)`tree, Nodes(kids)`name
    {
      && Chained(this, child, kids)
      && match tree
         case Null => kind == Null
         case False => kind == False
         case True => kind == True && valueint == 1
         case Number(d) => kind == Number && valuedouble == d && valueint == T.Truncate(d)
         case Text(s) => kind == String && valuestring == Chars(s)
         case Array(items) => kind == Array && Trees(kids, items)
         case Object(members) => kind == Object && Fields(kids, members)
    }

    // parse_string. The code has no test for a literal that leads it out of the text or of its
    // buffer; the model stops there.
    method ParseString(str: string) returns (end: Option<string>)
      modifies `valuestring, `kind
      ensures match T.ParseString(str)
        case Failed | Overrun => end == None && valuestring == old(valuestring) && kind == old(kind)
        case Read(s, rest) => end == Some(rest) && valuestring == Chars(s) && kind == String
    {
      if Peek(str) != '\"' || !T.Inside(str[1..]) { return None; }
      var len := Measure(str[1..]);
      var out := new char[len + 1];
      var n, ptr := Unescape(str[1..], out);
      out[n] := '\0';
      if Peek(ptr) == '\"' { ptr := ptr[1..]; }
      valuestring, kind := Chars(out[..n]), String;
      return Some(ptr);
    }

    // parse_number
    method ParseNumber(num: string) returns (end: string)
      modifies `valuedouble, `valueint, `kind
      ensures (valuedouble, end) == T.ParseNumber(num) && valueint == T.Truncate(valuedouble) && kind == Number
    {
      var sign, p := 1.0, num;
      if Peek(p) == '-' { sign, p := -1.0, Advance(p, 1); }
      var n, scale, exponent;
      n, p := ReadWhole(p);
      n, scale, p := ReadFraction(p, n);
      exponent, p := ReadExponent(p);
      n := T.Scaled(sign, n, scale + exponent);
      valuedouble, valueint, kind := n, T.Truncate(n), Number;
      return p;
    }

    // parse_value, on a node fresh from the constructor but for its place and its name
    method ParseValue(value: string) returns (end: Option<string>, ghost nodes: set<Item>)
      requires kids == [] && child == null
      modifies `child, `kind, `valuestring, `valueint, `valuedouble, `kids, `tree
      ensures Parsed(T.ParseValue(value), end, nodes) && fresh(nodes - {this})
      decreases |value|, 1
    {
      if Peek(value) == '[' {
        end, nodes := ParseArray(value);
      } else if Peek(value) == '{' {
        end, nodes := ParseObject(value);
      } else {
        end := ParseScalar(value);
        nodes := {this};
      }
    }

    // The cases of parse_value without children
    method ParseScalar(value: string) returns (end: Option<string>)
      requires kids == [] && child == null && Peek(value) !in {'[', '{'}
      modifies `kind, `valuestring, `valueint, `valuedouble, `tree
      ensures Parsed(T.ParseValue(value), end, {this})
    {
      if Peek(value) == '\"' {
        end := ParseString(value);
        if end.Some? { tree := T.Text(T.ParseString(value).value); }
      } else if Peek(value) == '-' || IsDigit(Peek(value)) {
        var rest := ParseNumber(value);
        tree, end := T.Number(valuedouble), Some(rest);
      } else {
        end := ParseWord(value);
      }
    }

    method ParseWord(value: string) returns (end: Option<string>)
      requires kids == [] && child == null
      modifies `kind, `valueint, `tree
      ensures if "null" <= value || "false" <= value || "true" <= value then Parsed(T.ParseValue(value), end, {this})
        else end == None
    {
      if "null" <= value {
        kind, tree, end := Null, T.Null, Some(value[4..]);
      } else if "false" <= value {
        kind, tree, end := False, T.False, Some(value[5..]);
      } else if "true" <= value {
        kind, valueint, tree, end := True, 1, T.True, Some(value[4..]);
      } else {
        end := None;
      }
    }

    // What a parse reports: nothing, or the end and the nodes that now hold the tree.
    ghost predicate Parsed(r: T.Parsed<T.Json>, end: Option<string>, nodes: set<Item>)
      reads `tree, nodes
    {
      match r
      case Failed | Overrun => end == None
      case Read(v, rest) => end == Some(rest) && tree == v && this in nodes && Sound(nodes)
    }

    // A new node, linked after this last node of a chain.
    method LinkNew(ghost chain: seq<Item>, ghost nodes: set<Item>) returns (newItem: Item)
      requires chain != [] && this == chain[|chain| - 1] && Chained(owner, chain[0], chain)
      requires Sound(nodes) && owner !in nodes
      modifies `next
      ensures fresh(newItem) && newItem.kids == [] && newItem.child == null
      ensures Chained(owner, chain[0], chain + [newItem])
      ensures Sound(nodes)
    {
      assert forall o <- nodes :: o.Matches() && this !in o.kids;
      newItem := new Item(owner);
      next := newItem;
      newItem.prev := this;
      ChainedLonger(owner, chain, newItem);
      assert forall o <- nodes :: o.Matches();
    }

    // One turn of the element loop: a new node after this last one, and its value.
    method ParseNext(ghost chain: seq<Item>, ghost nodes: set<Item>, text: string)
      returns (k: Item, end: Option<string>, ghost more: set<Item>)
      requires chain != [] && this == chain[|chain| - 1] && Chained(owner, chain[0], chain)
      requires Sound(nodes) && owner !in nodes && owner != null && Nodes(chain) <= nodes
      modifies `next
      ensures fresh(more) && fresh(k) && Sound(nodes)
      ensures match T.ParseValue(text)
        case Failed | Overrun => end == None
        case Read(v, rest) =>
          end == Some(rest) && Chained(owner, chain[0], chain + [k]) &&
          k.tree == v && k in more && Sound(more)
      decreases |text|, 2
    {
      k := LinkNew(chain, nodes);
      end, more := k.ParseValue(text);
      if end == None { more := {}; }
    }

    // The finished child chain becomes this node's.
    ghost method Adopt(chain: seq<Item>, value: T.Json, nodes: set<Item>)
      requires Chained(this, child, chain) && Nodes(chain) <= nodes && Sound(nodes) && this !in nodes
      requires match value
        case Array(items) => kind == Array && Trees(chain, items)
        case Object(members) => kind == Object && Fields(chain, members)
        case _ => false
      modifies `kids, `tree
      ensures tree == value && Sound(nodes + {this})
    {
      kids, tree := chain, value;
      assert Matches();
      assert Sound(nodes);
    }

    // parse_array
    method ParseArray(value: string) returns (end: Option<string>, ghost nodes: set<Item>)
      requires Peek(value) == '['
      requires kids == [] && child == null
      modifies `child, `kind, `kids, `tree
      ensures Parsed(T.ParseArray(value), end, nodes) && fresh(nodes - {this})
      decreases |value|, 0
    {
      kind := Array;
      var p := T.Skip(value[1..]);
      if Peek(p) == ']' {
        tree := T.Array([]);
        return Some(p[1..]), {this};
      }
      end, nodes := ParseItems(p);
    }

    // An array with elements, from its first one.
    method ParseItems(p: string) returns (end: Option<string>, ghost nodes: set<Item>)
      requires kids == [] && child == null && kind == Array
      modifies `child, `kids, `tree
      ensures match T.ParseItems(p)
        case Failed | Overrun => end == None
        case Read(items, rest) => end == Some(rest) && tree == T.Array(items) && this in nodes && Sound(nodes)
      ensures fresh(nodes - {this})
      decreases |p|, 4
    {
      var at := new Item(this);
      child := at;
      end, nodes := at.ParseValue(T.Skip(p));
      if end == None { return None, {}; }
      ghost var v := T.ParseValue(T.Skip(p)).value;
      MoreItemsStart(p);
      end, nodes := ParseElements(at, [at], [v], nodes, T.Skip(end.value));
    }

    // The loop of parse_array, after the first element, and the closing bracket.
    method ParseElements(first: Item, ghost chain0: seq<Item>, ghost items0: seq<T.Json>, ghost nodes0: set<Item>, text: string)
      returns (end: Option<string>, ghost nodes: set<Item>)
      requires chain0 == [first] && Chained(this, child, chain0) && Trees(chain0, items0)
      requires Sound(nodes0) && this !in nodes0 && first in nodes0 && kind == Array
      modifies `kids, `tree, first`next
      ensures fresh(nodes - nodes0 - {this})
      ensures match MoreItems(items0, text)
        case Failed | Overrun => end == None
        case Read(items, rest) => end == Some(rest) && tree == T.Array(items) && this in nodes && Sound(nodes)
      decreases |text|, 3
    {
      var at, p := first, text;
      ghost var chain, items := chain0, items0;
      nodes := nodes0;
      while Peek(p) == ','
        invariant |p| <= |text| && MoreItems(items0, text) == MoreItems(items, p)
        invariant chain != [] && at == chain[|chain| - 1] && Chained(this, child, chain)
        invariant Trees(chain, items) && Nodes(chain) <= nodes
        invariant Sound(nodes) && this !in nodes && fresh(nodes - nodes0) && (at == first || fresh(at))
        decreases |p|
      {
        ghost var more;
        at, end, more := at.ParseNext(chain, nodes, T.Skip(p[1..]));
        if end == None { return None, {}; }
        MoreItemsStep(items, p);
        SoundUnion(nodes, more);
        chain, items, nodes := chain + [at], items + [T.ParseValue(T.Skip(p[1..])).value], nodes + more;
        p := T.Skip(end.value);
      }
      if Peek(p) == ']' {
        Adopt(chain, T.Array(items), nodes);
        return Some(p[1..]), nodes + {this};
      }
      return None, {};
    }

    // One member: its name, a colon and its value, on a new node.
    method ParseMember(text: string) returns (end: Option<string>, ghost nodes: set<Item>)
      requires kids == [] && child == null
      modifies `child, `kind, `valuestring, `valueint, `valuedouble, `kids, `tree, `name
      ensures fresh(nodes - {this})
      ensures match T.ParseMember(text)
        case Failed | Overrun => end == None
        case Read(m, rest) =>
          end == Some(rest) && tree == m.value && name == Chars(m.name) && this in nodes && Sound(nodes)
      decreases |text|, 2
    {
      end := ParseString(T.Skip(text));
      if end == None { return None, {}; }
      var p := T.Skip(end.value);
      name, valuestring := valuestring, NullPtr;
      if Peek(p) != ':' { return None, {}; }
      end, nodes := ParseValue(T.Skip(p[1..]));
      if end == None { nodes := {}; }
    }

    // One turn of the member loop: a new node after this last one, and its member.
    method ParseNextMember(ghost chain: seq<Item>, ghost nodes: set<Item>, text: string)
      returns (k: Item, end: Option<string>, ghost more: set<Item>)
      requires chain != [] && this == chain[|chain| - 1] && Chained(owner, chain[0], chain)
      requires Sound(nodes) && owner !in nodes && owner != null && Nodes(chain) <= nodes
      modifies `next
      ensures fresh(more) && fresh(k) && Sound(nodes)
      ensures match T.ParseMember(text)
        case Failed | Overrun => end == None
        case Read(m, rest) =>
          end == Some(rest) && Chained(owner, chain[0], chain + [k]) &&
          k.tree == m.value && k.name == Chars(m.name) && k in more && Sound(more)
      decreases |text|, 3
    {
      k := LinkNew(chain, nodes);
      end, more := k.ParseMember(text);
      if end == None { more := {}; }
    }

    // parse_object
    method ParseObject(value: string) returns (end: Option<string>, ghost nodes: set<Item>)
      requires Peek(value) == '{'
      requires kids == [] && child == null
      modifies `child, `kind, `kids, `tree
      ensures Parsed(T.ParseObject(value), end, nodes) && fresh(nodes - {this})
      decreases |value|, 0
    {
      kind := Object;
      var p := T.Skip(value[1..]);
      if Peek(p) == '}' {
        tree := T.Object([]);
        return Some(p[1..]), {this};
      }
      end, nodes := ParseFilled(p);
    }

    // An object with members, from its first one.
    method ParseFilled(p: string) returns (end: Option<string>, ghost nodes: set<Item>)
      requires kids == [] && child == null && kind == Object
      modifies `child, `kids, `tree
      ensures match T.ParseMembers(p)
        case Failed | Overrun => end == None
        case Read(members, rest) => end == Some(rest) && tree == T.Object(members) && this in nodes && Sound(nodes)
      ensures fresh(nodes - {this})
      decreases |p|, 5
    {
      var at := new Item(this);
      child := at;
      end, nodes := at.ParseMember(p);
      if end == None { return None, {}; }
      ghost var m := T.ParseMember(p).value;
      MoreMembersStart(p);
      end, nodes := ParseMembers(at, [at], [m], nodes, T.Skip(end.value));
    }

    // The loop of parse_object, after the first member, and the closing brace.
    method ParseMembers(first: Item, ghost chain0: seq<Item>, ghost members0: seq<T.Member>, ghost nodes0: set<Item>, text: string)
      returns (end: Option<string>, ghost nodes: set<Item>)
      requires chain0 == [first] && Chained(this, child, chain0) && Fields(chain0, members0)
      requires Sound(nodes0) && this !in nodes0 && first in nodes0 && kind == Object
      modifies `kids, `tree, first`next
      ensures fresh(nodes - nodes0 - {this})
      ensures match MoreMembers(members0, text)
        case Failed | Overrun => end == None
        case Read(members, rest) => end == Some(rest) && tree == T.Object(members) && this in nodes && Sound(nodes)
      decreases |text|, 4
    {
      var at, p := first, text;
      ghost var chain, members := chain0, members0;
      nodes := nodes0;
      while Peek(p) == ','
        invariant |p| <= |text| && MoreMembers(members0, text) == MoreMembers(members, p)
        invariant chain != [] && at == chain[|chain| - 1] && Chained(this, child, chain)
        invariant Fields(chain, members) && Nodes(chain) <= nodes
        invariant Sound(nodes) && this !in nodes && fresh(nodes - nodes0) && (at == first || fresh(at))
        decreases |p|
      {
        ghost var more;
        at, end, more := at.ParseNextMember(chain, nodes, p[1..]);
        if end == None { return None, {}; }
        MoreMembersStep(members, p);
        SoundUnion(nodes, more);
        FieldsMore(chain, members, at, T.ParseMember(p[1..]).value);
        chain, members, nodes := chain + [at], members + [T.ParseMember(p[1..]).value], nodes + more;
        p := T.Skip(end.value);
      }
      if Peek(p) == '}' {
        Adopt(chain, T.Object(members), nodes);
        return Some(p[1..]), nodes + {this};
      }
      return None, {};
    }
  }

  // cJSON_ParseWithOpts: the root node and the end of what was parsed.
  method Parse(value: string, requireEnd: bool) returns (c: Item?, end: string, ghost nodes: set<Item>)
    ensures match T.Parse(value, requireEnd)
      case Failed | Overrun => c == null
      case Read(v, rest) => c != null && c.tree == v && end == rest && c in nodes && Sound(nodes)
  {
    var root := new Item(null);
    var parsed;
    parsed, nodes := root.ParseValue(T.Skip(value));
    if parsed == None { return null, "", {}; }
    end := parsed.value;
    if requireEnd {
      end := T.Skip(end);
      if end != "" { return null, end, {}; }
    }
    return root, end, nodes;
  }

  ghost function Nodes(chain: seq<Item>): set<Item> {
    set k | k in chain
  }

  // The child chain of `owner`: it starts at `first`, and next and prev link neighbours.
  ghost predicate Chained(owner: Item?, first: Item?, chain: seq<Item>)
    reads Nodes(chain)`next, Nodes(chain)`prev, Nodes(chain)`owner
  {
    && (chain == [] ==> first == null)
    && (chain != [] ==> first == chain[0] && chain[0].prev == null && chain[|chain| - 1].next == null)
    && (forall i :: 0 <= i < |chain| - 1 ==> chain[i].next == chain[i + 1])
    && (forall i :: 1 <= i < |chain| ==> chain[i].prev == chain[i - 1])
    && (forall k <- chain :: k.owner == owner)
  }

  ghost predicate Trees(chain: seq<Item>, items: seq<T.Json>)
    reads Nodes(chain)`tree
  {
    |chain| == |items| && forall i :: 0 <= i < |chain| ==> chain[i].tree == items[i]
  }

  ghost predicate Fields(chain: seq<Item>, members: seq<T.Member>)
    reads Nodes(chain)`tree, Nodes(chain)`name
  {
    && |chain| == |members|
    && forall i :: 0 <= i < |chain| ==> chain[i].tree == members[i].value && chain[i].name == Chars(members[i].name)
  }

  lemma ChainedLonger(owner: Item?, chain: seq<Item>, k: Item)
    requires chain != [] && chain[0].prev == null && chain[|chain| - 1].next == k && k.next == null && k.owner == owner
    requires k.prev == chain[|chain| - 1]
    requires forall i :: 0 <= i < |chain| - 1 ==> chain[i].next == chain[i + 1]
    requires forall i :: 1 <= i < |chain| ==> chain[i].prev == chain[i - 1]
    requires forall o <- chain :: o.owner == owner
    ensures Chained(owner, chain[0], chain + [k])
  {
  }

  lemma FieldsMore(chain: seq<Item>, members: seq<T.Member>, k: Item, m: T.Member)
    requires Fields(chain, members) && k.tree == m.value && k.name == Chars(m.name)
    ensures Fields(chain + [k], members + [m])
  {
  }

  // A set of nodes closed under children, each agreeing with its children. As every child has one
  // owner and stands for a part of its owner's tree, no node is below itself or in two places.
  ghost predicate Sound(nodes: set<Item>)
    reads nodes
  {
    forall o <- nodes :: Nodes(o.kids) <= nodes && o.Matches()
  }

  lemma SoundUnion(a: set<Item>, b: set<Item>)
    requires Sound(a) && Sound(b)
    ensures Sound(a + b)
  {
  }

  lemma MoreItemsStart(p: string)
    requires T.ParseValue(T.Skip(p)).Read?
    ensures var first := T.ParseValue(T.Skip(p)); T.ParseItems(p) == MoreItems([first.value], T.Skip(first.rest))
  {
  }

  lemma MoreItemsStep(items: seq<T.Json>, p: string)
    requires Peek(p) == ',' && T.ParseValue(T.Skip(p[1..])).Read?
    ensures var next := T.ParseValue(T.Skip(p[1..]));
      MoreItems(items, p) == MoreItems(items + [next.value], T.Skip(next.rest))
  {
    var next := T.ParseValue(T.Skip(p[1..]));
    var q := T.Skip(next.rest);
    if Peek(q) == ',' && T.ParseItems(q[1..]).Read? {
      var more := T.ParseItems(q[1..]).value;
      assert items + ([next.value] + more) == items + [next.value] + more;
    }
  }

  // What the rest of an element list gives once `items` are read; `p` is after them.
  ghost function MoreItems(items: seq<T.Json>, p: string): T.Parsed<seq<T.Json>> {
    if Peek(p) == ',' then
      match T.ParseItems(p[1..])
      case Failed => T.Failed
      case Overrun => T.Overrun
      case Read(more, end) => T.Read(items + more, end)
    else if Peek(p) == ']' then T.Read(items, p[1..])
    else T.Failed
  }

  lemma MoreMembersStart(p: string)
    requires T.ParseMember(p).Read?
    ensures var first := T.ParseMember(p); T.ParseMembers(p) == MoreMembers([first.value], T.Skip(first.rest))
  {
  }

  lemma MoreMembersStep(members: seq<T.Member>, p: string)
    requires Peek(p) == ',' && T.ParseMember(p[1..]).Read?
    ensures var next := T.ParseMember(p[1..]);
      MoreMembers(members, p) == MoreMembers(members + [next.value], T.Skip(next.rest))
  {
    var next := T.ParseMember(p[1..]);
    var q := T.Skip(next.rest);
    if Peek(q) == ',' && T.ParseMembers(q[1..]).Read? {
      var more := T.ParseMembers(q[1..]).value;
      assert members + ([next.value] + more) == members + [next.value] + more;
    }
  }

  // What the rest of a member list gives once `members` are read; `p` is after them.
  ghost function MoreMembers(members: seq<T.Member>, p: string): T.Parsed<seq<T.Member>> {
    if Peek(p) == ',' then
      match T.ParseMembers(p[1..])
      case Failed => T.Failed
      case Overrun => T.Overrun
      case Read(more, end) => T.Read(members + more, end)
    else if Peek(p) == '}' then T.Read(members, p[1..])
    else T.Failed
  }
}
