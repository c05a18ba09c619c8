/** ezxml_parse_str for documents of tags and character content: the tree under construction, and
    the scan of the text. Tags with attributes and other markup end the scan as `OtherMarkup`. */
module EzxmlParser {
  import opened CString
  import opened Wrappers
  import opened EzxmlTree
  import opened EzxmlEntities
  import opened EzxmlDecode
  import opened EzxmlDecodeInPlace
  import EzxmlUtf16

  datatype Outcome = Document(xml: Element) | Malformed | OtherMarkup

  // The tree so far and the depth of the open tag, -1 when there is none. The name of the root is
  // empty until the first tag.
  datatype State = State(xml: Element, cur: int)

  const START := State(Element("", "", End), 0)

  predicate Ok(st: State) {
    st.cur >= -1 && (st.cur >= 0 ==> Reaches(st.xml, st.cur))
  }

  function Current(st: State): Element
    requires Ok(st) && st.cur >= 0
  {
    At(st.xml, st.cur)
  }

  // The current tag is replaced.
  function Replace(st: State, x: Element): (r: State)
    requires Ok(st) && st.cur >= 0
    ensures Ok(r) && r.cur == st.cur
  {
    SetAt(st.xml, st.cur, x, x);
    State(Set(st.xml, st.cur, x), st.cur)
  }

  // ezxml_open_tag: the first tag names the root, others are added to the current tag.
  function Opened(st: State, name: string): (r: State)
    requires Ok(st) && st.cur >= 0
    ensures Ok(r) && r.cur >= 0 && Current(r).name == name
  {
    var x := Current(st);
    if x.name == "" then
      SetAt(st.xml, st.cur, x.(name := name), x);
      Replace(st, x.(name := name))
    else
      var y := x.(child := Snoc(x.child, |x.txt|, Element(name, "", End)));
      SetBelow(st.xml, st.cur, y, x.child, |x.txt|, Element(name, "", End), x);
      State(Set(st.xml, st.cur, y), st.cur + 1)
  }

  // ezxml_char_content, with the decoded text
  function WithText(st: State, s: string): (r: State)
    requires Ok(st)
    ensures Ok(r)
  {
    if st.cur < 0 || Current(st).name == "" then st
    else Replace(st, Current(st).(txt := Current(st).txt + s))
  }

  // The text between two pieces of markup, if there is any, arrives decoded.
  ghost function WithRaw(st: State, raw: string, ents: seq<Entity>, rank: seq<nat>): (r: State)
    requires Ok(st) && Expandable(ents, rank)
    ensures Ok(r)
  {
    if raw == "" then st else WithText(st, Expand(Normalize(raw), ents, '&', rank))
  }

  // ezxml_close_tag
  function Closed(st: State, name: string): (r: Option<State>)
    requires Ok(st)
    ensures r.Some? ==> Ok(r.value)
  {
    if st.cur < 0 || Current(st).name == "" || name != Current(st).name then None
    else Some(Up(st))
  }

  function Up(st: State): (r: State)
    requires Ok(st) && st.cur >= 0
    ensures Ok(r)
  {
    if st.cur > 0 then
      ReachesLess(st.xml, st.cur - 1);
      State(st.xml, st.cur - 1)
    else State(st.xml, -1)
  }

  // ---------- scanning ----------

  function StrCSpn(s: string, stops: string): (n: nat)
    ensures n <= |s|
  {
    if s == "" || s[0] in stops then 0 else 1 + StrCSpn(s[1..], stops)
  }

  function StrSpn(s: string, set_: string): (n: nat)
    ensures n <= |s|
  {
    if s == "" || s[0] !in set_ then 0 else 1 + StrSpn(s[1..], set_)
  }

  const WS := "\t\r\n "

  // isalpha, '_' or ':'; a char is unsigned on the target
  predicate NameStart(c: char) {
    'A' <= c <= 'Z' || 'a' <= c <= 'z' || c == '_' || c == ':'
  }

  predicate IsOther(p: string) {
    "!--" <= p || "![CDATA[" <= p || "!DOCTYPE" <= p || "?" <= p
  }

  // The main loop, from after a '<'. The last character of the document has been replaced by its
  // terminator and kept in `e`.
  ghost function Scan(p: string, e: char, st: State, ents: seq<Entity>, rank: seq<nat>): Outcome
    requires Ok(st) && Expandable(ents, rank)
    decreases |p|, 1
  {
    if p != "" && NameStart(p[0]) then
      if st.cur < 0 then Malformed
      else
        var n := StrCSpn(p, WS + "/>");
        ScanTag(p[..n], SkipSpaces(p[n..]), e, st, ents, rank)
    else if p != "" && p[0] == '/' then
      var n := StrCSpn(p[1..], WS + ">");
      ScanClose(p[1..][..n], p[1..][n..], e, st, ents, rank)
    else if IsOther(p) then OtherMarkup
    else Malformed
  }

  // After the name of an opening tag.
  ghost function ScanTag(name: string, q: string, e: char, st: State, ents: seq<Entity>, rank: seq<nat>): Outcome
    requires Ok(st) && st.cur >= 0 && Expandable(ents, rank)
    decreases |q|, 0, 1
  {
    if Peek(q) == '/' then
      if (Peek(q, 1) != '\0' && Peek(q, 1) != '>') || (Peek(q, 1) == '\0' && e != '>') then Malformed
      else After(Advance(q, 1), e, Up(Opened(st, name)), ents, rank)
    else if Peek(q) == '>' || (Peek(q) == '\0' && e == '>') then After(q, e, Opened(st, name), ents, rank)
    else if Peek(q) == '\0' then Malformed
    else OtherMarkup
  }

  // After the name of a closing tag.
  ghost function ScanClose(name: string, q: string, e: char, st: State, ents: seq<Entity>, rank: seq<nat>): Outcome
    requires Ok(st) && Expandable(ents, rank)
    decreases |q|, 0, 1
  {
    if Peek(q) == '\0' && e != '>' then Malformed
    else match Closed(st, name)
      case None => Malformed
      case Some(up) => After(if IsSpace(Peek(q)) then q[StrSpn(q, WS)..] else q, e, up, ents, rank)
  }

  // At the end of a piece of markup: character content up to the next '<'.
  ghost function After(p: string, e: char, st: State, ents: seq<Entity>, rank: seq<nat>): Outcome
    requires Ok(st) && Expandable(ents, rank)
    decreases |p|, 0, 0
  {
    if |p| <= 1 then Finish(st)
    else
      var d := p[1..];
      var n := StrCSpn(d, "<");
      if n == |d| then Finish(st)
      else Scan(d[n + 1..], e, WithRaw(st, d[..n], ents, rank), ents, rank)
  }

  function Finish(st: State): Outcome {
    if st.cur < 0 then Document(st.xml) else Malformed
  }

  // A document, after its conversion from UTF-16.
  ghost function Parse(doc: string, ents: seq<Entity>, rank: seq<nat>): Outcome
    requires Expandable(ents, rank)
  {
    if doc == "" then Malformed else ParseText(Converted(doc), ents, rank)
  }

  // The text of a document that starts with a byte order mark is converted.
  function Converted(doc: string): string
    requires doc != ""
  {
    match EzxmlUtf16.Order(doc)
    case None => doc
    case Some(be) => EzxmlUtf16.Transcode(doc, 2, be)
  }

  ghost function ParseText(text: string, ents: seq<Entity>, rank: seq<nat>): Outcome
    requires Expandable(ents, rank)
  {
    if text == "" then Malformed
    else
      var s := text[..|text| - 1];
      var n := StrCSpn(s, "<");
      if n == |s| then Malformed else Scan(s[n + 1..], text[|text| - 1], START, ents, rank)
  }

  // A document in UTF-16 with its byte order mark, in either byte order, is parsed as the same code
  // points in UTF-8 are.
  lemma Utf16Parsed(cs: seq<nat>, be: bool, ents: seq<Entity>, rank: seq<nat>)
    requires EzxmlUtf16.Scalars(cs) && Expandable(ents, rank)
    ensures Parse(EzxmlUtf16.WithMark(cs, be), ents, rank) == ParseText(EzxmlUtf16.AllUtf8(cs), ents, rank)
  {
    var doc := EzxmlUtf16.WithMark(cs, be);
    assert doc[2..] == EzxmlUtf16.AllUtf16(cs, be);
    EzxmlUtf16.TranscodeIsUtf8(doc, 2, cs, be);
  }

  class Root {
    var xml: Element
    var cur: int

    constructor ()
      ensures Here() == START
    {
      xml, cur := START.xml, START.cur;
    }

    function Here(): State
      reads this
    {
      State(xml, cur)
    }

    // ezxml_open_tag
    method OpenTag(name: string)
      requires Ok(Here()) && cur >= 0
      modifies this
      ensures Here() == Opened(old(Here()), name)
    {
      var x := At(xml, cur);
      if x.name != "" {
        xml := Set(xml, cur, x.(child := Snoc(x.child, |x.txt|, Element(name, "", End))));
        cur := cur + 1;
      } else {
        xml := Set(xml, cur, x.(name := name));
      }
    }

    // ezxml_char_content
    method CharContent(s: string, ents: seq<Entity>, ghost rank: seq<nat>)
      requires Ok(Here()) && s != "" && Expandable(ents, rank)
      modifies this
      ensures Here() == WithText(old(Here()), Expand(Normalize(s), ents, '&', rank))
    {
      if cur < 0 || At(xml, cur).name == "" { return; }
      var x := At(xml, cur);
      var text := Decode(s, ents, '&', rank);
      xml := Set(xml, cur, x.(txt := if x.txt == "" then text else x.txt + text));
      assert x.txt == "" ==> x.txt + text == text;
    }

    // ezxml_close_tag
    method CloseTag(name: string) returns (ok: bool)
      requires Ok(Here())
      modifies this
      ensures var r := Closed(old(Here()), name); ok == r.Some? && Here() == if ok then r.value else old(Here())
    {
      if cur < 0 || At(xml, cur).name == "" || name != At(xml, cur).name { return false; }
      cur := cur - 1;
      return true;
    }

    // One piece of markup, from after its '<'; `q` is where it ends.
    method Markup(p: string, e: char, ents: seq<Entity>, ghost rank: seq<nat>) returns (r: Option<Outcome>, q: string)
      requires Ok(Here()) && Expandable(ents, rank)
      modifies this
      ensures Ok(Here()) && |q| <= |p|
      ensures Scan(p, e, old(Here()), ents, rank) ==
        match r case Some(o) => o case None => After(q, e, Here(), ents, rank)
    {
      r, q := None, p;
      if p != "" && NameStart(p[0]) {
        if cur < 0 { return Some(Malformed), q; }
        var n := StrCSpn(p, WS + "/>");
        var name := p[..n];
        q := SkipSpaces(p[n..]);
        if Peek(q) == '/' {
          q := Advance(q, 1);
          if (Peek(q) != '\0' && Peek(q) != '>') || (Peek(q) == '\0' && e != '>') { return Some(Malformed), q; }
          OpenTag(name);
          assert p[0] !in WS + "/>";
          CloseOpened(name);
        } else if Peek(q) == '>' || (Peek(q) == '\0' && e == '>') {
          OpenTag(name);
        } else if Peek(q) == '\0' {
          return Some(Malformed), q;
        } else {
          return Some(OtherMarkup), q;
        }
      } else if p != "" && p[0] == '/' {
        var n := StrCSpn(p[1..], WS + ">");
        q := p[1..][n..];
        if Peek(q) == '\0' && e != '>' { return Some(Malformed), q; }
        var ok := CloseTag(p[1..][..n]);
        if !ok { return Some(Malformed), q; }
        if IsSpace(Peek(q)) { q := q[StrSpn(q, WS)..]; }
      } else {
        r := Some(if IsOther(p) then OtherMarkup else Malformed);
      }
    }

    // The closing half of a self-closing tag.
    method CloseOpened(name: string)
      requires Ok(Here()) && cur >= 0
      requires Current(Here()).name == name != ""
      modifies this
      ensures Here() == Up(old(Here()))
    {
      var ok := CloseTag(name);
    }

    // ezxml_parse_str
    method ParseStr(doc: string, ents: seq<Entity>, ghost rank: seq<nat>) returns (r: Outcome)
      requires Here() == START && Expandable(ents, rank)
      modifies this
      ensures r == Parse(doc, ents, rank)
    {
      if doc == "" { return Malformed; }
      var u := EzxmlUtf16.Str2Utf8(doc);
      r := ParseWork(if u.Some? then u.value else doc, ents, rank);
    }

    // The work area from the first tag on.
    method ParseWork(text: string, ents: seq<Entity>, ghost rank: seq<nat>) returns (r: Outcome)
      requires Here() == START && Expandable(ents, rank)
      modifies this
      ensures r == ParseText(text, ents, rank)
    {
      if text == "" { return Malformed; }
      var e, s := text[|text| - 1], text[..|text| - 1];
      var n := StrCSpn(s, "<");
      if n == |s| { return Malformed; }
      s := s[n + 1..];
      while true
        invariant Ok(Here()) && Scan(s, e, Here(), ents, rank) == ParseText(text, ents, rank)
        decreases |s|
      {
        var o, q := Markup(s, e, ents, rank);
        if o.Some? { return o.value; }
        if q == "" { break; }
        var d := q[1..];
        n := StrCSpn(d, "<");
        if n == |d| { break; }
        if n > 0 { CharContent(d[..n], ents, rank); }
        s := d[n + 1..];
      }
      return Finish(Here());
    }
  }
}
