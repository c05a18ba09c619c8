/** Parsing the serialization of a tag tree rebuilds the tree. */
module EzxmlRoundTrip {
  import opened Sequences
  import opened EzxmlTree
  import opened EzxmlEntities
  import opened EzxmlDecode
  import opened EzxmlDecodeInPlace
  import opened EzxmlEscape
  import opened EzxmlSerializer
  import opened EzxmlParser

  // Names that the scan takes whole.
  predicate GoodName(name: string) {
    name != "" && NameStart(name[0]) && forall i :: 0 <= i < |name| ==> name[i] !in WS + "/>"
  }

  // Subtags stand in the parent's text, in the order of their offsets.
  predicate WellFormed(xml: Element) {
    GoodName(xml.name) && WellPlaced(xml.child, 0, |xml.txt|)
  }

  predicate WellPlaced(k: Tags, start: nat, end: nat) {
    k.Tag? ==> start <= k.off <= end && WellFormed(k.xml) && WellPlaced(k.ordered, k.off, end)
  }

  // ---------- one step of the scan ----------

  lemma {:induction false} StrCSpnStops(a: string, r: string, stops: string)
    requires forall i :: 0 <= i < |a| ==> a[i] !in stops
    requires r == "" || r[0] in stops
    ensures StrCSpn(a + r, stops) == |a| && (a + r)[..|a|] == a && (a + r)[|a|..] == r
  {
    if a != "" {
      assert (a + r)[1..] == a[1..] + r;
      StrCSpnStops(a[1..], r, stops);
    } else {
      assert a + r == r;
    }
  }

  lemma {:induction false} SetSame(e: Element, d: nat)
    requires Reaches(e, d)
    ensures Set(e, d, At(e, d)) == e
    decreases d
  {
    if d > 0 {
      SetSame(LastOf(e), d - 1);
      SetLastSame(e.child);
    }
  }

  lemma {:induction false} SetLastSame(k: Tags)
    requires k.Tag?
    ensures SetLast(k, Last(k)) == k
  {
    if !k.ordered.End? { SetLastSame(k.ordered); }
  }

  lemma Replaced(st: State, x: Element)
    requires Ok(st) && st.cur >= 0
    ensures Current(Replace(st, x)) == x && Replace(st, Current(st)) == st
    ensures forall y :: Replace(Replace(st, x), y) == Replace(st, y)
  {
    SetSame(st.xml, st.cur);
    forall y ensures Replace(Replace(st, x), y) == Replace(st, y) { SetAt(st.xml, st.cur, x, y); }
    SetAt(st.xml, st.cur, x, x);
  }

  lemma OpenStep(name: string, rest: string, e: char, st: State, ents: seq<Entity>, rank: seq<nat>)
    requires GoodName(name) && Ok(st) && st.cur >= 0 && Expandable(ents, rank)
    ensures Scan(name + (">" + rest), e, st, ents, rank) == After(">" + rest, e, Opened(st, name), ents, rank)
  {
    StrCSpnStops(name, ">" + rest, WS + "/>");
    TagEnd(name, ">" + rest, e, st, ents, rank);
  }

  lemma TagEnd(name: string, q: string, e: char, st: State, ents: seq<Entity>, rank: seq<nat>)
    requires Ok(st) && st.cur >= 0 && Expandable(ents, rank) && q != "" && q[0] == '>'
    ensures SkipSpaces(q) == q && ScanTag(name, q, e, st, ents, rank) == After(q, e, Opened(st, name), ents, rank)
  {
  }

  lemma CloseStep(name: string, q: string, e: char, st: State, ents: seq<Entity>, rank: seq<nat>)
    requires GoodName(name) && Ok(st) && st.cur >= 0 && Current(st).name == name && Expandable(ents, rank)
    requires if q == "" then e == '>' else q[0] == '>'
    ensures Scan("/" + (name + q), e, st, ents, rank) == After(q, e, Up(st), ents, rank)
  {
    var p := "/" + (name + q);
    assert p[0] == '/' && p[1..] == name + q;
    forall i | 0 <= i < |name| ensures name[i] !in WS + ">" { assert name[i] !in WS + "/>"; }
    StrCSpnStops(name, q, WS + ">");
    CloseEnd(name, q, e, st, ents, rank);
  }

  lemma CloseEnd(name: string, q: string, e: char, st: State, ents: seq<Entity>, rank: seq<nat>)
    requires GoodName(name) && Ok(st) && st.cur >= 0 && Current(st).name == name && Expandable(ents, rank)
    requires if q == "" then e == '>' else q[0] == '>'
    ensures ScanClose(name, q, e, st, ents, rank) == After(q, e, Up(st), ents, rank)
  {
  }

  lemma {:induction false} NoMarkup(t: string)
    ensures forall i :: 0 <= i < |Escape(t, false)| ==> Escape(t, false)[i] != '<'
    ensures Escape(t, false) == "" <==> t == ""
  {
    if t != "" { NoMarkup(t[1..]); }
  }

  // Character content: the text arrives as it was before it was escaped.
  lemma TextStep(t: string, r: string, e: char, st: State, ents: seq<Entity>, rank: seq<nat>)
    requires Ok(st) && st.cur >= 0 && Current(st).name != "" && Expandable(ents, rank) && DEFAULT <= ents
    ensures After(">" + (Escape(t, false) + ("<" + r)), e, st, ents, rank) ==
      Scan(r, e, Replace(st, Current(st).(txt := Current(st).txt + t)), ents, rank)
  {
    var a := Escape(t, false);
    NoMarkup(t);
    StrCSpnStops(a, "<" + r, "<");
    DecodeEscaped(t, ents, rank);
    AfterText(a, r, e, st, ents, rank);
    if t == "" {
      assert Current(st).txt + t == Current(st).txt;
      Replaced(st, Current(st));
    }
  }

  lemma AfterText(a: string, r: string, e: char, st: State, ents: seq<Entity>, rank: seq<nat>)
    requires Ok(st) && Expandable(ents, rank) && StrCSpn(a + ("<" + r), "<") == |a|
    ensures After(">" + (a + ("<" + r)), e, st, ents, rank) ==
      Scan(r, e, WithRaw(st, a, ents, rank), ents, rank)
  {
    var p, d := ">" + (a + ("<" + r)), a + ("<" + r);
    assert p[1..] == d && |d| == |a| + 1 + |r|;
    assert d[..|a|] == a && d[|a| + 1..] == r;
  }

  // ---------- tags ----------

  // A tag without its first '<'.
  function Tail(xml: Element): string {
    xml.name + (">" + (Content(xml) + ("<" + ("/" + (xml.name + ">")))))
  }

  lemma RegroupTag(name: string, content: string)
    ensures "<" + name + ">" + content + "</" + name + ">" == "<" + (name + (">" + (content + ("<" + ("/" + (name + ">"))))))
  {
    var s, u := "<" + name + ">" + content + "</" + name + ">",
      "<" + (name + (">" + (content + ("<" + ("/" + (name + ">"))))));
    assert "</" == "<" + "/";
    Associative("<" + name + ">" + content, "<", "/");
    Associative("<" + name + ">" + content + "<", "/", name);
    Associative("<" + name + ">" + content + "<", "/" + name, ">");
    Associative("/", name, ">");
    Associative("<" + name + ">", content, "<");
    Associative("<" + name + ">", content + "<", "/" + (name + ">"));
    Associative(content, "<", "/" + (name + ">"));
    Associative("<" + name, ">", content + ("<" + ("/" + (name + ">"))));
    Associative("<", name, ">" + (content + ("<" + ("/" + (name + ">")))));
  }

  lemma TailXml(xml: Element)
    ensures ToXml(xml) == "<" + Tail(xml)
  {
    RegroupTag(xml.name, Content(xml));
  }

  lemma TailRest(name: string, content: string, rest: string)
    ensures name + (">" + (content + ("<" + ("/" + (name + ">"))))) + rest ==
      name + (">" + (content + ("<" + ("/" + (name + (">" + rest))))))
  {
    Associative(name, ">" + (content + ("<" + ("/" + (name + ">")))), rest);
    Associative(">", content + ("<" + ("/" + (name + ">"))), rest);
    Associative(content, "<" + ("/" + (name + ">")), rest);
    Associative("<", "/" + (name + ">"), rest);
    Associative("/", name + ">", rest);
    Associative(name, ">", rest);
  }

  // The tag is added to the current one.
  function Added(st: State, xml: Element): (r: State)
    requires Ok(st) && st.cur >= 0
    ensures Ok(r) && r.cur >= 0
  {
    Replace(st, Current(st).(child := Snoc(Current(st).child, |Current(st).txt|, xml)))
  }

  lemma OpenedNew(st: State, xml: Element)
    requires Ok(st) && st.cur >= 0 && Current(st).name != ""
    ensures var r := Opened(st, xml.name);
      r.cur >= 0 && Current(r) == Element(xml.name, "", End) && Up(Replace(r, xml)) == Added(st, xml)
  {
    var x, c := Current(st), Element(xml.name, "", End);
    SetBelow(st.xml, st.cur, x.(child := Snoc(x.child, |x.txt|, c)), x.child, |x.txt|, c, xml);
  }

  // An opened tag names the root, or is the last subtag of the current tag, at the end of its text;
  // nothing else changes.
  lemma OpenedPlace(st: State, name: string)
    requires Ok(st) && st.cur >= 0
    ensures var x, r := Current(st), Opened(st, name);
      if x.name == "" then r == Replace(st, x.(name := name))
      else
        r.cur == st.cur + 1 && Current(r) == Element(name, "", End) &&
        Up(r) == Replace(st, x.(child := Snoc(x.child, |x.txt|, Element(name, "", End))))
    ensures Replace(st, Current(st)) == st
  {
    SetSame(st.xml, st.cur);
    if Current(st).name != "" { OpenedNew(st, Element(name, "", End)); }
  }

  lemma {:induction false} ElementStep(xml: Element, rest: string, e: char, st: State, ents: seq<Entity>, rank: seq<nat>)
    requires WellFormed(xml) && Ok(st) && st.cur >= 0 && Current(st).name != ""
    requires Expandable(ents, rank) && DEFAULT <= ents
    ensures Scan(Tail(xml) + rest, e, st, ents, rank) == After(">" + rest, e, Added(st, xml), ents, rank)
    decreases xml, 2
  {
    var name := xml.name;
    var close := "/" + (name + (">" + rest));
    TailRest(name, Content(xml), rest);
    var inner := Opened(st, name);
    OpenedNew(st, xml);
    OpenStep(name, Content(xml) + ("<" + close), e, st, ents, rank);
    ContentStep(xml, close, e, inner, ents, rank);
    Replaced(inner, xml);
    CloseStep(name, ">" + rest, e, Replace(inner, xml), ents, rank);
  }

  lemma {:induction false} ContentStep(xml: Element, r: string, e: char, st: State, ents: seq<Entity>, rank: seq<nat>)
    requires WellFormed(xml) && Ok(st) && st.cur >= 0 && Current(st) == Element(xml.name, "", End)
    requires Expandable(ents, rank) && DEFAULT <= ents
    ensures After(">" + (Content(xml) + ("<" + r)), e, st, ents, rank) == Scan(r, e, Replace(st, xml), ents, rank)
    decreases xml, 1
  {
    assert "" + xml.txt == xml.txt && xml.txt[..0] == "";
    if xml.child.Tag? {
      TagsStep(xml.child, xml.name, xml.txt, 0, End, r, e, st, ents, rank);
    } else {
      TextStep(xml.txt, r, e, st, ents, rank);
    }
  }

  // The text before a subtag, and the subtag.
  lemma {:induction false} TagStep(off: nat, xml: Element, name: string, txt: string, start: nat, done: Tags, r: string,
      e: char, st: State, ents: seq<Entity>, rank: seq<nat>)
    requires start <= off <= |txt| && WellFormed(xml) && name != ""
    requires Ok(st) && st.cur >= 0 && Current(st) == Element(name, txt[..start], done)
    requires Expandable(ents, rank) && DEFAULT <= ents
    ensures After(">" + (Before(off, txt, start) + ("<" + (Tail(xml) + r))), e, st, ents, rank) ==
      After(">" + r, e, Replace(st, Element(name, txt[..off], Snoc(done, off, xml))), ents, rank)
    decreases xml, 3
  {
    BeforeText(off, txt, start);
    TextStep(txt[start..off], Tail(xml) + r, e, st, ents, rank);
    var st1 := Replace(st, Element(name, txt[..off], done));
    Replaced(st, Element(name, txt[..off], done));
    ElementStep(xml, r, e, st1, ents, rank);
  }

  lemma BeforeText(off: nat, txt: string, start: nat)
    requires start <= off <= |txt|
    ensures Before(off, txt, start) == Escape(txt[start..off], false) && txt[..start] + txt[start..off] == txt[..off]
  {
    assert Piece(txt[start..], off - start) == txt[start..off];
  }

  lemma {:induction false} TagsStep(k: Tags, name: string, txt: string, start: nat, done: Tags, r: string,
      e: char, st: State, ents: seq<Entity>, rank: seq<nat>)
    requires k.Tag? && start <= |txt| && WellPlaced(k, start, |txt|) && name != ""
    requires Ok(st) && st.cur >= 0 && Current(st) == Element(name, txt[..start], done)
    requires Expandable(ents, rank) && DEFAULT <= ents
    ensures After(">" + (TagsXml(k, txt, start) + ("<" + r)), e, st, ents, rank) ==
      Scan(r, e, Replace(st, Element(name, txt, Append(done, k))), ents, rank)
    decreases k, 0
  {
    var off, next := k.off, Snoc(done, k.off, k.xml);
    var rest := Rest(k.ordered, txt, off);
    TagsText(Before(off, txt, start), k.xml, rest, r);
    TagStep(off, k.xml, name, txt, start, done, rest + ("<" + r), e, st, ents, rank);
    var st2 := Replace(st, Element(name, txt[..off], next));
    Replaced(st, Element(name, txt[..off], next));
    AppendSnoc(done, off, k.xml, k.ordered);
    RestStep(k.ordered, name, txt, off, next, r, e, st2, ents, rank);
  }

  lemma {:induction false} RestStep(k: Tags, name: string, txt: string, off: nat, done: Tags, r: string,
      e: char, st: State, ents: seq<Entity>, rank: seq<nat>)
    requires off <= |txt| && WellPlaced(k, off, |txt|) && name != ""
    requires Ok(st) && st.cur >= 0 && Current(st) == Element(name, txt[..off], done)
    requires Expandable(ents, rank) && DEFAULT <= ents
    ensures After(">" + (Rest(k, txt, off) + ("<" + r)), e, st, ents, rank) ==
      Scan(r, e, Replace(st, Element(name, txt, Append(done, k))), ents, rank)
    decreases k, 4
  {
    if k.Tag? {
      TagsStep(k, name, txt, off, done, r, e, st, ents, rank);
    } else {
      assert txt[..off] + txt[off..] == txt;
      TextStep(txt[off..], r, e, st, ents, rank);
    }
  }

  lemma TagsText(before: string, xml: Element, rest: string, r: string)
    ensures before + ToXml(xml) + rest + ("<" + r) == before + ("<" + (Tail(xml) + (rest + ("<" + r))))
  {
    TailXml(xml);
    Associative(before + ToXml(xml), rest, "<" + r);
    Associative(before, "<" + Tail(xml), rest + ("<" + r));
    Associative("<", Tail(xml), rest + ("<" + r));
  }

  // ---------- documents ----------

  // For every tree with offsets in order and in their texts, parsing its serialization gives the
  // tree back: names, texts, subtags in order, and offsets.
  lemma ParseToXml(xml: Element, ents: seq<Entity>, rank: seq<nat>)
    requires WellFormed(xml) && Expandable(ents, rank) && DEFAULT <= ents
    ensures Parse(ToXml(xml), ents, rank) == Document(xml)
  {
    var name := xml.name;
    var doc, body := ToXml(xml), name + (">" + (Content(xml) + ("<" + ("/" + (name + "")))));
    DocumentText(xml);
    assert doc[..|doc| - 1] == "<" + body && doc[|doc| - 1] == '>';
    assert doc[0] == '<' && Converted(doc) == doc;
    StrCSpnStops("", "<" + body, "<");
    assert "" + ("<" + body) == "<" + body && ("<" + body)[1..] == body;
    assert Parse(doc, ents, rank) == Scan(body, '>', START, ents, rank);
    OpenStep(name, Content(xml) + ("<" + ("/" + (name + ""))), '>', START, ents, rank);
    var st := State(Element(name, "", End), 0);
    assert Opened(START, name) == st;
    ContentStep(xml, "/" + (name + ""), '>', st, ents, rank);
    var full := State(xml, 0);
    assert Replace(st, xml) == full;
    CloseStep(name, "", '>', full, ents, rank);
  }

  lemma DocumentText(xml: Element)
    ensures ToXml(xml) == "<" + (xml.name + (">" + (Content(xml) + ("<" + ("/" + (xml.name + "")))))) + ">"
  {
    TailXml(xml);
    TailRest2(xml.name, Content(xml));
    Associative("<", xml.name + (">" + (Content(xml) + ("<" + ("/" + xml.name)))), ">");
    assert xml.name + "" == xml.name;
  }

  lemma TailRest2(name: string, content: string)
    ensures name + (">" + (content + ("<" + ("/" + name)))) + ">" ==
      name + (">" + (content + ("<" + ("/" + (name + ">")))))
  {
    Associative(name, ">" + (content + ("<" + ("/" + name))), ">");
    Associative(">", content + ("<" + ("/" + name)), ">");
    Associative(content, "<" + ("/" + name), ">");
    Associative("<", "/" + name, ">");
    Associative("/", name, ">");
  }

  // Serializing a tree and parsing the result.
  method Reparse(xml: Element, ents: seq<Entity>, ghost rank: seq<nat>) returns (r: Outcome)
    requires WellFormed(xml) && Expandable(ents, rank) && DEFAULT <= ents
    ensures r == Document(xml)
  {
    var s := ToXmlText(xml);
    var root := new Root();
    r := root.ParseStr(s, ents, rank);
    ParseToXml(xml, ents, rank);
  }
}
