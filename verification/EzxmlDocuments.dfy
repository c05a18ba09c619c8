/** Documents described without the parser: every way to write a tree, and the tree it stands for. */
module EzxmlDocuments {
  import opened Sequences
  import opened CString
  import opened EzxmlTree
  import opened EzxmlEntities
  import opened EzxmlDecode
  import opened EzxmlDecodeInPlace
  import opened EzxmlEscape
  import opened EzxmlParser
  import opened EzxmlRoundTrip
  import opened EzxmlCharData

  // A tag in one piece or with a content, and white space behind its names.
  datatype Markup = Empty(name: string, ws: string) | Full(name: string, ws: string, body: Body, close: string)

  // Text, and subtags with text around them.
  datatype Body = Text(text: seq<Unit>) | With(text: seq<Unit>, sub: Markup, more: Body)

  // A tag without the '<' and the '>' around it.
  function Inner(m: Markup): string
    decreases m, 1
  {
    match m
    case Empty(name, ws) => name + (ws + "/")
    case Full(name, ws, body, close) => name + (ws + (">" + (SpellBody(body) + ("<" + ("/" + (name + close))))))
  }

  function SpellTag(m: Markup): string
    decreases m, 2
  {
    "<" + (Inner(m) + ">")
  }

  function SpellBody(b: Body): string
    decreases b, 0
  {
    match b
    case Text(t) => SpellText(t)
    case With(t, sub, more) => SpellText(t) + (SpellTag(sub) + SpellBody(more))
  }

  function Tree(m: Markup): Element
    decreases m, 1
  {
    match m
    case Empty(name, _) => Element(name, "", End)
    case Full(name, _, body, _) => Element(name, BodyText(body), BodyTags(body, 0))
  }

  function BodyText(b: Body): string {
    match b
    case Text(t) => TextValue(t, false)
    case With(t, _, more) => TextValue(t, false) + BodyText(more)
  }

  // The subtags, at the places in the text where they stand.
  function BodyTags(b: Body, at: nat): Tags
    decreases b, 0
  {
    match b
    case Text(_) => End
    case With(t, sub, more) =>
      var off := at + |TextValue(t, false)|;
      Tag(off, Tree(sub), BodyTags(more, off))
  }

  // Section 2.3 of XML 1.0.
  predicate IsWhite(ws: string) {
    forall i :: 0 <= i < |ws| ==> ws[i] in WS
  }

  ghost predicate IsMarkup(m: Markup, ents: seq<Entity>) {
    GoodName(m.name) && IsWhite(m.ws) && (m.Full? ==> IsBody(m.body, ents) && IsWhite(m.close))
  }

  ghost predicate IsBody(b: Body, ents: seq<Entity>) {
    IsText(b.text, ents) && (b.With? ==> IsMarkup(b.sub, ents) && IsBody(b.more, ents))
  }

  // ---------- white space ----------

  lemma {:induction false} WhiteSkipped(ws: string, r: string)
    requires IsWhite(ws) && (r == "" || !IsSpace(r[0]))
    ensures SkipSpaces(ws + r) == r
  {
    if ws == "" {
      assert ws + r == r;
    } else {
      assert (ws + r)[1..] == ws[1..] + r && ws[0] in WS;
      WhiteSkipped(ws[1..], r);
    }
  }

  lemma {:induction false} WhiteSpanned(ws: string, r: string)
    requires IsWhite(ws) && (r == "" || r[0] !in WS)
    ensures StrSpn(ws + r, WS) == |ws| && (ws + r)[|ws|..] == r
  {
    if ws == "" {
      assert ws + r == r;
    } else {
      assert (ws + r)[1..] == ws[1..] + r;
      WhiteSpanned(ws[1..], r);
    }
  }

  // What may follow a tag: its '>', unless that is the last character of the document.
  predicate Ends(r: string, e: char) {
    if r == "" then e == '>' else r[0] == '>'
  }

  // ---------- tags ----------

  // An opening tag, up to what follows its white space.
  lemma NameScanned(name: string, ws: string, r: string, e: char, st: State, ents: seq<Entity>, rank: seq<nat>)
    requires GoodName(name) && IsWhite(ws) && Ok(st) && st.cur >= 0 && Expandable(ents, rank)
    requires r == "" || r[0] == '/' || r[0] == '>'
    ensures Scan(name + (ws + r), e, st, ents, rank) == ScanTag(name, r, e, st, ents, rank)
  {
    var q := ws + r;
    assert q != "" ==> q[0] in WS + "/>" by {
      if ws != "" { assert q[0] == ws[0]; } else { assert q == r; }
    }
    StrCSpnStops(name, q, WS + "/>");
    WhiteSkipped(ws, r);
    assert (name + q)[0] == name[0];
  }

  lemma OpenTagStep(name: string, ws: string, r: string, e: char, st: State, ents: seq<Entity>, rank: seq<nat>)
    requires GoodName(name) && IsWhite(ws) && Ok(st) && st.cur >= 0 && Expandable(ents, rank) && Ends(r, e)
    ensures Scan(name + (ws + r), e, st, ents, rank) == After(r, e, Opened(st, name), ents, rank)
  {
    NameScanned(name, ws, r, e, st, ents, rank);
  }

  lemma EmptyTagStep(name: string, ws: string, r: string, e: char, st: State, ents: seq<Entity>, rank: seq<nat>)
    requires GoodName(name) && IsWhite(ws) && Ok(st) && st.cur >= 0 && Expandable(ents, rank) && Ends(r, e)
    ensures Scan(name + (ws + ("/" + r)), e, st, ents, rank) == After(r, e, Up(Opened(st, name)), ents, rank)
  {
    NameScanned(name, ws, "/" + r, e, st, ents, rank);
    assert ("/" + r)[1..] == r;
  }

  // A closing tag, whatever its name.
  lemma CloseScanned(name: string, q: string, e: char, st: State, ents: seq<Entity>, rank: seq<nat>)
    requires Ok(st) && Expandable(ents, rank) && forall i :: 0 <= i < |name| ==> name[i] !in WS + ">"
    requires q == "" || q[0] in WS + ">"
    ensures Scan("/" + (name + q), e, st, ents, rank) == ScanClose(name, q, e, st, ents, rank)
  {
    var p := "/" + (name + q);
    assert p[0] == '/' && p[1..] == name + q;
    StrCSpnStops(name, q, WS + ">");
  }

  lemma CloseTagStep(name: string, ws: string, r: string, e: char, st: State, ents: seq<Entity>, rank: seq<nat>)
    requires GoodName(name) && IsWhite(ws) && Ends(r, e)
    requires Ok(st) && st.cur >= 0 && Current(st).name == name && Expandable(ents, rank)
    ensures Scan("/" + (name + (ws + r)), e, st, ents, rank) == After(r, e, Up(st), ents, rank)
  {
    var q := ws + r;
    forall i | 0 <= i < |name| ensures name[i] !in WS + ">" { assert name[i] !in WS + "/>"; }
    assert q == "" || q[0] in WS + ">" by {
      if ws != "" { assert q[0] == ws[0]; } else { assert q == r; }
    }
    CloseScanned(name, q, e, st, ents, rank);
    WhiteSpanned(ws, r);
    if ws == "" { assert q == r; } else { assert q[0] == ws[0] && IsSpace(ws[0]); }
  }

  // ---------- contents ----------

  // A text arrives in the current tag.
  lemma UnitsStep(t: seq<Unit>, r: string, e: char, st: State, ents: seq<Entity>, rank: seq<nat>)
    requires IsText(t, ents) && Ok(st) && st.cur >= 0 && Current(st).name != ""
    requires Expandable(ents, rank) && DEFAULT <= ents
    ensures After(">" + (SpellText(t) + ("<" + r)), e, st, ents, rank) ==
      Scan(r, e, Replace(st, Current(st).(txt := Current(st).txt + TextValue(t, false))), ents, rank)
  {
    var a := SpellText(t);
    TextDecoded(t, ents, rank);
    StrCSpnStops(a, "<" + r, "<");
    AfterText(a, r, e, st, ents, rank);
    if a == "" {
      Nothing(t, ents);
      assert Current(st).txt + TextValue(t, false) == Current(st).txt;
      EzxmlRoundTrip.Replaced(st, Current(st));
    }
  }

  lemma Nothing(t: seq<Unit>, ents: seq<Entity>)
    requires IsText(t, ents) && SpellText(t) == ""
    ensures TextValue(t, false) == ""
  {
    if t != [] { UnitChars(t[0], ents); }
  }

  lemma RegroupFull(name: string, ws: string, body: string, close: string, r: string)
    ensures name + (ws + (">" + (body + ("<" + ("/" + (name + close)))))) + r ==
      name + (ws + (">" + (body + ("<" + ("/" + (name + (close + r)))))))
  {
    Associative(name, ws + (">" + (body + ("<" + ("/" + (name + close))))), r);
    Associative(ws, ">" + (body + ("<" + ("/" + (name + close)))), r);
    Associative(">", body + ("<" + ("/" + (name + close))), r);
    Associative(body, "<" + ("/" + (name + close)), r);
    Associative("<", "/" + (name + close), r);
    Associative("/", name + close, r);
    Associative(name, close, r);
  }

  // A tag is added where its opening tag puts it.
  lemma {:induction false} MarkupStep(m: Markup, r: string, e: char, st: State, ents: seq<Entity>, rank: seq<nat>)
    requires IsMarkup(m, ents) && Ends(r, e) && Ok(st) && st.cur >= 0
    requires Current(Opened(st, m.name)) == Element(m.name, "", End)
    requires Expandable(ents, rank) && DEFAULT <= ents
    ensures Scan(Inner(m) + r, e, st, ents, rank) ==
      After(r, e, Up(Replace(Opened(st, m.name), Tree(m))), ents, rank)
    decreases m, 1
  {
    var st1 := Opened(st, m.name);
    EzxmlRoundTrip.Replaced(st1, Tree(m));
    match m
    case Empty(name, ws) =>
      Associative(name, ws + "/", r);
      Associative(ws, "/", r);
      EmptyTagStep(name, ws, r, e, st, ents, rank);
    case Full(name, ws, body, close) =>
      var rest := "/" + (name + (close + r));
      RegroupFull(name, ws, SpellBody(body), close, r);
      OpenTagStep(name, ws, ">" + (SpellBody(body) + ("<" + rest)), e, st, ents, rank);
      BodyStep(body, rest, e, st1, Element(name, "", End), ents, rank);
      assert "" + BodyText(body) == BodyText(body);
      CloseTagStep(name, close, r, e, Replace(st1, Tree(m)), ents, rank);
  }

  lemma RegroupWith(text: string, inner: string, more: string, r: string)
    ensures text + ("<" + (inner + ">") + more) + ("<" + r) == text + ("<" + (inner + (">" + (more + ("<" + r)))))
  {
    Associative(text, "<" + (inner + ">") + more, "<" + r);
    Associative("<" + (inner + ">"), more, "<" + r);
    Associative("<", inner + ">", more + ("<" + r));
    Associative(inner, ">", more + ("<" + r));
  }

  // A tag with a content added: its text, and its subtags at their offsets.
  function Grown(x: Element, b: Body): Element {
    Element(x.name, x.txt + BodyText(b), Append(x.child, BodyTags(b, |x.txt|)))
  }

  // A tag with a text and a subtag added.
  function Joined(x: Element, t: seq<Unit>, sub: Markup): Element {
    var txt := x.txt + TextValue(t, false);
    Element(x.name, txt, Snoc(x.child, |txt|, Tree(sub)))
  }

  lemma GrownJoined(x: Element, t: seq<Unit>, sub: Markup, more: Body)
    ensures Grown(Joined(x, t, sub), more) == Grown(x, With(t, sub, more))
  {
    var off := |x.txt| + |TextValue(t, false)|;
    Associative(x.txt, TextValue(t, false), BodyText(more));
    AppendSnoc(x.child, off, Tree(sub), BodyTags(more, off));
  }

  // A content is added to the current tag.
  lemma {:induction false} BodyStep(b: Body, r: string, e: char, st: State, x: Element, ents: seq<Entity>, rank: seq<nat>)
    requires IsBody(b, ents) && Ok(st) && st.cur >= 0 && Current(st) == x && x.name != ""
    requires Expandable(ents, rank) && DEFAULT <= ents
    ensures After(">" + (SpellBody(b) + ("<" + r)), e, st, ents, rank) == Scan(r, e, Replace(st, Grown(x, b)), ents, rank)
    decreases b, 0
  {
    match b
    case Text(t) => UnitsStep(t, r, e, st, ents, rank);
    case With(t, sub, more) =>
      var next := ">" + (SpellBody(more) + ("<" + r));
      RegroupWith(SpellText(t), Inner(sub), SpellBody(more), r);
      var st2 := SubStep(t, sub, next, e, st, x, ents, rank);
      BodyStep(more, r, e, st2, Joined(x, t, sub), ents, rank);
      GrownJoined(x, t, sub, more);
  }

  // A text and the subtag behind it.
  lemma {:induction false} SubStep(t: seq<Unit>, sub: Markup, next: string, e: char, st: State, x: Element,
      ents: seq<Entity>, rank: seq<nat>) returns (st2: State)
    requires IsText(t, ents) && IsMarkup(sub, ents) && Ends(next, e)
    requires Ok(st) && st.cur >= 0 && Current(st) == x && x.name != ""
    requires Expandable(ents, rank) && DEFAULT <= ents
    ensures st2 == Replace(st, Joined(x, t, sub)) && Current(st2) == Joined(x, t, sub)
    ensures forall y :: Replace(st2, y) == Replace(st, y)
    ensures After(">" + (SpellText(t) + ("<" + (Inner(sub) + next))), e, st, ents, rank) == After(next, e, st2, ents, rank)
    decreases sub, 2
  {
    var x1 := x.(txt := x.txt + TextValue(t, false));
    UnitsStep(t, Inner(sub) + next, e, st, ents, rank);
    var st1 := Replace(st, x1);
    EzxmlRoundTrip.Replaced(st, x1);
    OpenedNew(st1, Tree(sub));
    MarkupStep(sub, next, e, st1, ents, rank);
    st2 := Added(st1, Tree(sub));
    EzxmlRoundTrip.Replaced(st, Joined(x, t, sub));
  }
}
