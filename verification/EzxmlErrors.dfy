/** Whole documents: the tree of every well-formed one, and the documents that are refused. */
module EzxmlErrors {
  import opened Sequences
  import opened CString
  import opened EzxmlTree
  import opened EzxmlEntities
  import opened EzxmlDecode
  import opened EzxmlEscape
  import opened EzxmlParser
  import opened EzxmlRoundTrip
  import opened EzxmlCharData
  import opened EzxmlDocuments
  import EzxmlUtf16

  // A document without its last character, which is kept apart.
  function Cut(s: string): string
    requires s != ""
  {
    s[..|s| - 1]
  }

  lemma CutRight(a: string, b: string)
    requires b != ""
    ensures a + b != "" && Cut(a + b) == a + Cut(b) && (a + b)[|a + b| - 1] == b[|b| - 1]
  {
  }

  // The scan starts behind the first '<'.
  lemma TextStart(head: string, p: string, ents: seq<Entity>, rank: seq<nat>)
    requires '<' !in head && Expandable(ents, rank) && p != ""
    ensures ParseText(head + ("<" + p), ents, rank) == Scan(Cut(p), p[|p| - 1], START, ents, rank)
  {
    CutRight("<", p);
    CutRight(head, "<" + p);
    StrCSpnStops(head, "<" + Cut(p), "<");
    assert (head + ("<" + Cut(p)))[|head| + 1..] == Cut(p);
  }

  // A document without a byte order mark is parsed as it is.
  lemma NoMark(text: string, ents: seq<Entity>, rank: seq<nat>)
    requires Expandable(ents, rank) && (text != "" ==> EzxmlUtf16.Order(text).None?)
    ensures Parse(text, ents, rank) == ParseText(text, ents, rank)
  {
  }

  lemma RootOpened(name: string)
    ensures var st := Opened(START, name);
      st == State(Element(name, "", End), 0) && forall x :: Up(Replace(st, x)) == State(x, -1)
  {
  }

  // Behind the root there is text only.
  lemma TailSkipped(r: string, e: char, st: State, ents: seq<Entity>, rank: seq<nat>)
    requires Ok(st) && Expandable(ents, rank) && '<' !in r
    ensures After(r, e, st, ents, rank) == Finish(st)
  {
    if |r| > 1 {
      StrCSpnStops(r[1..], "", "<");
      assert r[1..] + "" == r[1..];
    }
  }

  // Every way to write a tree, with any text around it, is parsed to the tree.
  lemma TextRead(head: string, m: Markup, tail: string, ents: seq<Entity>, rank: seq<nat>)
    requires IsMarkup(m, ents) && '<' !in head && '<' !in tail && Expandable(ents, rank) && DEFAULT <= ents
    ensures ParseText(head + SpellTag(m) + tail, ents, rank) == Document(Tree(m))
  {
    var p, end := Inner(m) + (">" + tail), ">" + tail;
    Associative("<", Inner(m) + ">", tail);
    Associative(Inner(m), ">", tail);
    Associative(head, SpellTag(m), tail);
    CutRight(Inner(m), end);
    TextStart(head, p, ents, rank);
    RootOpened(m.name);
    MarkupStep(m, Cut(end), end[|end| - 1], START, ents, rank);
    TailSkipped(Cut(end), end[|end| - 1], State(Tree(m), -1), ents, rank);
  }

  lemma DocumentRead(head: string, m: Markup, tail: string, ents: seq<Entity>, rank: seq<nat>)
    requires IsMarkup(m, ents) && '<' !in head && '<' !in tail && Expandable(ents, rank) && DEFAULT <= ents
    requires head != "" ==> EzxmlUtf16.Order(head).None?
    ensures Parse(head + SpellTag(m) + tail, ents, rank) == Document(Tree(m))
  {
    TextRead(head, m, tail, ents, rank);
    var doc := head + SpellTag(m) + tail;
    assert doc[0] == if head == "" then '<' else head[0];
    NoMark(doc, ents, rank);
  }

  // ---------- documents with an error ----------

  // From a tag on, up to the end of the document: its content is complete and a closing tag has
  // another name, with anything behind it; or the document ends; or the error is in a subtag, behind
  // complete text and subtags.
  datatype Broken =
    | Mismatched(name: string, ws: string, body: Body, other: string, rest: string)
    | Unclosed(name: string, ws: string, body: Body)
    | Within(name: string, ws: string, body: Body, sub: Broken)

  ghost predicate IsBroken(b: Broken, ents: seq<Entity>) {
    GoodName(b.name) && IsWhite(b.ws) && IsBody(b.body, ents)
    && match b
       case Mismatched(name, _, _, other, rest) =>
         other != name && (forall i :: 0 <= i < |other| ==> other[i] !in WS + ">") && rest != "" && rest[0] in WS + ">"
       case Unclosed(_, _, _) => true
       case Within(_, _, _, sub) => IsBroken(sub, ents)
  }

  // Without the first '<'.
  function SpellBroken(b: Broken): (s: string)
    ensures b.name != "" ==> s != ""
  {
    b.name + (b.ws + (">" +
      match b
      case Mismatched(_, _, body, other, rest) => SpellBody(body) + ("<" + ("/" + (other + rest)))
      case Unclosed(_, _, body) => SpellBody(body)
      case Within(_, _, body, sub) => SpellBody(body) + ("<" + SpellBroken(sub))))
  }

  // A content with nothing behind it, in an open tag.
  lemma {:induction false} UnclosedBody(b: Body, st: State, ents: seq<Entity>, rank: seq<nat>)
    requires IsBody(b, ents) && Ok(st) && st.cur >= 0 && Current(st).name != ""
    requires Expandable(ents, rank) && DEFAULT <= ents
    ensures var s := ">" + SpellBody(b); After(Cut(s), s[|s| - 1], st, ents, rank) == Malformed
  {
    match b
    case Text(t) =>
      var s := ">" + SpellBody(b);
      TextDecoded(t, ents, rank);
      TailSkipped(Cut(s), s[|s| - 1], st, ents, rank);
    case With(t, sub, more) =>
      var st2 := UnclosedSub(t, sub, more, st, ents, rank);
      UnclosedBody(more, st2, ents, rank);
  }

  // Its first text and subtag.
  lemma UnclosedSub(t: seq<Unit>, sub: Markup, more: Body, st: State, ents: seq<Entity>, rank: seq<nat>)
      returns (st2: State)
    requires IsBody(With(t, sub, more), ents) && Ok(st) && st.cur >= 0 && Current(st).name != ""
    requires Expandable(ents, rank) && DEFAULT <= ents
    ensures Ok(st2) && st2.cur >= 0 && Current(st2).name == Current(st).name
    ensures var s, next := ">" + SpellBody(With(t, sub, more)), ">" + SpellBody(more);
      After(Cut(s), s[|s| - 1], st, ents, rank) == After(Cut(next), next[|next| - 1], st2, ents, rank)
  {
    var next := ">" + SpellBody(more);
    var before := ">" + (SpellText(t) + ("<" + Inner(sub)));
    RegroupSub(SpellText(t), Inner(sub), SpellBody(more));
    CutRight(before, next);
    RegroupCut(SpellText(t), Inner(sub), Cut(next));
    CutEnds(SpellBody(more));
    st2 := SubStep(t, sub, Cut(next), next[|next| - 1], st, Current(st), ents, rank);
  }

  lemma CutEnds(s: string)
    ensures var r := ">" + s; Ends(Cut(r), r[|r| - 1])
  {
  }

  lemma RegroupSub(text: string, inner: string, more: string)
    ensures ">" + (text + ("<" + (inner + ">") + more)) == ">" + (text + ("<" + inner)) + (">" + more)
  {
    Associative("<", inner + ">", more);
    Associative(inner, ">", more);
    RegroupCut(text, inner, ">" + more);
  }

  lemma RegroupCut(text: string, inner: string, r: string)
    ensures ">" + (text + ("<" + inner)) + r == ">" + (text + ("<" + (inner + r)))
  {
    Associative(">", text + ("<" + inner), r);
    Associative(text, "<" + inner, r);
    Associative("<", inner, r);
  }

  // A closing tag with another name.
  lemma OtherClose(other: string, rest: string, e: char, st: State, ents: seq<Entity>, rank: seq<nat>)
    requires Ok(st) && st.cur >= 0 && Current(st).name != other && Expandable(ents, rank)
    requires (forall i :: 0 <= i < |other| ==> other[i] !in WS + ">") && (rest == "" || rest[0] in WS + ">")
    ensures Scan("/" + (other + rest), e, st, ents, rank) == Malformed
  {
    CloseScanned(other, rest, e, st, ents, rank);
  }

  // The opening tag of a text that goes on with `s`.
  lemma OpenCut(name: string, ws: string, s: string, st: State, ents: seq<Entity>, rank: seq<nat>)
    requires GoodName(name) && IsWhite(ws) && Ok(st) && st.cur >= 0 && Expandable(ents, rank)
    ensures var p, r := name + (ws + (">" + s)), ">" + s;
      Scan(Cut(p), p[|p| - 1], st, ents, rank) == After(Cut(r), r[|r| - 1], Opened(st, name), ents, rank)
  {
    var r := ">" + s;
    CutRight(ws, r);
    CutRight(name, ws + r);
    OpenTagStep(name, ws, Cut(r), r[|r| - 1], st, ents, rank);
  }

  // A complete content and what stands behind it.
  lemma ContentCut(body: Body, s: string, st: State, ents: seq<Entity>, rank: seq<nat>) returns (st2: State)
    requires IsBody(body, ents) && s != "" && Ok(st) && st.cur >= 0 && Current(st).name != ""
    requires Expandable(ents, rank) && DEFAULT <= ents
    ensures Ok(st2) && st2.cur == st.cur && Current(st2) == Grown(Current(st), body)
    ensures var r := ">" + (SpellBody(body) + ("<" + s));
      After(Cut(r), r[|r| - 1], st, ents, rank) == Scan(Cut(s), s[|s| - 1], st2, ents, rank)
  {
    var x := Current(st);
    var y := Grown(x, body);
    st2 := Replace(st, y);
    EzxmlRoundTrip.Replaced(st, y);
    CutRight("<", s);
    CutRight(SpellBody(body), "<" + s);
    CutRight(">", SpellBody(body) + ("<" + s));
    BodyStep(body, Cut(s), s[|s| - 1], st, x, ents, rank);
  }

  lemma MismatchedStep(b: Broken, st: State, ents: seq<Entity>, rank: seq<nat>)
    requires b.Mismatched? && IsBroken(b, ents)
    requires Ok(st) && st.cur >= 0 && Current(Opened(st, b.name)) == Element(b.name, "", End)
    requires Expandable(ents, rank) && DEFAULT <= ents
    ensures var p := SpellBroken(b); Scan(Cut(p), p[|p| - 1], st, ents, rank) == Malformed
  {
    var s := "/" + (b.other + b.rest);
    OpenCut(b.name, b.ws, SpellBody(b.body) + ("<" + s), st, ents, rank);
    var st2 := ContentCut(b.body, s, Opened(st, b.name), ents, rank);
    CutRight(b.other, b.rest);
    CutRight("/", b.other + b.rest);
    OtherClose(b.other, Cut(b.rest), s[|s| - 1], st2, ents, rank);
  }

  // Up to the subtag with the error.
  lemma WithinStep(b: Broken, st: State, ents: seq<Entity>, rank: seq<nat>) returns (st2: State)
    requires b.Within? && IsBroken(b, ents)
    requires Ok(st) && st.cur >= 0 && Current(Opened(st, b.name)) == Element(b.name, "", End)
    requires Expandable(ents, rank) && DEFAULT <= ents
    ensures Ok(st2) && st2.cur >= 0 && Current(Opened(st2, b.sub.name)) == Element(b.sub.name, "", End)
    ensures var p, q := SpellBroken(b), SpellBroken(b.sub);
      Scan(Cut(p), p[|p| - 1], st, ents, rank) == Scan(Cut(q), q[|q| - 1], st2, ents, rank)
  {
    var q := SpellBroken(b.sub);
    OpenCut(b.name, b.ws, SpellBody(b.body) + ("<" + q), st, ents, rank);
    st2 := ContentCut(b.body, q, Opened(st, b.name), ents, rank);
    OpenedNew(st2, Element(b.sub.name, "", End));
  }

  lemma {:induction false} BrokenStep(b: Broken, st: State, ents: seq<Entity>, rank: seq<nat>)
    requires IsBroken(b, ents) && Ok(st) && st.cur >= 0 && Current(Opened(st, b.name)) == Element(b.name, "", End)
    requires Expandable(ents, rank) && DEFAULT <= ents
    ensures var p := SpellBroken(b); Scan(Cut(p), p[|p| - 1], st, ents, rank) == Malformed
  {
    match b
    case Mismatched(_, _, _, _, _) => MismatchedStep(b, st, ents, rank);
    case Unclosed(name, ws, body) =>
      OpenCut(name, ws, SpellBody(body), st, ents, rank);
      UnclosedBody(body, Opened(st, name), ents, rank);
    case Within(_, _, _, sub) =>
      var st2 := WithinStep(b, st, ents, rank);
      BrokenStep(sub, st2, ents, rank);
  }

  // A document with a closing tag of another name, or with a tag that is not closed, is refused.
  lemma BrokenRefused(head: string, b: Broken, ents: seq<Entity>, rank: seq<nat>)
    requires IsBroken(b, ents) && '<' !in head && Expandable(ents, rank) && DEFAULT <= ents
    requires head != "" ==> EzxmlUtf16.Order(head).None?
    ensures Parse(head + ("<" + SpellBroken(b)), ents, rank) == Malformed
  {
    var doc := head + ("<" + SpellBroken(b));
    assert doc[0] == if head == "" then '<' else head[0];
    NoMark(doc, ents, rank);
    TextStart(head, SpellBroken(b), ents, rank);
    RootOpened(b.name);
    BrokenStep(b, START, ents, rank);
  }

  // So is a text without a tag, and one with a second root.
  lemma NoRootRefused(head: string, ents: seq<Entity>, rank: seq<nat>)
    requires '<' !in head && Expandable(ents, rank)
    ensures ParseText(head, ents, rank) == Malformed
  {
    if head != "" {
      StrCSpnStops(Cut(head), "", "<");
      assert Cut(head) + "" == Cut(head);
    }
  }

  lemma SecondRootRefused(head: string, m: Markup, between: string, rest: string, ents: seq<Entity>, rank: seq<nat>)
    requires IsMarkup(m, ents) && '<' !in head && '<' !in between && Expandable(ents, rank) && DEFAULT <= ents
    requires rest != "" && (NameStart(rest[0]) || rest[0] == '/')
    ensures ParseText(head + (SpellTag(m) + (between + ("<" + rest))), ents, rank) == Malformed
  {
    var end := ">" + (between + ("<" + rest));
    var e := rest[|rest| - 1];
    var st := State(Tree(m), -1);
    Associative("<", Inner(m) + ">", between + ("<" + rest));
    Associative(Inner(m), ">", between + ("<" + rest));
    CutRight("<", rest);
    CutRight(between, "<" + rest);
    CutRight(">", between + ("<" + rest));
    CutRight(Inner(m), end);
    TextStart(head, Inner(m) + end, ents, rank);
    RootOpened(m.name);
    MarkupStep(m, Cut(end), e, START, ents, rank);
    StrCSpnStops(between, "<" + Cut(rest), "<");
    AfterText(between, Cut(rest), e, st, ents, rank);
    assert WithRaw(st, between, ents, rank) == st;
    assert Cut(rest) != "" ==> Cut(rest)[0] == rest[0];
  }

  // ---------- the end of the closing tag ----------

  // Where a name ends.
  lemma {:induction false} SpanEnds(s: string, stops: string)
    ensures var n := StrCSpn(s, stops); (forall i :: 0 <= i < n ==> s[i] !in stops) && (n < |s| ==> s[n] in stops)
  {
    if s != "" && s[0] !in stops { SpanEnds(s[1..], stops); }
  }

  // What follows the root's name in its closing tag, up to the end of the document.
  predicate Closes(x: string) {
    Peek(x) == '>' || (|x| >= 2 && x[0] in WS)
  }

  // White space: all that is behind it is skipped, unless it is the last character.
  lemma WhiteClose(name: string, x: string, st: State, ents: seq<Entity>, rank: seq<nat>)
    requires GoodName(name) && x != "" && x[0] in WS && '<' !in x
    requires Ok(st) && st.cur == 0 && Current(st).name == name && Expandable(ents, rank)
    ensures Scan("/" + (name + Cut(x)), x[|x| - 1], st, ents, rank) ==
      if |x| >= 2 then Document(st.xml) else Malformed
  {
    var q := Cut(x);
    CloseScanned(name, q, x[|x| - 1], st, ents, rank);
    if |x| >= 2 { TailSkipped(q[StrSpn(q, WS)..], x[|x| - 1], Up(st), ents, rank); }
  }

  // Other characters: they belong to the name.
  lemma LongerClose(name: string, x: string, st: State, ents: seq<Entity>, rank: seq<nat>)
    requires GoodName(name) && x != "" && x[0] !in WS + ">"
    requires Ok(st) && st.cur == 0 && Current(st).name == name && Expandable(ents, rank)
    ensures Scan("/" + (name + Cut(x)), x[|x| - 1], st, ents, rank) == Malformed
  {
    var q, e := Cut(x), x[|x| - 1];
    var n := StrCSpn(q, WS + ">");
    SpanEnds(q, WS + ">");
    assert q[..n] + q[n..] == q;
    Associative(name, q[..n], q[n..]);
    CloseScanned(name + q[..n], q[n..], e, st, ents, rank);
    if q != "" { assert x[0] == q[0]; }
  }

  // Nothing: the name is cut off.
  lemma ShorterClose(name: string, st: State, ents: seq<Entity>, rank: seq<nat>)
    requires GoodName(name) && Ok(st) && Expandable(ents, rank)
    ensures Scan("/" + Cut(name), name[|name| - 1], st, ents, rank) == Malformed
  {
    CloseScanned(Cut(name), "", name[|name| - 1], st, ents, rank);
    assert Cut(name) + "" == Cut(name);
  }

  lemma RootClose(name: string, x: string, st: State, ents: seq<Entity>, rank: seq<nat>)
    requires GoodName(name) && '<' !in x
    requires Ok(st) && st.cur == 0 && Current(st).name == name && Expandable(ents, rank)
    ensures var p := "/" + (name + x);
      Scan(Cut(p), p[|p| - 1], st, ents, rank) == if Closes(x) then Document(st.xml) else Malformed
  {
    CutRight("/", name + x);
    if x == "" {
      assert name + x == name;
      ShorterClose(name, st, ents, rank);
    } else {
      CutRight(name, x);
      if x[0] == '>' {
        CloseTagStep(name, "", Cut(x), x[|x| - 1], st, ents, rank);
        assert "" + Cut(x) == Cut(x);
        TailSkipped(Cut(x), x[|x| - 1], Up(st), ents, rank);
      } else if x[0] in WS {
        WhiteClose(name, x, st, ents, rank);
      } else {
        LongerClose(name, x, st, ents, rank);
      }
    }
  }

  // Behind the root's closing name, the document is accepted exactly when it goes on with '>', or
  // with white space that is not its last character; a '>' behind the white space is not asked for.
  lemma ClosedIff(head: string, name: string, ws: string, body: Body, x: string, ents: seq<Entity>, rank: seq<nat>)
    requires GoodName(name) && IsWhite(ws) && IsBody(body, ents) && '<' !in head && '<' !in x
    requires Expandable(ents, rank) && DEFAULT <= ents
    ensures var text := name + (ws + (">" + (SpellBody(body) + ("<" + ("/" + (name + x))))));
      ParseText(head + ("<" + text), ents, rank) ==
        if Closes(x) then Document(Tree(Full(name, ws, body, ""))) else Malformed
  {
    var s := "/" + (name + x);
    var text := name + (ws + (">" + (SpellBody(body) + ("<" + s))));
    TextStart(head, text, ents, rank);
    RootOpened(name);
    OpenCut(name, ws, SpellBody(body) + ("<" + s), START, ents, rank);
    var st := ContentCut(body, s, Opened(START, name), ents, rank);
    assert "" + BodyText(body) == BodyText(body);
    RootClose(name, x, st, ents, rank);
  }
}
