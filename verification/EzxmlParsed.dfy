/** What the parser builds is always well formed, so the serialization of a tree parses back to the
    tree exactly when the tree is. */
module EzxmlParsed {
  import opened Wrappers
  import opened EzxmlTree
  import opened EzxmlEntities
  import opened EzxmlDecode
  import opened EzxmlDecodeInPlace
  import opened EzxmlEscape
  import opened EzxmlSerializer
  import opened EzxmlParser
  import opened EzxmlRoundTrip

  lemma {:induction false} PlacedSnoc(k: Tags, start: nat, end: nat, xml: Element)
    requires WellPlaced(k, start, end) && start <= end && WellFormed(xml)
    ensures WellPlaced(Snoc(k, end, xml), start, end)
  {
    if k.Tag? { PlacedSnoc(k.ordered, k.off, end, xml); }
  }

  lemma {:induction false} PlacedLonger(k: Tags, start: nat, end: nat, more: nat)
    requires WellPlaced(k, start, end) && end <= more
    ensures WellPlaced(k, start, more)
  {
    if k.Tag? { PlacedLonger(k.ordered, k.off, end, more); }
  }

  lemma {:induction false} LastPlaced(k: Tags, start: nat, end: nat, x: Element)
    requires k.Tag? && WellPlaced(k, start, end)
    ensures WellFormed(Last(k)) && (WellFormed(x) ==> WellPlaced(SetLast(k, x), start, end))
  {
    if k.ordered.Tag? { LastPlaced(k.ordered, k.off, end, x); }
  }

  lemma {:induction false} SetFormed(e: Element, d: nat, x: Element)
    requires Reaches(e, d) && WellFormed(e)
    ensures WellFormed(At(e, d)) && (WellFormed(x) ==> WellFormed(Set(e, d, x)))
    decreases d
  {
    if d > 0 {
      LastPlaced(e.child, 0, |e.txt|, Set(LastOf(e), d - 1, x));
      SetFormed(LastOf(e), d - 1, x);
    }
  }

  // Either no tag has been read, or the tree so far is well formed.
  predicate Fine(st: State) {
    Ok(st) && (st == START || WellFormed(st.xml))
  }

  lemma OpenedFine(st: State, name: string)
    requires Fine(st) && st.cur >= 0 && GoodName(name)
    ensures Fine(Opened(st, name)) && WellFormed(Opened(st, name).xml)
  {
    if st != START {
      var x, c := Current(st), Element(name, "", End);
      SetFormed(st.xml, st.cur, x);
      PlacedSnoc(x.child, 0, |x.txt|, c);
      SetFormed(st.xml, st.cur, x.(child := Snoc(x.child, |x.txt|, c)));
    }
  }

  lemma WithTextFine(st: State, s: string)
    requires Fine(st)
    ensures Fine(WithText(st, s))
  {
    if st.cur >= 0 && Current(st).name != "" {
      var x := Current(st);
      SetFormed(st.xml, st.cur, x);
      PlacedLonger(x.child, 0, |x.txt|, |x.txt + s|);
      SetFormed(st.xml, st.cur, x.(txt := x.txt + s));
    }
  }

  lemma WithRawFine(st: State, raw: string, ents: seq<Entity>, rank: seq<nat>)
    requires Fine(st) && Expandable(ents, rank)
    ensures Fine(WithRaw(st, raw, ents, rank))
  {
    if raw != "" { WithTextFine(st, Expand(Normalize(raw), ents, '&', rank)); }
  }

  lemma {:induction false} NameTaken(p: string, stops: string)
    ensures forall i :: 0 <= i < StrCSpn(p, stops) ==> p[i] !in stops
  {
    if p != "" && p[0] !in stops {
      NameTaken(p[1..], stops);
      forall i | 0 <= i < StrCSpn(p, stops) ensures p[i] !in stops {
        if i > 0 { assert p[i] == p[1..][i - 1]; }
      }
    }
  }

  lemma {:induction false} ScanFine(p: string, e: char, st: State, ents: seq<Entity>, rank: seq<nat>)
    requires Fine(st) && Expandable(ents, rank) && Scan(p, e, st, ents, rank).Document?
    ensures WellFormed(Scan(p, e, st, ents, rank).xml)
    decreases |p|, 1
  {
    if NameStart(p[0]) {
      var n := StrCSpn(p, WS + "/>");
      NameTaken(p, WS + "/>");
      var name := p[..n];
      assert p[0] !in WS + "/>";
      assert forall i :: 0 <= i < |name| ==> name[i] == p[i];
      ScanTagFine(name, SkipSpaces(p[n..]), e, st, ents, rank);
    } else {
      var n := StrCSpn(p[1..], WS + ">");
      ScanCloseFine(p[1..][..n], p[1..][n..], e, st, ents, rank);
    }
  }

  lemma {:induction false} ScanTagFine(name: string, q: string, e: char, st: State, ents: seq<Entity>, rank: seq<nat>)
    requires Fine(st) && st.cur >= 0 && GoodName(name) && Expandable(ents, rank)
    requires ScanTag(name, q, e, st, ents, rank).Document?
    ensures WellFormed(ScanTag(name, q, e, st, ents, rank).xml)
    decreases |q|, 0, 1
  {
    OpenedFine(st, name);
    if q != "" && q[0] == '/' {
      AfterFine(q[1..], e, Up(Opened(st, name)), ents, rank);
    } else {
      AfterFine(q, e, Opened(st, name), ents, rank);
    }
  }

  lemma {:induction false} ScanCloseFine(name: string, q: string, e: char, st: State, ents: seq<Entity>, rank: seq<nat>)
    requires Fine(st) && Expandable(ents, rank) && ScanClose(name, q, e, st, ents, rank).Document?
    ensures WellFormed(ScanClose(name, q, e, st, ents, rank).xml)
    decreases |q|, 0, 1
  {
    var up := Closed(st, name).value;
    assert st != START;
    if q != "" && IsSpace(q[0]) {
      AfterFine(q[StrSpn(q, WS)..], e, up, ents, rank);
    } else {
      AfterFine(q, e, up, ents, rank);
    }
  }

  lemma {:induction false} AfterFine(p: string, e: char, st: State, ents: seq<Entity>, rank: seq<nat>)
    requires Fine(st) && Expandable(ents, rank) && After(p, e, st, ents, rank).Document?
    ensures WellFormed(After(p, e, st, ents, rank).xml)
    decreases |p|, 0, 0
  {
    if |p| > 1 {
      var d := p[1..];
      var n := StrCSpn(d, "<");
      if n < |d| {
        WithRawFine(st, d[..n], ents, rank);
        ScanFine(d[n + 1..], e, WithRaw(st, d[..n], ents, rank), ents, rank);
      }
    }
  }

  // Every tree the parser returns has its subtags in document order, at offsets inside their
  // parent's text, and takes names from the document only.
  lemma ParseWellFormed(doc: string, ents: seq<Entity>, rank: seq<nat>)
    requires Expandable(ents, rank) && Parse(doc, ents, rank).Document?
    ensures WellFormed(Parse(doc, ents, rank).xml)
  {
    var text := Converted(doc);
    var s := text[..|text| - 1];
    ScanFine(s[StrCSpn(s, "<") + 1..], text[|text| - 1], START, ents, rank);
  }

  // The law of the pair: a tree survives serializing and parsing if and only if its subtags are in
  // order at offsets within their parents' texts and its names can be scanned.
  lemma SurvivesIff(xml: Element, ents: seq<Entity>, rank: seq<nat>)
    requires Expandable(ents, rank) && DEFAULT <= ents
    ensures Parse(ToXml(xml), ents, rank) == Document(xml) <==> WellFormed(xml)
  {
    if WellFormed(xml) {
      ParseToXml(xml, ents, rank);
    } else if Parse(ToXml(xml), ents, rank) == Document(xml) {
      ParseWellFormed(ToXml(xml), ents, rank);
    }
  }

  // Serializing what was parsed gives a document with the same tree.
  lemma ParseStable(doc: string, ents: seq<Entity>, rank: seq<nat>)
    requires Expandable(ents, rank) && DEFAULT <= ents && Parse(doc, ents, rank).Document?
    ensures Parse(ToXml(Parse(doc, ents, rank).xml), ents, rank) == Parse(doc, ents, rank)
  {
    ParseWellFormed(doc, ents, rank);
    ParseToXml(Parse(doc, ents, rank).xml, ents, rank);
  }
}
