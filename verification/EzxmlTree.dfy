/** Tag trees of ezXML, and the place in the tree where the parser inserts. */
module EzxmlTree {

  // A tag: its character content is kept in one text, apart from the subtags in it.
  datatype Element = Element(name: string, txt: string, child: Tags)

  // Subtags in document order, linked by `ordered`, each with its offset in the parent's text.
  datatype Tags = End | Tag(off: nat, xml: Element, ordered: Tags)

  function Snoc(k: Tags, off: nat, xml: Element): (r: Tags)
    ensures r.Tag?
  {
    match k
    case End => Tag(off, xml, End)
    case Tag(o, x, rest) => Tag(o, x, Snoc(rest, off, xml))
  }

  function Append(k: Tags, more: Tags): (r: Tags)
    ensures more == End ==> r == k
  {
    match k
    case End => more
    case Tag(o, x, rest) => Tag(o, x, Append(rest, more))
  }

  lemma {:induction false} AppendSnoc(k: Tags, off: nat, xml: Element, more: Tags)
    ensures Append(Snoc(k, off, xml), more) == Append(k, Tag(off, xml, more))
  {
    match k
    case End =>
    case Tag(_, _, rest) => AppendSnoc(rest, off, xml, more);
  }

  function Last(k: Tags): Element
    requires k.Tag?
  {
    if k.ordered.End? then k.xml else Last(k.ordered)
  }

  function SetLast(k: Tags, xml: Element): (r: Tags)
    requires k.Tag?
    ensures r.Tag?
  {
    if k.ordered.End? then k.(xml := xml) else k.(ordered := SetLast(k.ordered, xml))
  }

  lemma {:induction false} LastSet(k: Tags, xml: Element)
    requires k.Tag?
    ensures Last(SetLast(k, xml)) == xml
    ensures forall y :: SetLast(SetLast(k, xml), y) == SetLast(k, y)
  {
    if !k.ordered.End? { LastSet(k.ordered, xml); }
  }

  lemma {:induction false} LastSnoc(k: Tags, off: nat, xml: Element)
    ensures Last(Snoc(k, off, xml)) == xml
    ensures forall y :: SetLast(Snoc(k, off, xml), y) == Snoc(k, off, y)
  {
    match k
    case End =>
    case Tag(_, _, rest) => LastSnoc(rest, off, xml);
  }

  // The tags that can be open: `d` steps to last subtags lead to one.
  predicate Reaches(e: Element, d: nat)
    decreases d
  {
    d == 0 || (e.child.Tag? && Reaches(LastOf(e), d - 1))
  }

  function LastOf(e: Element): Element
    requires e.child.Tag?
  {
    Last(e.child)
  }

  function At(e: Element, d: nat): Element
    requires Reaches(e, d)
    decreases d
  {
    if d == 0 then e else At(LastOf(e), d - 1)
  }

  function Set(e: Element, d: nat, x: Element): Element
    requires Reaches(e, d)
    decreases d
  {
    if d == 0 then x else e.(child := SetLast(e.child, Set(LastOf(e), d - 1, x)))
  }

  lemma {:induction false} SetAt(e: Element, d: nat, x: Element, y: Element)
    requires Reaches(e, d)
    ensures Reaches(Set(e, d, x), d) && At(Set(e, d, x), d) == x
    ensures Set(Set(e, d, x), d, y) == Set(e, d, y)
    decreases d
  {
    if d > 0 {
      SetAt(LastOf(e), d - 1, x, y);
      LastSet(e.child, Set(LastOf(e), d - 1, x));
    }
  }

  // One step further: the last subtag of the tag at depth d.
  lemma {:induction false} SetBelow(e: Element, d: nat, x: Element, k: Tags, off: nat, c: Element, y: Element)
    requires Reaches(e, d) && x.child == Snoc(k, off, c)
    ensures Reaches(Set(e, d, x), d + 1) && At(Set(e, d, x), d + 1) == c
    ensures Set(Set(e, d, x), d + 1, y) == Set(e, d, x.(child := Snoc(k, off, y)))
    decreases d
  {
    LastSnoc(k, off, c);
    if d > 0 {
      SetBelow(LastOf(e), d - 1, x, k, off, c, y);
      var z := Set(LastOf(e), d - 1, x);
      LastSet(e.child, z);
      assert LastOf(Set(e, d, x)) == z;
    } else {
      assert Reaches(LastOf(x), 0);
      assert Set(LastOf(x), 0, y) == y;
    }
  }

  lemma {:induction false} ReachesLess(e: Element, d: nat)
    requires Reaches(e, d + 1)
    ensures Reaches(e, d)
    decreases d
  {
    if d > 0 { ReachesLess(LastOf(e), d - 1); }
  }
}
