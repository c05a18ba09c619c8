/** ezxml_toxml_r: subtags are put back into the character content at their offsets. */
module EzxmlSerializer {
  import opened Sequences
  import opened EzxmlTree
  import opened EzxmlEscape
  import opened EzxmlDecodeInPlace

  // `len` characters from a pointer, or up to the end of the text if it comes first; a negative
  // length is huge as a size_t.
  function Piece(s: string, len: int): string {
    if 0 <= len <= |s| then s[..len] else s
  }

  function ToXml(xml: Element): string
    decreases xml, 1
  {
    "<" + xml.name + ">" + Content(xml) + "</" + xml.name + ">"
  }

  function Content(xml: Element): string
    decreases xml, 0
  {
    if xml.child.Tag? then TagsXml(xml.child, xml.txt, 0) else Escape(xml.txt, false)
  }

  // A tag and those after it, with the parent's text around them.
  function TagsXml(k: Tags, txt: string, start: nat): string
    requires k.Tag? && start <= |txt|
    decreases k, 0
  {
    Before(k.off, txt, start) + ToXml(k.xml) + Rest(k.ordered, txt, Min(k.off, |txt|))
  }

  function Before(off: nat, txt: string, start: nat): string
    requires start <= |txt|
  {
    Escape(Piece(txt[start..], off - start), false)
  }

  // What follows a tag in its parent.
  function Rest(k: Tags, txt: string, off: nat): string
    requires off <= |txt|
    decreases k, 1
  {
    if k.Tag? then TagsXml(k, txt, off) else Escape(txt[off..], false)
  }

  // ezxml_toxml_r
  method ToXmlR(k: Tags, txt: string, start: nat, out: Output)
    requires k.Tag? && start <= |txt| && out.Valid()
    modifies out, out.dst
    ensures out.Valid() && out.Text() == old(out.Text()) + TagsXml(k, txt, start)
    ensures out.dst == old(out.dst) || fresh(out.dst)
    decreases k
  {
    out.AmpEncode(txt[start..], k.off - start, false);
    PutTag(k.xml, out);
    var off := InBounds(txt, k.off);
    if k.ordered.Tag? {
      ToXmlR(k.ordered, txt, off, out);
    } else {
      out.AmpEncode(txt[off..], -1, false);
    }
    Behind3(old(out.Text()), Before(k.off, txt, start), ToXml(k.xml), Rest(k.ordered, txt, off));
  }

  // Up to a subtag's offset, or the end of the text.
  method InBounds(txt: string, limit: nat) returns (off: nat)
    ensures off == Min(limit, |txt|)
  {
    off := 0;
    while off < |txt| && off < limit
      invariant off <= Min(limit, |txt|)
    {
      off := off + 1;
    }
  }

  // The tag itself.
  method PutTag(xml: Element, out: Output)
    requires out.Valid()
    modifies out, out.dst
    ensures out.Valid() && out.Text() == old(out.Text()) + ToXml(xml)
    ensures out.dst == old(out.dst) || fresh(out.dst)
    decreases xml, 0
  {
    ghost var t0 := out.Text();
    out.Reserve(|xml.name| + 4);
    out.Put("<" + xml.name);
    out.Put(">");
    if xml.child.Tag? {
      ToXmlR(xml.child, xml.txt, 0, out);
    } else {
      out.AmpEncode(xml.txt, -1, false);
    }
    out.Reserve(|xml.name| + 4);
    out.Put("</" + xml.name + ">");
    Behind4(t0, "<" + xml.name, ">", Content(xml), "</" + xml.name + ">");
    Associative("<" + xml.name + ">" + Content(xml), "</" + xml.name, ">");
    Associative("<" + xml.name + ">" + Content(xml), "</", xml.name);
  }

  // ezxml_toxml, without processing instructions
  method ToXmlText(xml: Element) returns (s: string)
    ensures s == ToXml(xml)
  {
    var out := new Output();
    PutTag(xml, out);
    s := out.dst[..out.dlen];
  }
}
