/** ezxml_str2utf8: a UTF-16 document becomes UTF-8. */
module EzxmlUtf16 {
  import opened Sequences
  import opened Wrappers
  import opened EzxmlUtf
  import Utf8

  // The 16-bit unit at a place of the document.
  function Unit(s: string, sl: nat, be: bool): (u: nat)
    requires sl + 1 < |s|
    ensures u < 0x10000
  {
    if be then (s[sl] as int % 256) * 256 + s[sl + 1] as int % 256
    else (s[sl + 1] as int % 256) * 256 + s[sl] as int % 256
  }

  // The code point at a place of the document, and the place after it. A surrogate takes the next
  // unit with it if there is one.
  function Next(s: string, sl: nat, be: bool): (r: (nat, nat))
    requires sl + 1 < |s|
    ensures r.0 < 0x110000 && sl < r.1
  {
    var c := Unit(s, sl, be);
    if 0xD800 <= c <= 0xDFFF then
      if sl + 2 < |s| - 1 then (Utf8.Combine(c, Unit(s, sl + 2, be)), sl + 4) else (c, sl + 4)
    else (c, sl + 2)
  }

  function Transcode(s: string, sl: nat, be: bool): string
    decreases |s| - sl
  {
    if sl + 1 < |s| then CharBytes(Next(s, sl, be).0) + Transcode(s, Next(s, sl, be).1, be) else ""
  }

  // The byte order mark: big endian, little endian, or not UTF-16.
  function Order(s: string): Option<bool>
    requires s != ""
  {
    if s[0] == 0xFE as char then Some(true) else if s[0] == 0xFF as char then Some(false) else None
  }

  // The unit at sl, and the one after it for a surrogate.
  method ReadPoint(s: string, sl: nat, be: bool) returns (c: nat, next: nat)
    requires sl + 1 < |s|
    ensures (c, next) == Next(s, sl, be)
  {
    c, next := Unit(s, sl, be), sl;
    if 0xD800 <= c <= 0xDFFF {
      next := next + 2;
      if next < |s| - 1 { c := Utf8.Combine(c, Unit(s, next, be)); }
    }
    next := next + 2;
  }

  // ezxml_str2utf8. Every write fits the buffer, which grows in steps.
  method Str2Utf8(s: string) returns (u: Option<string>)
    requires s != ""
    ensures u == match Order(s) case None => None case Some(be) => Some(Transcode(s, 2, be))
  {
    if Order(s).None? { return None; }
    var be, text, max, sl := Order(s).value, "", |s|, 2;
    while sl < |s| - 1
      invariant sl >= 2 && |text| <= max && text + Transcode(s, sl, be) == Transcode(s, 2, be)
      decreases |s| - sl
    {
      ghost var before := sl;
      var c;
      c, sl := ReadPoint(s, sl, be);
      while |text| + 6 > max
        invariant |text| <= max
      {
        max := max + BUFSIZE;
      }
      CharBytesLength(c);
      assert |text| + |CharBytes(c)| <= max;
      Associative(text, CharBytes(c), Transcode(s, sl, be));
      assert Transcode(s, before, be) == CharBytes(c) + Transcode(s, sl, be);
      text := text + CharBytes(c);
    }
    assert text + "" == text;
    return Some(text);
  }

  // ---------- the standards ----------

  function UnitBytes(u: nat, be: bool): (r: string)
    requires u < 0x10000
    ensures |r| == 2
  {
    if be then [(u / 256) as char, (u % 256) as char] else [(u % 256) as char, (u / 256) as char]
  }

  // Section 2.1 of RFC 2781.
  function Utf16(c: nat, be: bool): (r: string)
    requires Utf8.IsScalar(c)
    ensures |r| == if c < 0x10000 then 2 else 4
  {
    if c < 0x10000 then UnitBytes(c, be)
    else UnitBytes(Utf8.HighSurrogate(c), be) + UnitBytes(Utf8.LowSurrogate(c), be)
  }

  predicate Scalars(cs: seq<nat>) {
    forall i :: 0 <= i < |cs| ==> Utf8.IsScalar(cs[i])
  }

  function AllUtf16(cs: seq<nat>, be: bool): string
    requires Scalars(cs)
  {
    if cs == [] then "" else Utf16(cs[0], be) + AllUtf16(cs[1..], be)
  }

  function AllUtf8(cs: seq<nat>): string
    requires Scalars(cs)
  {
    if cs == [] then "" else Utf8.Chars(Utf8.Encode(cs[0])) + AllUtf8(cs[1..])
  }

  lemma UnitRead(s: string, sl: nat, u: nat, be: bool)
    requires u < 0x10000 && sl + 1 < |s| && s[sl..sl + 2] == UnitBytes(u, be)
    ensures Unit(s, sl, be) == u
  {
    assert s[sl] == s[sl..sl + 2][0] && s[sl + 1] == s[sl..sl + 2][1];
    assert (u / 256) * 256 + u % 256 == u;
  }

  lemma NextRead(s: string, sl: nat, c: nat, be: bool)
    requires Utf8.IsScalar(c) && sl + |Utf16(c, be)| <= |s| && s[sl..sl + |Utf16(c, be)|] == Utf16(c, be)
    ensures Next(s, sl, be) == (c, sl + |Utf16(c, be)|)
  {
    if c < 0x10000 {
      UnitRead(s, sl, c, be);
    } else {
      var hi, lo := Utf8.HighSurrogate(c), Utf8.LowSurrogate(c);
      var four := s[sl..sl + 4];
      assert four[..2] == UnitBytes(hi, be) && four[2..] == UnitBytes(lo, be);
      assert s[sl..sl + 2] == four[..2] && s[sl + 2..sl + 4] == four[2..];
      UnitRead(s, sl, hi, be);
      UnitRead(s, sl + 2, lo, be);
      Utf8.SurrogatesCombine(c);
    }
  }

  lemma Split(s: string, sl: nat, w: string, more: string)
    requires sl <= |s| && s[sl..] == w + more
    ensures sl + |w| <= |s| && s[sl..sl + |w|] == w && s[sl + |w|..] == more
  {
    assert |s| - sl == |w| + |more|;
    assert s[sl..sl + |w|] == s[sl..][..|w|] && s[sl + |w|..] == s[sl..][|w|..];
  }

  // Section 2 of RFC 2781 and section 3 of RFC 3629: a document in UTF-16 becomes the same code
  // points in UTF-8.
  lemma {:induction false} TranscodeIsUtf8(s: string, sl: nat, cs: seq<nat>, be: bool)
    requires Scalars(cs) && sl <= |s| && s[sl..] == AllUtf16(cs, be)
    ensures Transcode(s, sl, be) == AllUtf8(cs)
    decreases |cs|
  {
    if cs == [] {
      assert |s[sl..]| == 0;
    } else {
      var w, more := Utf16(cs[0], be), AllUtf16(cs[1..], be);
      Split(s, sl, w, more);
      NextRead(s, sl, cs[0], be);
      CharBytesAreUtf8(cs[0]);
      TranscodeIsUtf8(s, sl + |w|, cs[1..], be);
    }
  }

  // A document with its byte order mark.
  function WithMark(cs: seq<nat>, be: bool): string
    requires Scalars(cs)
  {
    (if be then [0xFE as char, 0xFF as char] else [0xFF as char, 0xFE as char]) + AllUtf16(cs, be)
  }

  method DocumentToUtf8(cs: seq<nat>, be: bool) returns (u: Option<string>)
    requires Scalars(cs)
    ensures u == Some(AllUtf8(cs))
  {
    var s := WithMark(cs, be);
    assert s[2..] == AllUtf16(cs, be);
    TranscodeIsUtf8(s, 2, cs, be);
    u := Str2Utf8(s);
  }
}
