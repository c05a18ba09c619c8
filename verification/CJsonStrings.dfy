/** The transcoder of string literals: every \u escape of a Unicode scalar value yields its UTF-8 form. */
module CJsonStrings {
  import opened CString
  import opened CJsonText
  import opened CJsonRoundTrip
  import Utf8

  // What a \u transcoder should write for a code point.
  function Utf8Chars(c: nat): string
    requires c < 0x110000
  {
    Utf8.Chars(Utf8.Encode(c))
  }

  lemma JsonBytesIsUtf8(c: nat)
    requires c < 0x110000
    ensures JsonBytes(c) == Utf8Chars(c)
  {
    if c < 0x80 {
      assert (c as bv8) as int == c;
    } else {
      assert MultiByte(c) == Utf8.Encode(c);
    }
  }

  // Four hexadecimal digits, of either case, of a UTF-16 code unit.
  predicate Spells(h: string, unit: nat) {
    |h| == 4 && (forall i :: 0 <= i < 4 ==> IsHex(h[i])) && ParseHex4(h) == unit
  }

  // A code point as \u escapes of its UTF-16 code units.
  predicate EscapeOf(e: string, c: nat)
    requires c < 0x110000
  {
    if c < 0x10000 then |e| == 6 && e[..2] == "\\u" && Spells(e[2..], c)
    else
      |e| == 12 && e[..2] == e[6..8] == "\\u" &&
      Spells(e[2..6], Utf8.HighSurrogate(c)) && Spells(e[8..], Utf8.LowSurrogate(c))
  }

  // Every Unicode scalar value but 0, written as \u escapes with digits of either case, is read as
  // its UTF-8 form.
  lemma UnescapeScalar(c: nat, e: string, tail: string)
    requires Utf8.IsScalar(c) && c != 0 && EscapeOf(e, c)
    ensures Unescape(e + tail) == (Utf8Chars(c) + Unescape(tail).0, Unescape(tail).1)
  {
    JsonBytesIsUtf8(c);
    if c < 0x10000 {
      assert e == "\\u" + e[2..];
      UnescapeUnit(e[2..], c, tail);
    } else {
      Utf8.SurrogatesCombine(c);
      assert e == "\\u" + e[2..6] + "\\u" + e[8..];
      UnescapePair(e[2..6], Utf8.HighSurrogate(c), e[8..], Utf8.LowSurrogate(c), tail);
    }
  }

  lemma ParseHex4Prefix(h: string, rest: string)
    requires |h| == 4
    ensures ParseHex4(h + rest) == ParseHex4(h)
  {
    assert forall i: nat :: i < 4 ==> Peek(h + rest, i) == Peek(h, i);
  }

  // What a \u escape writes, alone and as the second one of a surrogate pair.
  function UnitBytes(uc: nat): string
    requires uc < 0x10000
  {
    if 0xD800 <= uc <= 0xDFFF || uc == 0 then "" else JsonBytes(uc)
  }

  function PairBytes(hi: nat, lo: nat): string {
    if 0xDC00 <= lo <= 0xDFFF then JsonBytes(Utf8.Combine(hi, lo)) else ""
  }

  // The first half of a surrogate pair and a second \u.
  predicate PairAt(h: string, r: string) {
    0xD800 <= ParseHex4(h) <= 0xDBFF && Peek(r) == '\\' && Peek(r, 1) == 'u'
  }

  // A \u escape with the four characters `h`, before `r`.
  lemma UnitAt(h: string, r: string)
    requires |h| == 4
    ensures Unescape("\\" + ("u" + (h + r))) ==
      if PairAt(h, r) then
        (PairBytes(ParseHex4(h), ParseHex4(Advance(r, 2))) + Unescape(Advance(r, 6)).0, Unescape(Advance(r, 6)).1)
      else (UnitBytes(ParseHex4(h)) + Unescape(r).0, Unescape(r).1)
  {
    var q := "u" + (h + r);
    UnitPointers(h, r);
    ParseHex4Prefix(h, r);
    UnescapeStep(q, UnescapeOne(q).0, UnescapeOne(q).1);
  }

  lemma UnitPointers(h: string, r: string)
    requires |h| == 4
    ensures var q := "u" + (h + r);
      var ptr := Advance(q, 4);
      Advance(q, 1) == h + r && Advance(ptr, 1) == r && Peek(ptr, 1) == Peek(r) && Peek(ptr, 2) == Peek(r, 1) &&
      Advance(ptr, 3) == Advance(r, 2) && Advance(Advance(ptr, 6), 1) == Advance(r, 6)
  {
  }

  lemma UnescapeUnit(h: string, uc: nat, tail: string)
    requires Spells(h, uc) && uc != 0 && !(0xD800 <= uc <= 0xDFFF)
    ensures Unescape("\\u" + h + tail) == (JsonBytes(uc) + Unescape(tail).0, Unescape(tail).1)
  {
    UnitAt(h, tail);
    RegroupUnit(h, tail);
  }

  lemma RegroupUnit(a: string, tail: string)
    ensures "\\u" + a + tail == "\\" + ("u" + (a + tail))
  {
  }

  lemma UnescapePair(h: string, hi: nat, l: string, lo: nat, tail: string)
    requires Spells(h, hi) && Spells(l, lo) && 0xD800 <= hi <= 0xDBFF && 0xDC00 <= lo <= 0xDFFF
    ensures Unescape("\\u" + h + "\\u" + l + tail) ==
      (JsonBytes(Utf8.Combine(hi, lo)) + Unescape(tail).0, Unescape(tail).1)
  {
    var second := "\\u" + (l + tail);
    UnitAt(h, second);
    assert Advance(second, 2) == l + tail && Advance(second, 6) == tail;
    ParseHex4Prefix(l, tail);
    RegroupUnit(h, second);
    RegroupPair(h, l, tail);
  }

  lemma RegroupPair(a: string, b: string, tail: string)
    ensures "\\u" + a + "\\u" + b + tail == "\\u" + a + ("\\u" + (b + tail))
  {
  }
}
