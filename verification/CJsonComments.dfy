/** Comments: the minifier takes them out with the white space, and what is left is parsed to what the
    text means without them. */
module CJsonComments {
  import opened Sequences
  import opened CString
  import opened CJsonText
  import opened CJsonNumbers
  import opened CJsonMinify
  import opened CJsonSpelling
  import opened CJsonReads

  // Between tokens: white space, a comment to the end of its line, or one between its marks.
  datatype Piece = Blank(c: char) | Line(body: string) | Block(body: string)

  predicate IsPiece(x: Piece) {
    match x
    case Blank(c) => IsWs(c)
    case Line(body) => '\n' !in body
    case Block(body) => NoEnd("*" + body)
  }

  // No end mark; one could start with the star of the start mark.
  predicate NoEnd(s: string) {
    forall i :: 0 <= i < |s| - 1 ==> !(s[i] == '*' && s[i + 1] == '/')
  }

  function SpellPiece(x: Piece): string {
    match x
    case Blank(c) => [c]
    case Line(body) => "//" + body + "\n"
    case Block(body) => "/*" + body + "*/"
  }

  predicate ArePieces(xs: seq<Piece>) {
    forall i :: 0 <= i < |xs| ==> IsPiece(xs[i])
  }

  function SpellPieces(xs: seq<Piece>): string {
    if xs == [] then "" else SpellPiece(xs[0]) + SpellPieces(xs[1..])
  }

  ghost predicate IsGap(g: string) {
    exists xs :: ArePieces(xs) && g == SpellPieces(xs)
  }

  // White space and comments are around the tokens.
  ghost predicate Commented(f: Form) {
    match f
    case Arr(space, entries) => IsGap(space) && CommentedEntries(entries)
    case Obj(space, fields) => IsGap(space) && CommentedFields(fields)
    case _ => true
  }

  ghost predicate CommentedEntries(entries: seq<Entry>) {
    entries == [] ||
    (IsGap(entries[0].before) && Commented(entries[0].form) && IsGap(entries[0].after) && CommentedEntries(entries[1..]))
  }

  ghost predicate CommentedFields(fields: seq<Field>) {
    fields == [] ||
    (IsGap(fields[0].before) && IsGap(fields[0].mid) && IsGap(fields[0].gap) && Commented(fields[0].form) &&
     IsGap(fields[0].after) && CommentedFields(fields[1..]))
  }

  // The same tokens with nothing between them.
  function Bare(f: Form): Form {
    match f
    case Arr(_, entries) => Arr("", BareEntries(entries))
    case Obj(_, fields) => Obj("", BareFields(fields))
    case _ => f
  }

  function BareEntries(entries: seq<Entry>): (r: seq<Entry>)
    ensures |r| == |entries|
  {
    if entries == [] then [] else [Entry("", Bare(entries[0].form), "")] + BareEntries(entries[1..])
  }

  function BareFields(fields: seq<Field>): (r: seq<Field>)
    ensures |r| == |fields|
  {
    if fields == [] then []
    else [Field("", fields[0].name, "", "", Bare(fields[0].form), "")] + BareFields(fields[1..])
  }

  // The minifier leaves `b` of `a`, whatever follows, and stays inside of it.
  ghost predicate Leaves(a: string, b: string) {
    forall rest {:trigger Minify(a + rest)} ::
      Minify(a + rest) == b + Minify(rest) && (Closed(rest) ==> Closed(a + rest))
  }

  lemma LeavesBoth(a: string, b: string, c: string, d: string)
    requires Leaves(a, b) && Leaves(c, d)
    ensures Leaves(a + c, b + d)
  {
    forall rest ensures Minify(a + c + rest) == b + d + Minify(rest) && (Closed(rest) ==> Closed(a + c + rest)) {
      Associative(a, c, rest);
      Associative(b, d, Minify(rest));
      assert Minify(a + (c + rest)) == b + Minify(c + rest) && Minify(c + rest) == d + Minify(rest);
    }
  }

  lemma PlainLeft(a: string)
    requires forall i :: 0 <= i < |a| ==> IsPlain(a[i])
    ensures Leaves(a, a)
  {
    forall rest ensures Minify(a + rest) == a + Minify(rest) && (Closed(rest) ==> Closed(a + rest)) { MinifyPlain(a, rest); }
  }

  // ---------- gaps ----------

  lemma {:induction false} SkipLineTo(body: string, rest: string)
    requires '\n' !in body
    ensures SkipLine(body + ("\n" + rest)) == "\n" + rest
  {
    if body == "" {
      assert body + ("\n" + rest) == "\n" + rest;
    } else {
      assert body[0] in body && (body + ("\n" + rest))[1..] == body[1..] + ("\n" + rest);
      SkipLineTo(body[1..], rest);
    }
  }

  lemma NoEndRest(q: string)
    requires q != "" && NoEnd(q)
    ensures NoEnd(q[1..])
  {
    forall i | 0 <= i < |q[1..]| - 1 ensures !(q[1..][i] == '*' && q[1..][i + 1] == '/') {
      assert q[1..][i] == q[i + 1];
    }
  }

  lemma {:induction false} SkipCommentTo(q: string, rest: string)
    requires NoEnd(q)
    ensures SkipComment(q + ("*/" + rest)) == "*/" + rest
  {
    var p := q + ("*/" + rest);
    if q == "" {
      assert p == "*/" + rest;
    } else {
      assert p[1..] == q[1..] + ("*/" + rest) && Peek(p, 1) == if |q| > 1 then q[1] else '*';
      NoEndRest(q);
      SkipCommentTo(q[1..], rest);
    }
  }

  // A comment to the end of its line disappears with its newline.
  lemma LineGone(body: string)
    requires '\n' !in body
    ensures Leaves("//" + body + "\n", "")
  {
    forall rest ensures Minify("//" + body + "\n" + rest) == "" + Minify(rest)
      && (Closed(rest) ==> Closed("//" + body + "\n" + rest))
    {
      var p := "//" + body + "\n" + rest;
      assert p[1..] == ("/" + body) + ("\n" + rest);
      SkipLineTo("/" + body, rest);
      assert ("\n" + rest)[1..] == rest;
    }
  }

  // A comment between its marks disappears whole, whatever is in it but an end mark.
  lemma BlockGone(body: string)
    requires NoEnd("*" + body)
    ensures Leaves("/*" + body + "*/", "")
  {
    forall rest ensures Minify("/*" + body + "*/" + rest) == "" + Minify(rest)
      && (Closed(rest) ==> Closed("/*" + body + "*/" + rest))
    {
      var p := "/*" + body + "*/" + rest;
      assert p[1..] == ("*" + body) + ("*/" + rest);
      SkipCommentTo("*" + body, rest);
      assert Advance("*/" + rest, 2) == rest;
    }
  }

  lemma {:induction false} PiecesGone(xs: seq<Piece>)
    requires ArePieces(xs)
    ensures Leaves(SpellPieces(xs), "")
  {
    if xs == [] {
      PlainLeft("");
    } else {
      PiecesGone(xs[1..]);
      match xs[0] {
        case Blank(c) => BlankGone(c);
        case Line(body) => LineGone(body);
        case Block(body) => BlockGone(body);
      }
      LeavesBoth(SpellPiece(xs[0]), "", SpellPieces(xs[1..]), "");
      assert "" + "" == "";
    }
  }

  lemma BlankGone(c: char)
    requires IsWs(c)
    ensures Leaves([c], "")
  {
    forall rest ensures Minify([c] + rest) == "" + Minify(rest) && (Closed(rest) ==> Closed([c] + rest)) {
      MinifyBlank([c], rest);
    }
  }

  lemma GapGone(g: string)
    requires IsGap(g)
    ensures Leaves(g, "")
  {
    var xs :| ArePieces(xs) && g == SpellPieces(xs);
    PiecesGone(xs);
  }

  // ---------- tokens ----------

  lemma Hex1Plain(c: char, d: nat)
    requires d < 16 && IsHex1(c, d)
    ensures c != '\\' && c != '\"'
  {
  }

  lemma Unit16Copied(s: string, n: nat)
    requires IsUnit16(s, n)
    ensures Copied(s)
  {
    var h := s[2..];
    Hex1Plain(h[0], n / 0x1000);
    Hex1Plain(h[1], n / 0x100 % 16);
    Hex1Plain(h[2], n / 16 % 16);
    Hex1Plain(h[3], n % 16);
    HexCopied(h);
    assert s == "\\u" + h;
  }

  lemma CopiedBoth(a: string, b: string)
    requires Copied(a) && Copied(b)
    ensures Copied(a + b)
  {
    forall tail ensures CopyLiteral(a + b + tail) == (a + b + CopyLiteral(tail).0, CopyLiteral(tail).1)
      && ClosedLiteral(a + b + tail) == ClosedLiteral(tail)
    {
      Associative(a, b, tail);
      Associative(a, b, CopyLiteral(tail).0);
      assert CopyLiteral(a + (b + tail)) == (a + CopyLiteral(b + tail).0, CopyLiteral(b + tail).1);
    }
  }

  lemma UnitIsCopied(u: Unit)
    requires IsUnitSpelling(u)
    ensures Copied(SpellUnit(u))
  {
    match u
    case Plain(c) => UnitCopied([c]);
    case Escaped(e) => UnitCopied(['\\', e]);
    case Code(c, s) =>
      if c < 0x10000 {
        Unit16Copied(s, c);
      } else {
        Unit16Copied(s[..6], Utf8.HighSurrogate(c));
        Unit16Copied(s[6..], Utf8.LowSurrogate(c));
        CopiedBoth(s[..6], s[6..]);
        assert s[..6] + s[6..] == s;
      }
    case Void(n, h) =>
      assert ("\\u" + h)[2..] == h;
      Unit16Copied("\\u" + h, n);
  }

  lemma {:induction false} UnitsCopied(us: seq<Unit>, rest: string)
    requires AreUnits(us)
    ensures var p := SpellUnits(us) + ("\"" + rest);
      CopyLiteral(p) == (SpellUnits(us) + "\"", rest) && ClosedLiteral(p)
  {
    if us == [] {
      assert "" + ("\"" + rest) == "\"" + rest && ("\"" + rest)[1..] == rest && "" + "\"" == "\"";
    } else {
      UnitsCopied(us[1..], rest);
      UnitIsCopied(us[0]);
      Associative(SpellUnit(us[0]), SpellUnits(us[1..]), "\"" + rest);
      Associative(SpellUnit(us[0]), SpellUnits(us[1..]), "\"");
    }
  }

  lemma StringLeft(us: seq<Unit>)
    requires AreUnits(us)
    ensures Leaves(SpellString(us), SpellString(us))
  {
    var s := SpellString(us);
    forall rest ensures Minify(s + rest) == s + Minify(rest) && (Closed(rest) ==> Closed(s + rest)) {
      var b := SpellUnits(us) + ("\"" + rest);
      UnitsCopied(us, rest);
      RightNested4("\"", SpellUnits(us), "\"", rest);
      assert (s + rest)[1..] == b;
      Associative("\"", SpellUnits(us), "\"");
    }
  }

  lemma NumeralLeft(n: Numeral)
    requires IsNumeral(n)
    ensures Leaves(SpellNumeral(n), SpellNumeral(n))
  {
    NumeralChars(n);
    PlainLeft(SpellNumeral(n));
  }

  lemma NumeralChars(n: Numeral)
    requires IsNumeral(n)
    ensures NumberChars(SpellNumeral(n))
  {
    var w, f, x := SpellDigits(n.whole), SpellFraction(n.fraction), SpellPower(n.power);
    var z, s := if n.zero then "0" else "", if n.minus then "-" else "";
    DigitsSpelled(n.whole);
    DigitsSpelled(n.fraction);
    NumberJoin(".", SpellDigits(n.fraction));
    PowerChars(n.power);
    NumberJoin(f, x);
    NumberJoin(z, w);
    NumberJoin(z + w, f + x);
    NumberJoin(s, SpellUnsigned(n));
  }

  lemma PowerChars(e: Power)
    requires IsPower(e)
    ensures NumberChars(SpellPower(e))
  {
    if e.Power? {
      DigitsSpelled(e.digits);
      NumberJoin(e.sign, SpellDigits(e.digits));
      NumberJoin([e.letter], e.sign + SpellDigits(e.digits));
    }
  }

  // ---------- trees ----------

  lemma {:induction false} BareSame(f: Form)
    requires IsForm(f)
    ensures IsForm(Bare(f)) && Spaced(Bare(f)) && Meaning(Bare(f)) == Meaning(f)
    decreases f
  {
    match f
    case Arr(_, entries) => BareEntriesSame(entries);
    case Obj(_, fields) => BareFieldsSame(fields);
    case _ =>
  }

  lemma {:induction false} BareEntriesSame(entries: seq<Entry>)
    requires AreEntries(entries)
    ensures var r := BareEntries(entries); AreEntries(r) && SpacedEntries(r) && EntryMeanings(r) == EntryMeanings(entries)
    decreases entries
  {
    if entries != [] {
      BareSame(entries[0].form);
      BareEntriesSame(entries[1..]);
      assert BareEntries(entries)[1..] == BareEntries(entries[1..]);
    }
  }

  lemma {:induction false} BareFieldsSame(fields: seq<Field>)
    requires AreFields(fields)
    ensures var r := BareFields(fields); AreFields(r) && SpacedFields(r) && FieldMeanings(r) == FieldMeanings(fields)
    decreases fields
  {
    if fields != [] {
      BareSame(fields[0].form);
      BareFieldsSame(fields[1..]);
      assert BareFields(fields)[1..] == BareFields(fields[1..]);
    }
  }

  // The gap in front of something.
  lemma GapBefore(g: string, a: string, b: string)
    requires IsGap(g) && Leaves(a, b)
    ensures Leaves(g + a, "" + b) && Leaves(g + a, b)
  {
    GapGone(g);
    LeavesBoth(g, "", a, b);
    assert "" + b == b;
  }

  // The tokens of a tree are left, and nothing of what is between them.
  lemma {:induction false} FormLeft(f: Form)
    requires IsForm(f) && Commented(f)
    ensures IsForm(Bare(f)) && Leaves(Spell(f), Spell(Bare(f)))
    decreases f, 0
  {
    BareSame(f);
    match f
    case Word(name) => PlainLeft(name);
    case Num(n, _) => NumeralLeft(n);
    case Str(us) => StringLeft(us);
    case Arr(space, entries) =>
      PlainLeft("[");
      if entries == [] {
        PlainLeft("]");
        GapBefore(space, "]", "]");
        LeavesBoth("[", "[", space + "]", "" + "]");
      } else {
        EntriesLeft(entries);
        LeavesBoth("[", "[", SpellEntries(entries), SpellEntries(BareEntries(entries)));
      }
    case Obj(space, fields) =>
      PlainLeft("{");
      if fields == [] {
        PlainLeft("}");
        GapBefore(space, "}", "}");
        LeavesBoth("{", "{", space + "}", "" + "}");
      } else {
        FieldsLeft(fields);
        LeavesBoth("{", "{", SpellFields(fields), SpellFields(BareFields(fields)));
      }
  }

  lemma {:induction false} EntriesLeft(entries: seq<Entry>)
    requires entries != [] && AreEntries(entries) && CommentedEntries(entries)
    ensures AreEntries(BareEntries(entries)) && Leaves(SpellEntries(entries), SpellEntries(BareEntries(entries)))
    decreases entries, 1
  {
    var e, r := entries[0], BareEntries(entries);
    BareEntriesSame(entries);
    FormLeft(e.form);
    if |entries| == 1 {
      PlainLeft("]");
    } else {
      EntriesLeft(entries[1..]);
      PlainLeft(",");
      assert r[1..] == BareEntries(entries[1..]);
      LeavesBoth(",", ",", SpellEntries(entries[1..]), SpellEntries(r[1..]));
    }
    EntryLeft(e, EntryTail(entries), EntryTail(r));
  }

  lemma EntryLeft(e: Entry, t: string, t': string)
    requires IsForm(e.form) && IsForm(Bare(e.form)) && Leaves(Spell(e.form), Spell(Bare(e.form))) && Leaves(t, t')
    requires IsGap(e.before) && IsGap(e.after)
    ensures Leaves(e.before + (Spell(e.form) + (e.after + t)), "" + (Spell(Bare(e.form)) + ("" + t')))
  {
    GapBefore(e.after, t, t');
    LeavesBoth(Spell(e.form), Spell(Bare(e.form)), e.after + t, "" + t');
    GapBefore(e.before, Spell(e.form) + (e.after + t), Spell(Bare(e.form)) + ("" + t'));
  }

  lemma {:induction false} FieldsLeft(fields: seq<Field>)
    requires fields != [] && AreFields(fields) && CommentedFields(fields)
    ensures AreFields(BareFields(fields)) && Leaves(SpellFields(fields), SpellFields(BareFields(fields)))
    decreases fields, 1
  {
    var d, r := fields[0], BareFields(fields);
    BareFieldsSame(fields);
    FormLeft(d.form);
    if |fields| == 1 {
      PlainLeft("}");
    } else {
      FieldsLeft(fields[1..]);
      PlainLeft(",");
      assert r[1..] == BareFields(fields[1..]);
      LeavesBoth(",", ",", SpellFields(fields[1..]), SpellFields(r[1..]));
    }
    FieldLeft(d, FieldTail(fields), FieldTail(r));
  }

  lemma FieldLeft(d: Field, t: string, t': string)
    requires AreUnits(d.name) && IsForm(d.form) && IsForm(Bare(d.form)) && Leaves(Spell(d.form), Spell(Bare(d.form)))
    requires Leaves(t, t') && IsGap(d.before) && IsGap(d.mid) && IsGap(d.gap) && IsGap(d.after)
    ensures var v, n := Spell(Bare(d.form)), SpellString(d.name);
      Leaves(SpellField(d, t), "" + (n + ("" + (":" + ("" + (v + ("" + t')))))))
  {
    var u, v, n := Spell(d.form), Spell(Bare(d.form)), SpellString(d.name);
    StringLeft(d.name);
    PlainLeft(":");
    GapBefore(d.after, t, t');
    LeavesBoth(u, v, d.after + t, "" + t');
    var a, b := u + (d.after + t), v + ("" + t');
    GapBefore(d.gap, a, b);
    LeavesBoth(":", ":", d.gap + a, "" + b);
    var a1, b1 := ":" + (d.gap + a), ":" + ("" + b);
    GapBefore(d.mid, a1, b1);
    LeavesBoth(n, n, d.mid + a1, "" + b1);
    GapBefore(d.before, n + (d.mid + a1), n + ("" + b1));
  }

  // A text with comments and white space between its tokens means, once minified, what it spells.
  lemma CommentsGone(before: string, f: Form, after: string)
    requires IsForm(f) && Commented(f) && IsGap(before) && IsGap(after)
    ensures var text := before + (Spell(f) + after);
      IsForm(Bare(f)) && Minify(text) == Spell(Bare(f)) && Closed(text) && Parse(Minify(text), true) == Read(Meaning(f), "")
  {
    var text := before + (Spell(f) + after);
    FormLeft(f);
    BareSame(f);
    GapGone(before);
    GapGone(after);
    LeavesBoth(Spell(f), Spell(Bare(f)), after, "");
    LeavesBoth(before, "", Spell(f) + after, Spell(Bare(f)) + "");
    assert Minify(text + "") == "" + (Spell(Bare(f)) + "") + Minify("") && text + "" == text;
    assert "" + (Spell(Bare(f)) + "") + "" == Spell(Bare(f));
    TextRead("", Bare(f), "");
    assert "" + (Spell(Bare(f)) + "") == Spell(Bare(f));
  }
}
