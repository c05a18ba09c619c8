/** Texts that go wrong: the parser rejects them, however deep the error is. */
module CJsonRejects {
  import opened Sequences
  import opened CString
  import opened CJsonText
  import opened CJsonNumbers
  import opened CJsonRoundTrip
  import opened CJsonMinifyMeaning
  import opened CJsonSpelling
  import opened CJsonReads

  // Where a value should be, something is wrong: no value starts here; or it is an array or object,
  // some elements or members of which are complete, each with its comma, before the error.
  datatype Broken =
    | NoValue(p: string)
    | BadElement(entries: seq<Entry>, before: string, element: Broken)
    | BadBracket(entries: seq<Entry>, last: Entry, p: string)
    | BadName(fields: seq<Field>, before: string, p: string)
    | BadColon(fields: seq<Field>, before: string, name: seq<Unit>, mid: string, p: string)
    | BadMember(fields: seq<Field>, before: string, name: seq<Unit>, mid: string, gap: string, value: Broken)
    | BadBrace(fields: seq<Field>, end: Field, p: string)

  // The text is over, or something other than white space and these characters is next.
  predicate NextIsNot(p: string, cs: set<char>) {
    p != "" ==> p[0] > ' ' && p[0] !in cs
  }

  predicate StartsNothing(p: string) {
    !("null" <= p) && !("true" <= p) && !("false" <= p) &&
    (p != "" ==> p[0] !in {'\"', '-', '[', '{'} && !('0' <= p[0] <= '9') && p[0] > ' ')
  }

  predicate IsBroken(b: Broken) {
    match b
    case NoValue(p) => StartsNothing(p)
    case BadElement(entries, before, element) =>
      AreEntries(entries) && SpacedEntries(entries) && AreWs(before) && IsBroken(element) &&
      (entries == [] && element.NoValue? ==> NextIsNot(element.p, {']'}))
    case BadBracket(entries, last, p) =>
      AreEntries(entries) && SpacedEntries(entries) && IsForm(last.form) && SpacedEntry(last) &&
      NextIsNot(p, {',', ']'}) && (last.form.Num? ==> !GoesOn(Spell(last.form), last.after + p))
    case BadName(fields, before, p) =>
      AreFields(fields) && SpacedFields(fields) && AreWs(before) && NextIsNot(p, {'\"'}) &&
      (fields == [] ==> NextIsNot(p, {'}'}))
    case BadColon(fields, before, name, mid, p) =>
      AreFields(fields) && SpacedFields(fields) && AreWs(before) && AreUnits(name) && AreWs(mid) && NextIsNot(p, {':'})
    case BadMember(fields, before, name, mid, gap, value) =>
      AreFields(fields) && SpacedFields(fields) && AreWs(before) && AreUnits(name) && AreWs(mid) && AreWs(gap) &&
      IsBroken(value)
    case BadBrace(fields, end, p) =>
      AreFields(fields) && SpacedFields(fields) && AreUnits(end.name) && IsForm(end.form) && SpacedField(end) &&
      NextIsNot(p, {',', '}'}) && (end.form.Num? ==> !GoesOn(Spell(end.form), end.after + p))
  }

  // Complete elements, each with its comma, and what comes then.
  function EntriesThen(entries: seq<Entry>, p: string): string
    requires AreEntries(entries)
  {
    if entries == [] then p
    else entries[0].before + (Spell(entries[0].form) + (entries[0].after + ("," + EntriesThen(entries[1..], p))))
  }

  function FieldsThen(fields: seq<Field>, p: string): string
    requires AreFields(fields)
  {
    if fields == [] then p else SpellField(fields[0], "," + FieldsThen(fields[1..], p))
  }

  function SpellBroken(b: Broken): string
    requires IsBroken(b)
  {
    match b
    case NoValue(p) => p
    case BadElement(entries, before, element) => "[" + EntriesThen(entries, before + SpellBroken(element))
    case BadBracket(entries, last, p) =>
      "[" + EntriesThen(entries, last.before + (Spell(last.form) + (last.after + p)))
    case BadName(fields, before, p) => "{" + FieldsThen(fields, before + p)
    case BadColon(fields, before, name, mid, p) => "{" + FieldsThen(fields, before + (SpellString(name) + (mid + p)))
    case BadMember(fields, before, name, mid, gap, value) =>
      "{" + FieldsThen(fields, before + (SpellString(name) + (mid + (":" + (gap + SpellBroken(value))))))
    case BadBrace(fields, end, p) => "{" + FieldsThen(fields, SpellField(end, p))
  }

  // ---------- rejection ----------

  lemma CommaStops(ws: string, p: string)
    requires AreWs(ws)
    ensures Stops(ws + ("," + p))
  {
    WsStops(ws, "," + p);
  }

  lemma {:induction false} EntriesFail(entries: seq<Entry>, p: string)
    requires AreEntries(entries) && SpacedEntries(entries) && ParseItems(p) == Failed
    ensures ParseItems(EntriesThen(entries, p)) == Failed
  {
    if entries != [] {
      var e, t := entries[0], "," + EntriesThen(entries[1..], p);
      EntriesFail(entries[1..], p);
      CommaStops(e.after, EntriesThen(entries[1..], p));
      if e.form.Num? { StopsStop(Spell(e.form), e.after + t); }
      EntryRead(e, t);
      ParseItemsComma(EntriesThen(entries, p), Meaning(e.form), e.after + t);
    }
  }

  lemma {:induction false} FieldsFail(fields: seq<Field>, p: string)
    requires AreFields(fields) && SpacedFields(fields) && ParseMembers(p) == Failed
    ensures ParseMembers(FieldsThen(fields, p)) == Failed
  {
    if fields != [] {
      var d, t := fields[0], "," + FieldsThen(fields[1..], p);
      FieldsFail(fields[1..], p);
      CommaStops(d.after, FieldsThen(fields[1..], p));
      if d.form.Num? { StopsStop(Spell(d.form), d.after + t); }
      FieldRead(d, t);
      ParseMembersComma(FieldsThen(fields, p), Member(UnitsValue(d.name), Meaning(d.form)), d.after + t);
    }
  }

  lemma ArrayFails(p: string)
    requires Peek(Skip(p)) != ']' && ParseItems(p) == Failed
    ensures ParseValue("[" + p) == Failed
  {
    var q := "[" + p;
    assert q[0] == '[' && q[1..] == p;
    ParseItemsSkip(p);
    assert ParseArray(q) == Failed;
  }

  lemma ObjectFails(p: string)
    requires Peek(Skip(p)) != '}' && ParseMembers(p) == Failed
    ensures ParseValue("{" + p) == Failed
  {
    var q := "{" + p;
    assert q[0] == '{' && q[1..] == p;
    ParseMembersSkip(p);
    assert ParseObject(q) == Failed;
  }

  // Complete elements do not start with the bracket.
  lemma EntriesThenStart(entries: seq<Entry>, p: string)
    requires AreEntries(entries) && SpacedEntries(entries) && (entries == [] ==> Peek(Skip(p)) != ']')
    ensures Peek(Skip(EntriesThen(entries, p))) != ']'
  {
    if entries != [] {
      var e, t := entries[0], "," + EntriesThen(entries[1..], p);
      FormStart(e.form, e.after + t);
      SkipTo(e.before, Spell(e.form) + (e.after + t));
    }
  }

  lemma FieldsThenStart(fields: seq<Field>, p: string)
    requires AreFields(fields) && SpacedFields(fields) && (fields == [] ==> Peek(Skip(p)) != '}')
    ensures Peek(Skip(FieldsThen(fields, p))) != '}'
  {
    if fields != [] {
      var d, t := fields[0], "," + FieldsThen(fields[1..], p);
      NameRead(d.before, d.name, d.mid + (":" + (d.gap + (Spell(d.form) + (d.after + t)))));
    }
  }

  // What starts no value is skipped by nothing, and neither is what starts one.
  lemma {:induction false} BrokenStart(b: Broken)
    requires IsBroken(b)
    ensures Skip(SpellBroken(b)) == SpellBroken(b)
    ensures Peek(SpellBroken(b)) == ']' ==> b.NoValue?
  {
    SkipNothing(SpellBroken(b));
  }

  // The parser rejects every text with an error in it.
  lemma {:induction false} BrokenFails(b: Broken)
    requires IsBroken(b)
    ensures ParseValue(SpellBroken(b)) == Failed
  {
    match b
    case NoValue(p) =>
    case BadElement(entries, before, element) =>
      BrokenFails(element);
      BrokenStart(element);
      SkipWs(before, SpellBroken(element));
      EntriesFail(entries, before + SpellBroken(element));
      EntriesThenStart(entries, before + SpellBroken(element));
      ArrayFails(EntriesThen(entries, before + SpellBroken(element)));
    case BadBracket(entries, last, p) => BracketFails(entries, last, p);
    case BadName(fields, before, p) => NameFails(fields, before, p);
    case BadColon(fields, before, name, mid, p) => ColonFails(fields, before, name, mid, p);
    case BadMember(fields, before, name, mid, gap, value) =>
      BrokenFails(value);
      BrokenStart(value);
      MemberFails(fields, before, name, mid, gap, SpellBroken(value));
    case BadBrace(fields, end, p) => BraceFails(fields, end, p);
  }

  lemma BracketFails(entries: seq<Entry>, last: Entry, p: string)
    requires IsBroken(BadBracket(entries, last, p))
    ensures ParseValue(SpellBroken(BadBracket(entries, last, p))) == Failed
  {
    var q := last.before + (Spell(last.form) + (last.after + p));
    EntryRead(last, p);
    FormStart(last.form, last.after + p);
    SkipTo(last.before, Spell(last.form) + (last.after + p));
    EntriesFail(entries, q);
    EntriesThenStart(entries, q);
    ArrayFails(EntriesThen(entries, q));
  }

  lemma NameFails(fields: seq<Field>, before: string, p: string)
    requires IsBroken(BadName(fields, before, p))
    ensures ParseValue(SpellBroken(BadName(fields, before, p))) == Failed
  {
    SkipWs(before, p);
    SkipNothing(p);
    FieldsFail(fields, before + p);
    FieldsThenStart(fields, before + p);
    ObjectFails(FieldsThen(fields, before + p));
  }

  lemma ColonFails(fields: seq<Field>, before: string, name: seq<Unit>, mid: string, p: string)
    requires IsBroken(BadColon(fields, before, name, mid, p))
    ensures ParseValue(SpellBroken(BadColon(fields, before, name, mid, p))) == Failed
  {
    var q := before + (SpellString(name) + (mid + p));
    NameRead(before, name, mid + p);
    SkipWs(mid, p);
    SkipNothing(p);
    FieldsFail(fields, q);
    FieldsThenStart(fields, q);
    ObjectFails(FieldsThen(fields, q));
  }

  lemma MemberFails(fields: seq<Field>, before: string, name: seq<Unit>, mid: string, gap: string, v: string)
    requires AreFields(fields) && SpacedFields(fields) && AreWs(before) && AreUnits(name) && AreWs(mid) && AreWs(gap)
    requires ParseValue(v) == Failed && Skip(v) == v
    ensures ParseValue("{" + FieldsThen(fields, before + (SpellString(name) + (mid + (":" + (gap + v)))))) == Failed
  {
    var q := before + (SpellString(name) + (mid + (":" + (gap + v))));
    NameRead(before, name, mid + (":" + (gap + v)));
    SkipTo(mid, ":" + (gap + v));
    assert (":" + (gap + v))[1..] == gap + v;
    SkipWs(gap, v);
    FieldsFail(fields, q);
    FieldsThenStart(fields, q);
    ObjectFails(FieldsThen(fields, q));
  }

  lemma BraceFails(fields: seq<Field>, end: Field, p: string)
    requires IsBroken(BadBrace(fields, end, p))
    ensures ParseValue(SpellBroken(BadBrace(fields, end, p))) == Failed
  {
    FieldRead(end, p);
    FieldsFail(fields, SpellField(end, p));
    FieldsThenStart(fields, SpellField(end, p));
    ObjectFails(FieldsThen(fields, SpellField(end, p)));
  }

  // A text with an error in it is rejected, and so is one with anything but white space behind its
  // value if the end is required.
  lemma TextRejected(before: string, b: Broken, requireEnd: bool)
    requires IsBroken(b) && AreWs(before)
    ensures Parse(before + SpellBroken(b), requireEnd) == Failed
  {
    BrokenFails(b);
    BrokenStart(b);
    SkipWs(before, SpellBroken(b));
  }

  lemma TailRejected(before: string, f: Form, after: string, junk: string)
    requires IsForm(f) && Spaced(f) && AreWs(before) && AreWs(after) && junk != "" && junk[0] > ' '
    requires f.Num? ==> !GoesOn(Spell(f), after + junk)
    ensures Parse(before + (Spell(f) + (after + junk)), true) == Failed
  {
    FormStart(f, after + junk);
    SkipTo(before, Spell(f) + (after + junk));
    FormRead(f, after + junk);
    SkipTo(after, junk);
  }
}
