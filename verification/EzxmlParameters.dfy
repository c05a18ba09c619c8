/** Parameter entities: the circularity check does not follow their references. When expanding them
    ends, and that it is only a value that mentions its own name that keeps it from ending. */
module EzxmlParameters {
  import opened Sequences
  import opened CString
  import opened EzxmlEntities
  import opened EzxmlDecode
  import opened EzxmlDecodeInPlace
  import opened EzxmlUtf
  import opened EzxmlDeclarations

  predicate IsMark(c: char) {
    c == '%' || c == '&'
  }

  // A semicolon comes before any mark.
  predicate HasRun(p: string) {
    p != "" && (p[0] == ';' || (!IsMark(p[0]) && HasRun(p[1..])))
  }

  // The text up to its first semicolon.
  function RunOf(p: string): (r: string)
    requires HasRun(p)
    ensures r <= p && r != "" && r[|r| - 1] == ';' && ';' !in r[..|r| - 1]
  {
    if p[0] == ';' then [p[0]]
    else
      var r := RunOf(p[1..]);
      assert ([p[0]] + r)[..|r|] == [p[0]] + r[..|r| - 1];
      [p[0]] + r
  }

  // Entity values as section 4.3.2 of XML 1.0 has them: every mark starts a reference that ends in a
  // semicolon. No character reference stands for a mark.
  ghost predicate Clean(s: string) {
    s == "" ||
    (Clean(s[1..]) && (IsMark(s[0]) ==> HasRun(s[1..])) &&
     ("&#" <= s ==> IsCharRef(s) && NoMark(CharBytes(CharRef(s).0))))
  }

  predicate NoMark(s: string) {
    forall i :: 0 <= i < |s| ==> !IsMark(s[i])
  }

  // Clean, and without character references.
  ghost predicate Settled(v: string) {
    v == "" || (Settled(v[1..]) && (IsMark(v[0]) ==> HasRun(v[1..])) && !("&#" <= v))
  }

  ghost predicate AllSettled(pe: seq<Entity>) {
    forall i :: 0 <= i < |pe| ==> Settled(pe[i].value)
  }

  // No parameter entity of the table is mentioned.
  ghost predicate NoneFound(v: string, pe: seq<Entity>) {
    v == "" || (NoneFound(v[1..], pe) && (v[0] == '%' ==> Find(v[1..], pe) == |pe|))
  }

  // A reference to the parameter entity of this name.
  predicate Mentions(v: string, name: string) {
    v != "" && ((v[0] == '%' && name <= v[1..]) || Mentions(v[1..], name))
  }

  // ---------- decoding leaves no reference to an entity of the table ----------

  lemma {:induction false} RunAppend(p: string, rest: string)
    requires HasRun(p)
    ensures HasRun(p + rest) && RunOf(p + rest) == RunOf(p)
  {
    assert (p + rest)[1..] == p[1..] + rest;
    if p[0] != ';' { RunAppend(p[1..], rest); }
  }

  lemma {:induction false} CleanAppend(v: string, rest: string)
    requires Settled(v) && Clean(rest)
    ensures Clean(v + rest)
  {
    if v == "" {
      assert v + rest == rest;
    } else {
      CleanAppend(v[1..], rest);
      assert (v + rest)[1..] == v[1..] + rest;
      if IsMark(v[0]) {
        RunAppend(v[1..], rest);
        assert (v + rest)[1] == v[1];
      }
    }
  }

  lemma {:induction false} CleanSuffix(s: string, k: nat)
    requires Clean(s) && k <= |s|
    ensures Clean(s[k..])
  {
    if k > 0 {
      CleanSuffix(s[1..], k - 1);
      assert s[1..][k - 1..] == s[k..];
    } else {
      assert s[0..] == s;
    }
  }

  // A well-formed name starts a text if it is the text up to the first semicolon.
  lemma NameIsRun(name: string, p: string)
    requires WellNamed(name) && HasRun(p)
    ensures name <= p <==> name == RunOf(p)
  {
    var r := RunOf(p);
    if name <= p {
      assert forall i :: 0 <= i < |name| ==> name[i] == p[i];
      assert forall i :: 0 <= i < |r| ==> r[i] == p[i];
      assert forall i :: 0 <= i < |name| - 1 ==> name[..|name| - 1][i] == name[i];
      assert forall i :: 0 <= i < |r| - 1 ==> r[..|r| - 1][i] == r[i];
      assert name == p[..|name|] && r == p[..|r|];
    }
  }

  lemma SameRunFinds(p: string, q: string, pe: seq<Entity>)
    requires WellNamedAll(pe) && HasRun(p) && HasRun(q) && RunOf(p) == RunOf(q)
    ensures Find(p, pe) == Find(q, pe)
  {
    forall i | 0 <= i < |pe| ensures pe[i].name <= p <==> pe[i].name <= q {
      NameIsRun(pe[i].name, p);
      NameIsRun(pe[i].name, q);
    }
  }

  // Decoding does not touch what comes before the first semicolon, if no mark does.
  lemma {:induction false} RunKept(s: string, pe: seq<Entity>, rank: seq<nat>)
    requires Expandable(pe, rank, '%') && HasRun(s)
    ensures var out := Expand(s, pe, '%', rank); HasRun(out) && RunOf(out) == RunOf(s)
  {
    ExpandPlain(s, pe, '%', rank);
    var out := Expand(s[1..], pe, '%', rank);
    assert ([s[0]] + out)[1..] == out;
    if s[0] != ';' { RunKept(s[1..], pe, rank); }
  }

  // Clean text becomes settled text in which nothing of the table is mentioned any more.
  lemma {:induction false} ExpandSettles(s: string, pe: seq<Entity>, rank: seq<nat>)
    requires Expandable(pe, rank, '%') && AllSettled(pe) && Clean(s)
    ensures var out := Expand(s, pe, '%', rank); Settled(out) && NoneFound(out, pe)
    decreases Work(s, pe, rank, '%')
  {
    if s == "" {
    } else if "&#" <= s {
      CharRefSettles(s, pe, rank);
    } else if s[0] == '%' && Find(s[1..], pe) < |pe| {
      ExpandEntity(s, pe, '%', rank);
      var v, after := pe[Find(s[1..], pe)].value, AfterSemicolon(s[1..]);
      CleanSuffix(s[1..], |s[1..]| - |after|);
      CleanAppend(v, after);
      ExpandSettles(v + after, pe, rank);
    } else {
      ExpandPlain(s, pe, '%', rank);
      ExpandSettles(s[1..], pe, rank);
      PlainSettles(s, pe, rank);
    }
  }

  lemma {:induction false} CharRefSettles(s: string, pe: seq<Entity>, rank: seq<nat>)
    requires Expandable(pe, rank, '%') && AllSettled(pe) && Clean(s) && "&#" <= s
    ensures var out := Expand(s, pe, '%', rank); Settled(out) && NoneFound(out, pe)
    decreases Work(s, pe, rank, '%'), 0
  {
    ExpandCharRef(s, pe, '%', rank);
    var rest := CharRef(s).1[1..];
    CleanAfter(s);
    ExpandSettles(rest, pe, rank);
    NoMarkAppend(CharBytes(CharRef(s).0), Expand(rest, pe, '%', rank), pe);
  }

  // What follows a character reference.
  lemma CleanAfter(s: string)
    requires Clean(s) && IsCharRef(s)
    ensures CharRef(s).1 != "" && Clean(CharRef(s).1[1..])
  {
    CharRefPasses(s);
    CleanPast(s, CharRef(s).1);
  }

  lemma CleanPast(s: string, end: string)
    requires Clean(s) && Passes(s, end) && end != ""
    ensures Clean(end[1..])
  {
    CleanSuffix(s, |s| - |end| + 1);
    assert end[1..] == s[|s| - |end| + 1..];
  }

  lemma {:induction false} NoMarkAppend(a: string, out: string, pe: seq<Entity>)
    requires NoMark(a) && Settled(out) && NoneFound(out, pe)
    ensures Settled(a + out) && NoneFound(a + out, pe)
  {
    if a == "" {
      assert a + out == out;
    } else {
      NoMarkAppend(a[1..], out, pe);
      assert (a + out)[1..] == a[1..] + out;
    }
  }

  lemma PlainSettles(s: string, pe: seq<Entity>, rank: seq<nat>)
    requires Expandable(pe, rank, '%') && Clean(s) && s != "" && !("&#" <= s)
    requires s[0] == '%' ==> Find(s[1..], pe) == |pe|
    requires var out := Expand(s[1..], pe, '%', rank); Settled(out) && NoneFound(out, pe)
    ensures var out := [s[0]] + Expand(s[1..], pe, '%', rank); Settled(out) && NoneFound(out, pe)
  {
    var out := Expand(s[1..], pe, '%', rank);
    assert ([s[0]] + out)[1..] == out;
    if IsMark(s[0]) {
      RunKept(s[1..], pe, rank);
      SameRunFinds(s[1..], out, pe);
      assert out[0] == RunOf(out)[0] == RunOf(s[1..])[0] == s[1];
    }
  }

  // ---------- one more parameter entity ----------

  // A check that follows '%' would accept the value if and only if it does not mention its own name.
  lemma {:induction false} OkIffNotMentioned(name: string, v: string, pe: seq<Entity>, rank: seq<nat>, n: nat)
    requires Ranked(pe, rank, '%') && RefsBelow(v, pe, rank, n, '%') && NoneFound(v, pe)
    ensures EntOk(name, v, pe, rank, n, '%') <==> !Mentions(v, name)
  {
    if v != "" { OkIffNotMentioned(name, v[1..], pe, rank, n); }
  }

  // Settled values cut no reference off.
  lemma {:induction false} SettledComplete(v: string, pe: seq<Entity>)
    requires Settled(v) && WellNamedAll(pe)
    ensures Complete(v, pe, '%')
  {
    if v != "" {
      SettledComplete(v[1..], pe);
      if v[0] == '%' {
        forall i | 0 <= i < |pe| ensures !(v[1..] < pe[i].name) { RunNotCut(v[1..], pe[i].name); }
      }
    }
  }

  lemma RunNotCut(p: string, name: string)
    requires HasRun(p) && WellNamed(name)
    ensures !(p < name)
  {
    assert p[|RunOf(p)| - 1] == ';';
    assert forall i :: 0 <= i < |name| - 1 ==> name[..|name| - 1][i] == name[i];
  }

  // A table with values as decoding leaves them, and one more such entity with a new name.
  ghost predicate NextOf(pe: seq<Entity>, rank: seq<nat>, e: Entity) {
    && Expandable(pe, rank, '%') && AllSettled(pe)
    && Settled(e.value) && NoneFound(e.value, pe)
    && WellNamed(e.name) && forall i :: 0 <= i < |pe| ==> pe[i].name != e.name
  }

  // The new table has a cycle if and only if the new value mentions its own name. If not, expanding
  // references to it ends on every text.
  lemma NextEndsIff(pe: seq<Entity>, rank: seq<nat>, e: Entity)
    requires NextOf(pe, rank, e)
    ensures Acyclic(pe + [e], '%') <==> !Mentions(e.value, e.name)
    ensures ParamsEnd(pe + [e]) <==> !Mentions(e.value, e.name)
    ensures AllSettled(pe + [e])
  {
    RefsBelowTop(e.value, pe, rank, '%');
    OkIffNotMentioned(e.name, e.value, pe, rank, Top(rank));
    AcceptsIffAcyclic(pe, rank, e, '%');
    if Acyclic(pe + [e], '%') {
      var r :| Ranked(pe + [e], r, '%');
      forall i | 0 <= i < |pe + [e]| ensures Complete((pe + [e])[i].value, pe + [e], '%') {
        SettledComplete((pe + [e])[i].value, pe + [e]);
      }
      assert Expandable(pe + [e], r, '%');
    }
  }

  // ---------- all declarations ----------

  // The literals are clean once their line ends are normalized, and the names of parameter entities
  // are well formed and not declared before.
  ghost predicate Proper(decls: seq<Declaration>, names: set<string>) {
    decls == [] ||
    var d := decls[0];
    && Clean(Normalize(d.literal))
    && (d.parameter ==> WellNamed(Name(d)) && Name(d) !in names)
    && Proper(decls[1..], if d.parameter then names + {Name(d)} else names)
  }

  function Name(d: Declaration): string {
    d.name + ";"
  }

  ghost function Names(pe: seq<Entity>): set<string> {
    set e | e in pe :: e.name
  }

  // No value of a parameter entity mentions its own name, as far as the values can be decoded.
  ghost predicate NoneMentionsItself(decls: seq<Declaration>, pe: seq<Entity>) {
    decls == [] ||
    (ParamsEnd(pe) ==>
      (decls[0].parameter ==> !Mentions(Declared(decls[0], pe).value, Name(decls[0]))) &&
      NoneMentionsItself(decls[1..], NextParams(decls[0], pe)))
  }

  lemma DeclaredNext(d: Declaration, pe: seq<Entity>)
    requires ParamsEnd(pe) && AllSettled(pe) && Clean(Normalize(d.literal))
    requires WellNamed(Name(d)) && Name(d) !in Names(pe)
    ensures NextOf(pe, ParamRank(pe), Declared(d, pe))
  {
    ExpandSettles(Normalize(d.literal), pe, ParamRank(pe));
    assert forall i :: 0 <= i < |pe| ==> pe[i].name in Names(pe);
  }

  // Declared parameter entities have no cycle, and expanding references to them always ends, if and
  // only if no value mentions its own name.
  lemma {:induction false} ParametersEndIff(decls: seq<Declaration>, pe: seq<Entity>)
    requires ParamsEnd(pe) && AllSettled(pe) && Proper(decls, Names(pe))
    ensures NoneMentionsItself(decls, pe) <==>
      Readable(decls, pe) && Acyclic(pe + AllDeclared(decls, pe, true), '%')
    ensures NoneMentionsItself(decls, pe) ==> ParamsEnd(pe + AllDeclared(decls, pe, true))
  {
    if decls == [] {
      assert pe + [] == pe;
      assert Ranked(pe, ParamRank(pe), '%');
    } else {
      var d, more := decls[0], decls[1..];
      if d.parameter {
        var e := Declared(d, pe);
        DeclaredNext(d, pe);
        NextEndsIff(pe, ParamRank(pe), e);
        assert Names(pe + [e]) == Names(pe) + {e.name};
        if !Mentions(e.value, e.name) {
          ParametersEndIff(more, pe + [e]);
          if Readable(more, pe + [e]) { Associative(pe, [e], AllDeclared(more, pe + [e], true)); }
        } else if more == [] {
          assert [e] + [] == [e];
        }
      } else {
        ParametersEndIff(more, pe);
      }
    }
  }

  const SELF := Entity("a;", "%a;")

  lemma {:induction false} NothingToExpand(s: string, rank: seq<nat>)
    requires Expandable([], rank, '%') && '&' !in s
    ensures Expand(s, [], '%', rank) == s
  {
    if s != "" {
      assert s[0] in s;
      ExpandPlain(s, [], '%', rank);
      NothingToExpand(s[1..], rank);
    }
  }

  lemma SelfDeclared()
    ensures ParamsEnd([]) && Declared(Declaration(true, "a", "%a;"), []) == SELF
  {
    assert Expandable([], [], '%');
    NothingToExpand("%a;", ParamRank([]));
    assert "a" + ";" == "a;" && '\r' !in "%a;";
  }

  lemma SelfReplaced()
    ensures Find("%a;"[1..], [SELF]) == 0 && Replaced("%a;", [SELF]) == "%a;" && Mentions("%a;", "a;")
  {
    assert "%a;"[1..] == "a;" && "a;"[1..] == ";" && ";"[1..] == "";
    assert AfterSemicolon(";") == "" && AfterSemicolon("a;") == "";
  }

  // The check follows '&' only: a parameter entity that mentions itself is accepted, and replacing
  // the reference to it gives the same reference again.
  lemma ParameterEntityLoops()
    ensures ParamsEnd([]) && Declared(Declaration(true, "a", "%a;"), []) == SELF && Mentions(SELF.value, SELF.name)
    ensures Ranked([], []) && Accepted([], [], SELF)
    ensures IsEntityMark("%a;", '%') && Find("%a;"[1..], [SELF]) == 0 && Replaced("%a;", [SELF]) == "%a;"
  {
    SelfDeclared();
    SelfReplaced();
    PlainText("a;", "%a;", [], [], Top([]));
  }
}
