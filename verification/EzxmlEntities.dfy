/** The general entity table of ezXML: first-match lookup, the circularity check, and why the
    rescanning expansion of references ends. */
module EzxmlEntities {
  import opened CString

  // An entity name is kept with its closing semicolon.
  datatype Entity = Entity(name: string, value: string)

  // The first entity whose name starts the text after an ampersand, or |ents|.
  function Find(s: string, ents: seq<Entity>): (j: nat)
    ensures j <= |ents| && (j < |ents| ==> ents[j].name <= s)
    ensures forall i :: 0 <= i < j ==> !(ents[i].name <= s)
  {
    if ents == [] then 0
    else if ents[0].name <= s then 0
    else
      var j := Find(s, ents[1..]);
      assert forall i :: 1 <= i < j + 1 ==> ents[i] == ents[1..][i - 1];
      j + 1
  }

  // References are marked by '&', those to parameter entities by '%'.

  // Every reference in `s` goes to an entity of rank below `n`.
  ghost predicate RefsBelow(s: string, ents: seq<Entity>, rank: seq<nat>, n: nat, m: char := '&')
    requires |rank| == |ents|
  {
    s == "" ||
    (RefsBelow(s[1..], ents, rank, n, m) &&
     (s[0] == m && Find(s[1..], ents) < |ents| ==> rank[Find(s[1..], ents)] < n))
  }

  // The first-match reference graph has no cycle: ranks fall along its edges.
  ghost predicate Ranked(ents: seq<Entity>, rank: seq<nat>, m: char := '&') {
    |rank| == |ents| && forall i :: 0 <= i < |ents| ==> RefsBelow(ents[i].value, ents, rank, rank[i], m)
  }

  ghost predicate Acyclic(ents: seq<Entity>, m: char := '&') {
    exists rank :: Ranked(ents, rank, m)
  }

  // ezxml_ent_ok, as a function; its recursion ends as ranks fall.
  ghost function EntOk(name: string, s: string, ents: seq<Entity>, rank: seq<nat>, n: nat, m: char := '&'): bool
    requires Ranked(ents, rank, m) && RefsBelow(s, ents, rank, n, m)
    decreases n, |s|
  {
    s == "" ||
    (if s[0] != m then EntOk(name, s[1..], ents, rank, n, m)
     else
       var j := Find(s[1..], ents);
       !(name <= s[1..]) &&
       (j < |ents| ==> EntOk(name, ents[j].value, ents, rank, rank[j], m)) &&
       EntOk(name, s[1..], ents, rank, n, m))
  }

  // ezxml_ent_ok
  method CheckEntity(name: string, s: string, ents: seq<Entity>, ghost rank: seq<nat>, ghost n: nat) returns (ok: bool)
    requires Ranked(ents, rank) && RefsBelow(s, ents, rank, n)
    ensures ok == EntOk(name, s, ents, rank, n)
    decreases n
  {
    var p := s;
    while true
      invariant RefsBelow(p, ents, rank, n) && EntOk(name, s, ents, rank, n) == EntOk(name, p, ents, rank, n)
      decreases |p|
    {
      while p != "" && p[0] != '&'
        invariant RefsBelow(p, ents, rank, n) && EntOk(name, s, ents, rank, n) == EntOk(name, p, ents, rank, n)
        decreases |p|
      {
        p := p[1..];
      }
      if p == "" { return true; }
      if name <= p[1..] { return false; }
      var i := Find(p[1..], ents);
      if i < |ents| {
        ok := CheckEntity(name, ents[i].value, ents, rank, rank[i]);
        if !ok { return; }
      }
      p := p[1..];
    }
  }

  // The verdict does not depend on the bound that shows the recursion ends.
  lemma {:induction false} EntOkBound(name: string, s: string, ents: seq<Entity>, rank: seq<nat>, n: nat, n': nat, m: char := '&')
    requires Ranked(ents, rank, m) && RefsBelow(s, ents, rank, n, m) && RefsBelow(s, ents, rank, n', m)
    ensures EntOk(name, s, ents, rank, n, m) == EntOk(name, s, ents, rank, n', m)
  {
    if s != "" { EntOkBound(name, s[1..], ents, rank, n, n', m); }
  }

  // ---------- accepting an entity ----------

  lemma FindExtended(s: string, ents: seq<Entity>, e: Entity)
    ensures Find(s, ents + [e]) ==
      if Find(s, ents) < |ents| then Find(s, ents) else if e.name <= s then |ents| else |ents| + 1
  {
    var all := ents + [e];
    assert forall i :: 0 <= i < |ents| ==> all[i] == ents[i];
    assert all[|ents|] == e;
  }

  // An upper bound of all ranks.
  ghost function Top(rank: seq<nat>): (n: nat)
    ensures forall i :: 0 <= i < |rank| ==> rank[i] < n
  {
    if rank == [] then 0
    else
      var m := Top(rank[1..]);
      assert forall i :: 1 <= i < |rank| ==> rank[i] == rank[1..][i - 1];
      if rank[0] < m then m else rank[0] + 1
  }

  lemma {:induction false} RefsBelowTop(s: string, ents: seq<Entity>, rank: seq<nat>, m: char := '&')
    requires |rank| == |ents|
    ensures RefsBelow(s, ents, rank, Top(rank), m)
  {
    if s != "" { RefsBelowTop(s[1..], ents, rank, m); }
  }

  // The verdict of ezxml_ent_ok on a declaration.
  ghost predicate Accepted(ents: seq<Entity>, rank: seq<nat>, e: Entity, m: char := '&')
    requires Ranked(ents, rank, m)
  {
    RefsBelowTop(e.value, ents, rank, m);
    EntOk(e.name, e.value, ents, rank, Top(rank), m)
  }

  // Entities that reach a mention of the new name rank above it, the others stay below it.
  ghost function Reranked(name: string, ents: seq<Entity>, rank: seq<nat>, m: char := '&'): (r: seq<nat>)
    requires Ranked(ents, rank, m)
    ensures |r| == |ents| + 1
  {
    seq(|ents|, i requires 0 <= i < |ents| =>
      if EntOk(name, ents[i].value, ents, rank, rank[i], m) then rank[i] else rank[i] + Top(rank) + 1) + [Top(rank)]
  }

  // Text that does not reach the new name: its references keep their ranks.
  lemma {:induction false} SafeText(name: string, s: string, ents: seq<Entity>, rank: seq<nat>, e: Entity, n: nat, m: char := '&')
    requires Ranked(ents, rank, m) && RefsBelow(s, ents, rank, n, m) && e.name == name
    requires EntOk(name, s, ents, rank, n, m)
    ensures RefsBelow(s, ents + [e], Reranked(name, ents, rank, m), n, m)
  {
    if s != "" {
      SafeText(name, s[1..], ents, rank, e, n, m);
      FindExtended(s[1..], ents, e);
    }
  }

  // Any text: its references rank below those of the entities that reach the new name.
  lemma {:induction false} AnyText(name: string, s: string, ents: seq<Entity>, rank: seq<nat>, e: Entity, n: nat, m: char := '&')
    requires Ranked(ents, rank, m) && RefsBelow(s, ents, rank, n, m) && e.name == name
    ensures RefsBelow(s, ents + [e], Reranked(name, ents, rank, m), n + Top(rank) + 1, m)
  {
    if s != "" {
      AnyText(name, s[1..], ents, rank, e, n, m);
      FindExtended(s[1..], ents, e);
    }
  }

  // An accepted entity keeps the reference graph acyclic.
  lemma AcceptKeepsRanked(ents: seq<Entity>, rank: seq<nat>, e: Entity, m: char := '&')
    requires Ranked(ents, rank, m) && Accepted(ents, rank, e, m)
    ensures Ranked(ents + [e], Reranked(e.name, ents, rank, m), m)
  {
    var all, r := ents + [e], Reranked(e.name, ents, rank, m);
    RefsBelowTop(e.value, ents, rank, m);
    forall i | 0 <= i < |all| ensures RefsBelow(all[i].value, all, r, r[i], m) {
      if i == |ents| {
        SafeText(e.name, e.value, ents, rank, e, Top(rank), m);
      } else if EntOk(e.name, ents[i].value, ents, rank, rank[i], m) {
        SafeText(e.name, ents[i].value, ents, rank, e, rank[i], m);
      } else {
        AnyText(e.name, ents[i].value, ents, rank, e, rank[i], m);
      }
    }
  }

  // Names as section 2.3 of XML 1.0 allows them, with the semicolon: it is their last character only.
  ghost predicate WellNamed(name: string) {
    name != "" && name[|name| - 1] == ';' && name[0] != '#' && ';' !in name[..|name| - 1]
  }

  ghost predicate WellNamedAll(ents: seq<Entity>) {
    forall i :: 0 <= i < |ents| ==> WellNamed(ents[i].name)
  }

  // Two such names that start the same text are the same name.
  lemma NamesPrefix(a: string, b: string, s: string)
    requires WellNamed(a) && WellNamed(b) && a <= s && b <= s
    ensures a == b
  {
    assert forall i :: 0 <= i < |a| - 1 ==> a[..|a| - 1][i] == s[i];
    assert forall i :: 0 <= i < |b| - 1 ==> b[..|b| - 1][i] == s[i];
    assert s[|a| - 1] == ';' && s[|b| - 1] == ';';
    assert a == s[..|a|] && b == s[..|b|];
  }

  // A rejected new name would be below itself.
  lemma {:induction false} RejectedReaches(e: Entity, s: string, ents: seq<Entity>, rank: seq<nat>, n: nat, r: seq<nat>,
      n': nat, m: char := '&')
    requires Ranked(ents, rank, m) && RefsBelow(s, ents, rank, n, m) && !EntOk(e.name, s, ents, rank, n, m)
    requires Ranked(ents + [e], r, m) && RefsBelow(s, ents + [e], r, n', m)
    requires WellNamedAll(ents) && WellNamed(e.name) && forall i :: 0 <= i < |ents| ==> ents[i].name != e.name
    ensures r[|ents|] < n'
    decreases n, |s|
  {
    if s[0] != m {
      RejectedReaches(e, s[1..], ents, rank, n, r, n', m);
    } else {
      FindExtended(s[1..], ents, e);
      var j := Find(s[1..], ents);
      if e.name <= s[1..] {
        if j < |ents| { NamesPrefix(ents[j].name, e.name, s[1..]); }
      } else if j < |ents| && !EntOk(e.name, ents[j].value, ents, rank, rank[j], m) {
        assert (ents + [e])[j] == ents[j];
        RejectedReaches(e, ents[j].value, ents, rank, rank[j], r, r[j], m);
      } else {
        RejectedReaches(e, s[1..], ents, rank, n, r, n', m);
      }
    }
  }

  // For a name not declared before, the check accepts exactly the declarations that keep the
  // reference graph acyclic.
  lemma AcceptsIffAcyclic(ents: seq<Entity>, rank: seq<nat>, e: Entity, m: char := '&')
    requires Ranked(ents, rank, m)
    requires WellNamedAll(ents) && WellNamed(e.name) && forall i :: 0 <= i < |ents| ==> ents[i].name != e.name
    ensures Accepted(ents, rank, e, m) <==> Acyclic(ents + [e], m)
  {
    RefsBelowTop(e.value, ents, rank, m);
    if Accepted(ents, rank, e, m) {
      AcceptKeepsRanked(ents, rank, e, m);
    } else if Acyclic(ents + [e], m) {
      var r :| Ranked(ents + [e], r, m);
      assert (ents + [e])[|ents|] == e;
      RejectedReaches(e, e.value, ents, rank, Top(rank), r, r[|ents|], m);
    }
  }
}
