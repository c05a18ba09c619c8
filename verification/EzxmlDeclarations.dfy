/** The entity declarations of ezxml_internal_dtd: each value is decoded with the parameter entities so
    far, checked for circular references against the table of its kind, and added to it. */
module EzxmlDeclarations {
  import opened Sequences
  import opened EzxmlEntities
  import opened EzxmlDecode
  import opened EzxmlDecodeInPlace

  // <!ENTITY name "literal"> or <!ENTITY % name "literal">
  datatype Declaration = Declaration(parameter: bool, name: string, literal: string)

  // Expanding references to these parameter entities ends on every text.
  ghost predicate ParamsEnd(pe: seq<Entity>) {
    exists rank :: Expandable(pe, rank, '%')
  }

  ghost function ParamRank(pe: seq<Entity>): (rank: seq<nat>)
    requires ParamsEnd(pe)
    ensures Expandable(pe, rank, '%')
  {
    var rank :| Expandable(pe, rank, '%');
    rank
  }

  // The value kept for a declaration: character references and references to parameter entities
  // are decoded, those to general entities stay.
  ghost function Declared(d: Declaration, pe: seq<Entity>): Entity
    requires ParamsEnd(pe)
  {
    Entity(d.name + ";", Expand(Normalize(d.literal), pe, '%', ParamRank(pe)))
  }

  ghost function NextParams(d: Declaration, pe: seq<Entity>): seq<Entity>
    requires ParamsEnd(pe)
  {
    if d.parameter then pe + [Declared(d, pe)] else pe
  }

  // The literals can be decoded, each with the parameter entities before it.
  ghost predicate Readable(decls: seq<Declaration>, pe: seq<Entity>) {
    decls == [] || (ParamsEnd(pe) && Readable(decls[1..], NextParams(decls[0], pe)))
  }

  // All entities of one kind.
  ghost function AllDeclared(decls: seq<Declaration>, pe: seq<Entity>, parameter: bool): seq<Entity>
    requires Readable(decls, pe)
  {
    if decls == [] then []
    else
      var more := AllDeclared(decls[1..], NextParams(decls[0], pe), parameter);
      if decls[0].parameter == parameter then [Declared(decls[0], pe)] + more else more
  }

  // The two tables, with ranks for the references that ezxml_ent_ok follows.
  datatype Tables = Tables(ents: seq<Entity>, rank: seq<nat>, pe: seq<Entity>, perank: seq<nat>)

  ghost predicate Acyclics(t: Tables) {
    Ranked(t.ents, t.rank) && Ranked(t.pe, t.perank)
  }

  // One declaration: it is added to the table of its kind if it is not circular there.
  ghost function Added(d: Declaration, t: Tables): (r: (Tables, bool))
    requires Acyclics(t) && ParamsEnd(t.pe)
    ensures Acyclics(r.0) && (r.1 ==> r.0.pe == NextParams(d, t.pe))
  {
    var e := Declared(d, t.pe);
    if d.parameter then
      if Accepted(t.pe, t.perank, e) then
        AcceptKeepsRanked(t.pe, t.perank, e);
        (t.(pe := t.pe + [e], perank := Reranked(e.name, t.pe, t.perank)), true)
      else (t, false)
    else if Accepted(t.ents, t.rank, e) then
      AcceptKeepsRanked(t.ents, t.rank, e);
      (t.(ents := t.ents + [e], rank := Reranked(e.name, t.ents, t.rank)), true)
    else (t, false)
  }

  // The tables after the declarations: those before the first circular one are added.
  ghost function Table(decls: seq<Declaration>, t: Tables): (r: (Tables, bool))
    requires Acyclics(t) && Readable(decls, t.pe)
    ensures Acyclics(r.0)
  {
    if decls == [] then (t, true)
    else
      var (u, ok) := Added(decls[0], t);
      if ok then Table(decls[1..], u) else (u, false)
  }

  // The loop over the declarations. It stops at a circular one.
  method Declare(decls: seq<Declaration>, ents: seq<Entity>, pe: seq<Entity>, ghost t: Tables)
      returns (table: seq<Entity>, params: seq<Entity>, ok: bool, ghost u: Tables)
    requires Acyclics(t) && t.ents == ents && t.pe == pe && Readable(decls, pe)
    ensures (u, ok) == Table(decls, t) && Acyclics(u) && u.ents == table && u.pe == params
  {
    table, params, u := ents, pe, t;
    var i := 0;
    assert decls[0..] == decls;
    while i < |decls|
      invariant i <= |decls| && Acyclics(u) && u.ents == table && u.pe == params && Readable(decls[i..], params)
      invariant Table(decls, t) == Table(decls[i..], u)
    {
      assert decls[i..][0] == decls[i] && decls[i..][1..] == decls[i + 1..];
      table, params, ok, u := AddNext(decls[i], table, params, u);
      if !ok { return; }
      i := i + 1;
    }
    ok := true;
  }

  // One turn: the table of the declaration's kind is chosen, and the value decoded and checked.
  method AddNext(d: Declaration, ents: seq<Entity>, pe: seq<Entity>, ghost t: Tables)
      returns (table: seq<Entity>, params: seq<Entity>, ok: bool, ghost u: Tables)
    requires Acyclics(t) && t.ents == ents && t.pe == pe && ParamsEnd(pe)
    ensures (u, ok) == Added(d, t) && u.ents == table && u.pe == params
  {
    table, params, u := ents, pe, t;
    var value := Decode(d.literal, pe, '%', ParamRank(pe));
    var e := Entity(d.name + ";", value);
    assert e == Declared(d, pe);
    if d.parameter {
      RefsBelowTop(value, pe, t.perank);
      ok := CheckEntity(e.name, value, pe, t.perank, Top(t.perank));
      if ok { params := pe + [e]; }
    } else {
      RefsBelowTop(value, ents, t.rank);
      ok := CheckEntity(e.name, value, ents, t.rank, Top(t.rank));
      if ok { table := ents + [e]; }
    }
    u := Added(d, t).0;
  }

  // ---------- all declarations are taken exactly when neither table has a cycle ----------

  ghost predicate Distinct(ents: seq<Entity>) {
    forall i, j :: 0 <= i < j < |ents| ==> ents[i].name != ents[j].name
  }

  lemma {:induction false} RefsBelowShorter(s: string, ents: seq<Entity>, e: Entity, rank: seq<nat>, n: nat)
    requires |rank| == |ents| + 1 && RefsBelow(s, ents + [e], rank, n)
    ensures RefsBelow(s, ents, rank[..|ents|], n)
  {
    if s != "" {
      RefsBelowShorter(s[1..], ents, e, rank, n);
      FindExtended(s[1..], ents, e);
    }
  }

  lemma AcyclicShorter(ents: seq<Entity>, e: Entity)
    requires Acyclic(ents + [e])
    ensures Acyclic(ents)
  {
    var rank :| Ranked(ents + [e], rank);
    forall i | 0 <= i < |ents| ensures RefsBelow(ents[i].value, ents, rank[..|ents|], rank[..|ents|][i]) {
      assert (ents + [e])[i] == ents[i];
      RefsBelowShorter(ents[i].value, ents, e, rank, rank[i]);
    }
    assert Ranked(ents, rank[..|ents|]);
  }

  lemma {:induction false} AcyclicPrefix(ents: seq<Entity>, more: seq<Entity>)
    requires Acyclic(ents + more)
    ensures Acyclic(ents)
  {
    if more == [] {
      assert ents + more == ents;
    } else {
      var last := |more| - 1;
      assert ents + more == (ents + more[..last]) + [more[last]];
      AcyclicShorter(ents + more[..last], more[last]);
      AcyclicPrefix(ents, more[..last]);
    }
  }

  // Well-formed names, each declared once.
  ghost predicate Named(ents: seq<Entity>) {
    WellNamedAll(ents) && Distinct(ents)
  }

  // One more entity is accepted if and only if the table keeps without a cycle, whatever comes after it.
  lemma NextAccepted(ents: seq<Entity>, rank: seq<nat>, e: Entity, more: seq<Entity>)
    requires Ranked(ents, rank) && Named(ents + ([e] + more))
    ensures Acyclic(ents + ([e] + more)) ==> Accepted(ents, rank, e)
    ensures ents + ([e] + more) == (ents + [e]) + more
  {
    Associative(ents, [e], more);
    NewName(ents, e, more);
    AcceptsIffAcyclic(ents, rank, e);
    if Acyclic(ents + ([e] + more)) { AcyclicPrefix(ents + [e], more); }
  }

  // With well-formed, distinct names, the declarations are all taken if and only if the graphs of
  // general references of both tables, with all of them, have no cycle.
  lemma {:induction false} TakenIffAcyclic(decls: seq<Declaration>, t: Tables)
    requires Acyclics(t) && Readable(decls, t.pe)
    requires Named(t.ents + AllDeclared(decls, t.pe, false)) && Named(t.pe + AllDeclared(decls, t.pe, true))
    ensures var (u, ok) := Table(decls, t); var ents, pe := t.ents + AllDeclared(decls, t.pe, false), t.pe + AllDeclared(decls, t.pe, true);
      (ok <==> Acyclic(ents) && Acyclic(pe)) && (ok ==> u.ents == ents && u.pe == pe)
  {
    if decls == [] {
      assert t.ents + [] == t.ents && t.pe + [] == t.pe;
    } else {
      var d, e, pe' := decls[0], Declared(decls[0], t.pe), NextParams(decls[0], t.pe);
      var more, params := AllDeclared(decls[1..], pe', false), AllDeclared(decls[1..], pe', true);
      if d.parameter {
        NextAccepted(t.pe, t.perank, e, params);
      } else {
        NextAccepted(t.ents, t.rank, e, more);
      }
      var (u, ok) := Added(d, t);
      if ok { TakenIffAcyclic(decls[1..], u); }
    }
  }

  lemma NewName(ents: seq<Entity>, e: Entity, more: seq<Entity>)
    requires WellNamedAll((ents + [e]) + more) && Distinct((ents + [e]) + more)
    ensures WellNamedAll(ents) && WellNamed(e.name) && forall i :: 0 <= i < |ents| ==> ents[i].name != e.name
  {
    var all := (ents + [e]) + more;
    assert all[|ents|] == e && forall i :: 0 <= i < |ents| ==> all[i] == ents[i];
  }

  // After such declarations, ezxml_decode ends on every text if no value cuts a reference off.
  lemma DeclaredExpandable(decls: seq<Declaration>, t: Tables)
    requires Acyclics(t) && Readable(decls, t.pe)
    requires var ents := Table(decls, t).0.ents;
      WellNamedAll(ents) && forall i :: 0 <= i < |ents| ==> Complete(ents[i].value, ents)
    ensures Expandable(Table(decls, t).0.ents, Table(decls, t).0.rank)
  {
  }
}
