/** Why acceptance of every entity is not enough for expansion to end: references that are cut off at
    the end of a value and completed by the text after it. */
module EzxmlStraddling {
  import opened EzxmlEntities
  import opened EzxmlDecode
  import opened EzxmlEscape

  const LEFT := Entity("a;", "&c")
  const RIGHT := Entity("c;", "&a;;")

  // Tables in which the two names are new.
  ghost predicate New(ents: seq<Entity>, rank: seq<nat>) {
    Ranked(ents, rank) && Find("c", ents) == Find("c;", ents) == Find("a;;", ents) == |ents|
  }

  // The table with both entities, the first one at this place.
  ghost predicate Both(ents: seq<Entity>, first: seq<Entity>, all: seq<Entity>) {
    first == ents + [LEFT] && all == first + [RIGHT]
  }

  lemma LeftAccepted(ents: seq<Entity>, rank: seq<nat>)
    requires New(ents, rank)
    ensures Accepted(ents, rank, LEFT)
  {
    assert "&c"[1..] == "c";
    RefsBelowTop("&c", ents, rank);
    OneReference("a;", "&c", ents, rank, Top(rank));
  }

  lemma RightAccepted(ents: seq<Entity>, first: seq<Entity>, rank: seq<nat>)
    requires Find("c", ents) == Find("a;;", ents) == |ents| && first == ents + [LEFT] && Ranked(first, rank)
    ensures Accepted(first, rank, RIGHT)
  {
    assert "&c"[1..] == "c" && "&a;;"[1..] == "a;;";
    FindExtended("c", ents, LEFT);
    FindExtended("a;;", ents, LEFT);
    assert first[|ents|] == LEFT;
    RefsBelowTop("&a;;", first, rank);
    OneReference("c;", "&c", first, rank, rank[|ents|]);
    PlainText("c;", "a;;", first, rank, Top(rank));
  }

  lemma LeftReplaced(ents: seq<Entity>, first: seq<Entity>, all: seq<Entity>)
    requires Both(ents, first, all) && Find("c;", ents) == |ents|
    ensures Find("&c;"[1..], all) < |all| && Replaced("&c;", all) == "&a;;"
  {
    assert "&c;"[1..] == "c;" && "c;"[1..] == ";" && ";"[1..] == "";
    FindExtended("c;", ents, LEFT);
    FindExtended("c;", first, RIGHT);
    assert AfterSemicolon(";") == "" && AfterSemicolon("c;") == "";
  }

  lemma RightReplaced(ents: seq<Entity>, first: seq<Entity>, all: seq<Entity>)
    requires Both(ents, first, all) && Find("a;;", ents) == |ents|
    ensures Find("&a;;"[1..], all) < |all| && Replaced("&a;;", all) == "&c;"
  {
    assert "&a;;"[1..] == "a;;" && "a;;"[1..] == ";;" && ";;"[1..] == ";";
    FindExtended("a;;", ents, LEFT);
    FindExtended("a;;", first, RIGHT);
    assert all[|ents|] == LEFT;
    assert AfterSemicolon(";;") == ";" && AfterSemicolon("a;;") == ";";
  }

  // Without complete references, acceptance by ezxml_ent_ok is not enough: here both entities are
  // accepted and the graph is acyclic, and expanding &c; comes back to &c;.
  lemma StraddlingLoops(ents: seq<Entity>, rank: seq<nat>)
    requires New(ents, rank)
    ensures var first := ents + [LEFT]; var all, rank' := first + [RIGHT], Reranked("a;", ents, rank);
      Accepted(ents, rank, LEFT) && Ranked(first, rank') && Accepted(first, rank', RIGHT) && Acyclic(all) &&
      Find("&c;"[1..], all) < |all| && Find(Replaced("&c;", all)[1..], all) < |all| &&
      Replaced(Replaced("&c;", all), all) == "&c;"
  {
    var first := ents + [LEFT];
    var all, rank' := first + [RIGHT], Reranked("a;", ents, rank);
    LeftAccepted(ents, rank);
    AcceptKeepsRanked(ents, rank, LEFT);
    RightAccepted(ents, first, rank');
    AcceptKeepsRanked(first, rank', RIGHT);
    LeftReplaced(ents, first, all);
    RightReplaced(ents, first, all);
  }

  // So it is after the five default entities, with which the table of a document starts.
  lemma DefaultNew()
    ensures New(DEFAULT, NO_RANK)
  {
    DefaultExpandable();
    NotDefault("c");
    NotDefault("c;");
    NotDefault("a;;");
  }

  // No default entity has a one-letter name.
  lemma NotDefault(s: string)
    requires s in {"c", "c;", "a;;"}
    ensures Find(s, DEFAULT) == |DEFAULT|
  {
    assert "lt;"[0] == 'l' && "gt;"[0] == 'g' && "quot;"[0] == 'q' && "apos;"[1] == 'p' && "amp;"[1] == 'm';
    assert forall i :: 0 <= i < |DEFAULT| ==> !(DEFAULT[i].name <= s);
  }
}
