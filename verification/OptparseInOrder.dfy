/** Calling optparse to the end with permute off: the options before the first operand are found, and
    no argument moves. */
module OptparseInOrder {
  import opened Sequences
  import opened Wrappers
  import opened Optparse
  import opened OptparseRun
  import opened OptparseWords

  // No option is read next.
  predicate Stops(rest: seq<string>) {
    rest == [] || !IsShort(rest[0])
  }

  // An undeclared letter must be the first one of its group, or the group the last one that is read.
  predicate CleanFront(rest: seq<string>, sub: nat, optstring: string)
    requires SubOk(rest, sub, false)
    decreases |rest|, Left(rest, sub, false)
  {
    Stops(rest) ||
    var t := Letter(rest[0], Next(rest), sub, optstring);
    if t.m == 0 then CleanFront(rest, t.sub, optstring)
    else
      SubZero(rest[t.m..], false);
      (t.sub == 0 || Stops(rest[t.m..])) && CleanFront(rest[t.m..], 0, optstring)
  }

  // How many arguments are consumed, and the options found.
  function Front(rest: seq<string>, sub: nat, optstring: string): (r: (nat, seq<Hit>))
    requires SubOk(rest, sub, false) && CleanFront(rest, sub, optstring)
    ensures r.0 <= |rest|
    decreases |rest|, Left(rest, sub, false)
  {
    if Stops(rest) then (if rest != [] && IsDashDash(rest[0]) then 1 else 0, [])
    else
      var t := Letter(rest[0], Next(rest), sub, optstring);
      SubZero(rest[t.m..], false);
      var (n, hits) := if t.m == 0 then Front(rest, t.sub, optstring) else Front(rest[t.m..], 0, optstring);
      (t.m + n, [Hit(t.ret.value, t.optopt, t.optarg)] + hits)
  }

  // One call reads the first letter.
  lemma FrontStep(rest: seq<string>, sub: nat, optstring: string)
    requires SubOk(rest, sub, false) && CleanFront(rest, sub, optstring)
    ensures var t := Parsed(rest, sub, optstring, false); var next := rest[t.m..];
      t.j == 0 &&
      if t.ret.None? then Front(rest, sub, optstring) == (t.m, [])
      else
        SubOk(next, t.sub, false) && CleanFront(next, t.sub, optstring) &&
        var b := Front(next, t.sub, optstring);
        Front(rest, sub, optstring) == (t.m + b.0, [Hit(t.ret.value, t.optopt, t.optarg)] + b.1)
  {
    var t := Parsed(rest, sub, optstring, false);
    if !Stops(rest) && t.m == 0 { assert rest[0..] == rest; }
    if !Stops(rest) { SubZero(rest[t.m..], false); }
  }

  // What is left to find, from optind on: the run ends at `end` with the options `all`.
  ghost predicate Toward(rest: seq<string>, k: nat, sub: nat, optstring: string, hits: seq<Hit>, end: nat, all: seq<Hit>) {
    SubOk(rest, sub, false) && CleanFront(rest, sub, optstring) &&
    end == k + Front(rest, sub, optstring).0 && all == hits + Front(rest, sub, optstring).1
  }

  lemma TowardStep(rest: seq<string>, k: nat, sub: nat, optstring: string, hits: seq<Hit>, end: nat, all: seq<Hit>)
    requires Toward(rest, k, sub, optstring, hits, end, all)
    ensures var t := Parsed(rest, sub, optstring, false);
      if t.ret.None? then end == k + t.m && all == hits
      else Toward(rest[t.m..], k + t.m, t.sub, optstring, hits + [Hit(t.ret.value, t.optopt, t.optarg)], end, all)
  {
    var t := Parsed(rest, sub, optstring, false);
    FrontStep(rest, sub, optstring);
    if t.ret.Some? {
      Associative(hits, [Hit(t.ret.value, t.optopt, t.optarg)], Front(rest[t.m..], t.sub, optstring).1);
    } else {
      assert hits + [] == hits;
    }
  }

  // No argument moves.
  lemma InPlace(all: seq<string>, k: nat, sub: nat, optstring: string)
    requires k <= |all| && SubOk(all[k..], sub, false)
    ensures var t := Parsed(all[k..], sub, optstring, false);
      t.j == 0 && Rearranged(all, k, 0, t.m) == all && all[k..][t.m..] == all[k + t.m..]
  {
    Unmoved(all, k);
  }

  ghost predicate Ahead(all: seq<string>, k: nat, sub: nat, optstring: string, hits: seq<Hit>, end: nat, found: seq<Hit>)
  {
    k <= |all| && Toward(all[k..], k, sub, optstring, hits, end, found)
  }

  lemma AheadStep(all: seq<string>, k: nat, sub: nat, optstring: string, hits: seq<Hit>, end: nat, found: seq<Hit>,
      t: Turn, all1: seq<string>)
    requires Ahead(all, k, sub, optstring, hits, end, found) && t == Parsed(all[k..], sub, optstring, false)
    requires all1 == Rearranged(all, k, t.j, t.m)
    ensures all1 == all
    ensures t.ret.None? ==> end == k + t.m && found == hits
    ensures t.ret.Some? ==>
      Ahead(all, k + t.m, t.sub, optstring, hits + [Hit(t.ret.value, t.optopt, t.optarg)], end, found)
  {
    InPlace(all, k, sub, optstring);
    TowardStep(all[k..], k, sub, optstring, hits, end, found);
  }

  // One call on the way.
  method Call(options: Options, optstring: string, ghost hits: seq<Hit>, ghost end: nat, ghost found: seq<Hit>)
      returns (r: Option<char>)
    requires !options.permute
    requires Ahead(options.argv[..], options.optind, options.subopt, optstring, hits, end, found)
    modifies options, options.argv
    ensures !options.permute && options.argv[..] == old(options.argv[..])
    ensures r.None? ==> end == options.optind && found == hits
    ensures r.Some? ==>
      var hits1 := hits + [Hit(r.value, options.optopt, options.optarg)];
      Ahead(options.argv[..], options.optind, options.subopt, optstring, hits1, end, found)
  {
    ghost var all, k, sub := options.argv[..], options.optind, options.subopt;
    assert all[k..] == options.argv[k..];
    ghost var t := Parsed(all[k..], sub, optstring, false);
    r := options.Optparse(optstring);
    AheadStep(all, k, sub, optstring, hits, end, found, t, options.argv[..]);
  }

  // Calling optparse until it returns -1.
  method ParseInOrder(options: Options, optstring: string) returns (hits: seq<Hit>)
    requires options.Valid() && !options.permute
    requires CleanFront(options.argv[options.optind..], options.subopt, optstring)
    modifies options, options.argv
    ensures options.argv[..] == old(options.argv[..])
    ensures var f := Front(old(options.argv[options.optind..]), old(options.subopt), optstring);
      options.optind == old(options.optind) + f.0 && hits == f.1
  {
    ghost var f := Front(options.argv[options.optind..], options.subopt, optstring);
    ghost var end := options.optind + f.0;
    hits := [];
    assert [] + f.1 == f.1 && options.argv[..][options.optind..] == options.argv[options.optind..];
    while true
      invariant !options.permute && options.argv[..] == old(options.argv[..])
      invariant Ahead(options.argv[..], options.optind, options.subopt, optstring, hits, end, f.1)
      decreases |f.1| - |hits|
    {
      var r := Call(options, optstring, hits, end, f.1);
      if r.None? { break; }
      hits := hits + [Hit(r.value, options.optopt, options.optarg)];
    }
  }

  // ---------- lines ----------

  predicate AllGroups(items: seq<Item>) {
    forall i :: 0 <= i < |items| ==> items[i].Group?
  }

  // No argument may stand behind an option that misses one.
  predicate MayStop(items: seq<Item>, stop: seq<string>) {
    (stop == [] || IsOperand(stop[0]) || stop[0] == "--") &&
    (items != [] && items[|items| - 1].Group? && items[|items| - 1].last.Missing? ==> stop == [])
  }

  // Nothing stands behind a missing argument, and no option behind a letter that is none and not the
  // first one of its group.
  predicate MayFollow(x: Item, more: seq<string>)
    requires x.Group?
  {
    (x.last.Missing? ==> more == []) && (x.last.Invalid? && x.flags != "" ==> Stops(more))
  }

  lemma {:induction false} GroupRead(x: Item, more: seq<string>, line: seq<string>, optstring: string, sub: nat)
    requires x.Group? && Allowed(x, optstring) && sub <= |x.flags| && line == Words(x) + more
    requires MayFollow(x, more)
    requires SubOk(more, 0, false) && CleanFront(more, 0, optstring)
    ensures SubOk(line, sub, false) && CleanFront(line, sub, optstring)
    ensures var f := Front(more, 0, optstring);
      Front(line, sub, optstring) == (|Words(x)| + f.0, FlagHits(x.flags[sub..]) + [LastHit(x.last)] + f.1)
    decreases |x.flags| - sub
  {
    var last, f := [LastHit(x.last)], Front(more, 0, optstring);
    if sub < |x.flags| {
      GroupRead(x, more, line, optstring, sub + 1);
      FlagRead(x, more, line, optstring, sub);
      Behind3([Hit(x.flags[sub], x.flags[sub], None)], FlagHits(x.flags[sub + 1..]), last, f.1);
    } else {
      LastRead(x, more, line, optstring);
      NoFlags(x, last, f.1);
    }
  }

  // A letter that ends its word.
  lemma LetterRead(line: seq<string>, sub: nat, more: seq<string>, t: Turn, optstring: string)
    requires line != [] && IsShort(line[0]) && sub + 1 < |line[0]| && t == Letter(line[0], Next(line), sub, optstring)
    requires 0 < t.m <= |line| && more == line[t.m..] && (t.sub == 0 || Stops(more))
    requires SubOk(more, 0, false) && CleanFront(more, 0, optstring)
    ensures SubOk(line, sub, false) && CleanFront(line, sub, optstring)
    ensures var f := Front(more, 0, optstring);
      Front(line, sub, optstring) == (t.m + f.0, [Hit(t.ret.value, t.optopt, t.optarg)] + f.1)
  {
  }

  lemma LastRead(x: Item, more: seq<string>, line: seq<string>, optstring: string)
    requires x.Group? && Allowed(x, optstring) && line == Words(x) + more
    requires MayFollow(x, more)
    requires SubOk(more, 0, false) && CleanFront(more, 0, optstring)
    ensures SubOk(line, |x.flags|, false) && CleanFront(line, |x.flags|, optstring)
    ensures var f := Front(more, 0, optstring);
      Front(line, |x.flags|, optstring) == (|Words(x)| + f.0, [LastHit(x.last)] + f.1)
  {
    LastTurn(x, more, optstring);
    LetterRead(line, |x.flags|, more, Letter(Word(x), Next(line), |x.flags|, optstring), optstring);
  }

  lemma FlagRead(x: Item, more: seq<string>, line: seq<string>, optstring: string, sub: nat)
    requires x.Group? && Allowed(x, optstring) && sub < |x.flags| && line == Words(x) + more
    requires SubOk(line, sub + 1, false) && CleanFront(line, sub + 1, optstring)
    ensures SubOk(line, sub, false) && CleanFront(line, sub, optstring)
    ensures var f, c := Front(line, sub + 1, optstring), x.flags[sub];
      Front(line, sub, optstring) == (f.0, [Hit(c, c, None)] + f.1)
    ensures FlagHits(x.flags[sub..]) == [Hit(x.flags[sub], x.flags[sub], None)] + FlagHits(x.flags[sub + 1..])
  {
    assert line[0] == Word(x);
    FlagTurn(x, Next(line), optstring, sub);
  }

  // The run consumes `n` arguments and finds `hits`.
  predicate Finds(line: seq<string>, optstring: string, n: nat, hits: seq<Hit>) {
    SubOk(line, 0, false) && CleanFront(line, 0, optstring) && Front(line, 0, optstring) == (n, hits)
  }

  lemma WholeRead(x: Item, more: seq<string>, optstring: string, n: nat, hits: seq<Hit>)
    requires x.Group? && Allowed(x, optstring)
    requires MayFollow(x, more)
    requires Finds(more, optstring, n, hits)
    ensures Finds(Words(x) + more, optstring, |Words(x)| + n, FlagHits(x.flags) + [LastHit(x.last)] + hits)
  {
    GroupRead(x, more, Words(x) + more, optstring, 0);
    assert x.flags[0..] == x.flags;
  }

  // A "--" at the end of the options is consumed.
  function Ended(stop: seq<string>): nat {
    if stop != [] && stop[0] == "--" then 1 else 0
  }

  // Nothing is read at the operand, the "--" or the end.
  lemma StopRead(stop: seq<string>, optstring: string)
    requires stop == [] || IsOperand(stop[0]) || stop[0] == "--"
    ensures Finds(stop, optstring, Ended(stop), [])
  {
    SubZero(stop, false);
  }

  lemma StopParsed(stop: seq<string>, optstring: string)
    requires MayStop([], stop)
    ensures Finds(Line([]) + stop, optstring, |Line([])| + Ended(stop), Meant([]))
  {
    StopRead(stop, optstring);
    assert Line([]) + stop == stop;
  }

  // With permute off, the options before the first operand, "--" or the end are found, and no others;
  // optind stops at the operand, or behind the "--".
  lemma {:induction false} FrontParsed(items: seq<Item>, stop: seq<string>, optstring: string)
    requires AllAllowed(items, optstring) && AllGroups(items) && MayStop(items, stop)
    ensures Finds(Line(items) + stop, optstring, |Line(items)| + Ended(stop), Meant(items))
  {
    if items == [] {
      StopParsed(stop, optstring);
    } else {
      RestStops(items, stop, optstring);
      FrontParsed(items[1..], stop, optstring);
      LastMayStop(items, stop, optstring);
      FirstParsed(items[0], Line(items[1..]), stop, optstring, Meant(items[1..]));
    }
  }

  // One more group in front of words that are read.
  lemma FirstParsed(x: Item, words: seq<string>, stop: seq<string>, optstring: string, hits: seq<Hit>)
    requires x.Group? && Allowed(x, optstring) && MayFollow(x, words + stop)
    requires Finds(words + stop, optstring, |words| + Ended(stop), hits)
    ensures var all := Words(x) + words;
      Finds(all + stop, optstring, |all| + Ended(stop), FlagHits(x.flags) + [LastHit(x.last)] + hits)
  {
    WholeRead(x, words + stop, optstring, |words| + Ended(stop), hits);
    Associative(Words(x), words, stop);
  }

  lemma RestStops(items: seq<Item>, stop: seq<string>, optstring: string)
    requires AllAllowed(items, optstring) && AllGroups(items) && MayStop(items, stop) && items != []
    ensures AllAllowed(items[1..], optstring) && AllGroups(items[1..]) && MayStop(items[1..], stop)
  {
    if items[1..] != [] { assert items[1..][|items| - 2] == items[|items| - 1]; }
  }

  // Behind a group that needs it, no option is read.
  lemma LastMayStop(items: seq<Item>, stop: seq<string>, optstring: string)
    requires AllAllowed(items, optstring) && AllGroups(items) && MayStop(items, stop) && items != []
    ensures MayFollow(items[0], Line(items[1..]) + stop)
  {
    if items[1..] == [] { assert Line(items[1..]) + stop == stop; } else { assert items[1].Group?; }
  }

  // Parsing it in memory.
  method ParseFront(args: array<string>, ghost items: seq<Item>, ghost stop: seq<string>, optstring: string)
      returns (hits: seq<Hit>, optind: nat)
    requires args.Length >= 1 && AllAllowed(items, optstring) && AllGroups(items) && MayStop(items, stop)
    requires args[1..] == Line(items) + stop
    modifies args
    ensures args[..] == old(args[..]) && hits == Meant(items)
    ensures optind == 1 + |Line(items)| + Ended(stop)
  {
    FrontParsed(items, stop, optstring);
    var options := new Options(args);
    options.permute := false;
    hits := ParseInOrder(options, optstring);
    optind := options.optind;
  }
}
