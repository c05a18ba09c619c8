/** Calling optparse to the end: the arguments are partitioned, stably, and every option is found. */
module OptparseRun {
  import opened Sequences
  import opened Wrappers
  import opened Optparse

  datatype Hit = Hit(ret: char, optopt: char, optarg: Option<string>)

  // The arguments by what parsing makes of them: options with their arguments and the "--", then
  // the others, each in their order; and the options found.
  datatype Arranged = Arranged(opts: seq<string>, others: seq<string>, hits: seq<Hit>)

  lemma {:induction false} SubZero(rest: seq<string>, permute: bool := true)
    ensures SubOk(rest, 0, permute)
  {
    if rest != [] { SubZero(rest[1..], permute); }
  }

  function Left(rest: seq<string>, sub: nat, permute: bool := true): nat
    requires SubOk(rest, sub, permute)
  {
    if rest != [] && IsShort(rest[0]) then |rest[0]| - sub else 0
  }

  // No short option is left to be read.
  predicate NoShort(rest: seq<string>) {
    rest == [] || IsDashDash(rest[0]) || (!IsShort(rest[0]) && NoShort(rest[1..]))
  }

  // An undeclared letter leaves the place inside its group as it was: it must be the first one of
  // its group, or the group the last one.
  predicate Clean(rest: seq<string>, sub: nat, optstring: string)
    requires SubOk(rest, sub)
    decreases |rest|, Left(rest, sub)
  {
    if rest == [] || IsDashDash(rest[0]) then true
    else if !IsShort(rest[0]) then Clean(rest[1..], sub, optstring)
    else
      var t := Letter(rest[0], Next(rest), sub, optstring);
      if t.m == 0 then Clean(rest, t.sub, optstring)
      else
        SubZero(rest[t.m..]);
        (t.sub == 0 || NoShort(rest[t.m..])) && Clean(rest[t.m..], 0, optstring)
  }

  function Arrange(rest: seq<string>, sub: nat, optstring: string): Arranged
    requires SubOk(rest, sub) && Clean(rest, sub, optstring)
    decreases |rest|, Left(rest, sub)
  {
    if rest == [] then Arranged([], [], [])
    else if IsDashDash(rest[0]) then Arranged([rest[0]], rest[1..], [])
    else if !IsShort(rest[0]) then
      var a := Arrange(rest[1..], sub, optstring);
      a.(others := [rest[0]] + a.others)
    else
      var t := Letter(rest[0], Next(rest), sub, optstring);
      SubZero(rest[t.m..]);
      var a := if t.m == 0 then Arrange(rest, t.sub, optstring) else Arrange(rest[t.m..], 0, optstring);
      Arranged(rest[..t.m] + a.opts, a.others, [Hit(t.ret.value, t.optopt, t.optarg)] + a.hits)
  }

  // Without a short option, the place inside a group does not matter.
  lemma {:induction false} NoShortAny(rest: seq<string>, sub: nat, optstring: string)
    requires NoShort(rest)
    ensures SubOk(rest, sub) && Clean(rest, sub, optstring) && SubOk(rest, 0) && Clean(rest, 0, optstring)
    ensures Arrange(rest, sub, optstring) == Arrange(rest, 0, optstring)
  {
    if rest != [] && !IsDashDash(rest[0]) { NoShortAny(rest[1..], sub, optstring); }
  }

  // The arguments a call leaves for the next.
  function Remaining(rest: seq<string>, t: Turn): seq<string>
    requires t.j + t.m <= |rest|
  {
    rest[..t.j] + rest[t.j + t.m..]
  }

  ghost predicate StepOk(rest: seq<string>, sub: nat, optstring: string)
    requires SubOk(rest, sub) && Clean(rest, sub, optstring)
  {
    var t, a := Parsed(rest, sub, optstring, true), Arrange(rest, sub, optstring);
    var consumed, next := rest[t.j..t.j + t.m], Remaining(rest, t);
    if t.ret.None? then a == Arranged(consumed, next, [])
    else
      SubOk(next, t.sub) && Clean(next, t.sub, optstring) &&
      var b := Arrange(next, t.sub, optstring);
      a == Arranged(consumed + b.opts, b.others, [Hit(t.ret.value, t.optopt, t.optarg)] + b.hits)
  }

  // A call does the first step of the arrangement, whatever it skips.
  lemma {:induction false} CallStep(rest: seq<string>, sub: nat, optstring: string)
    requires SubOk(rest, sub) && Clean(rest, sub, optstring)
    ensures StepOk(rest, sub, optstring)
    decreases |rest|
  {
    var t := Parsed(rest, sub, optstring, true);
    var next := Remaining(rest, t);
    if rest == [] {
    } else if IsDashDash(rest[0]) {
      assert rest[0..1] == [rest[0]] && next == rest[1..];
    } else if !IsShort(rest[0]) {
      CallStep(rest[1..], sub, optstring);
      SkippedStep(rest, sub, optstring);
    } else {
      OptionStep(rest, sub, optstring);
    }
  }

  lemma OptionStep(rest: seq<string>, sub: nat, optstring: string)
    requires rest != [] && IsShort(rest[0]) && SubOk(rest, sub) && Clean(rest, sub, optstring)
    ensures StepOk(rest, sub, optstring)
  {
    var t := Letter(rest[0], Next(rest), sub, optstring);
    OptionLeads(rest, sub, optstring);
    assert Remaining(rest, t) == rest[t.m..];
  }

  // The arrangement of the arguments an option leaves.
  lemma OptionLeads(rest: seq<string>, sub: nat, optstring: string)
    requires rest != [] && IsShort(rest[0]) && SubOk(rest, sub) && Clean(rest, sub, optstring)
    ensures var t := Letter(rest[0], Next(rest), sub, optstring); var next := rest[t.m..];
      SubOk(next, t.sub) && Clean(next, t.sub, optstring) &&
      var b := Arrange(next, t.sub, optstring);
      Arrange(rest, sub, optstring) ==
        Arranged(rest[..t.m] + b.opts, b.others, [Hit(t.ret.value, t.optopt, t.optarg)] + b.hits)
  {
    var t := Letter(rest[0], Next(rest), sub, optstring);
    SubZero(rest[t.m..]);
    if t.m == 0 {
      assert rest[0..] == rest;
    } else if t.sub != 0 {
      NoShortAny(rest[t.m..], t.sub, optstring);
    }
  }

  lemma SkippedFirst(x: string, s: seq<string>, sub: nat, optstring: string)
    requires IsSkipped(x) && SubOk(s, sub) && Clean(s, sub, optstring)
    ensures SubOk([x] + s, sub) && Clean([x] + s, sub, optstring)
    ensures var a := Arrange(s, sub, optstring); Arrange([x] + s, sub, optstring) == a.(others := [x] + a.others)
  {
    assert ([x] + s)[0] == x && ([x] + s)[1..] == s;
  }

  // A call that skips one more argument.
  lemma SkippedTurn(rest: seq<string>, sub: nat, optstring: string)
    requires rest != [] && IsSkipped(rest[0]) && SubOk(rest, sub)
    ensures var t, u := Parsed(rest, sub, optstring, true), Parsed(rest[1..], sub, optstring, true);
      t == u.(j := u.j + 1) && Remaining(rest, t) == [rest[0]] + Remaining(rest[1..], u) &&
      rest[t.j..t.j + t.m] == rest[1..][u.j..u.j + u.m]
  {
    var u := Parsed(rest[1..], sub, optstring, true);
    SkippedParts(rest, u.j, u.m);
  }

  lemma SkippedStep(rest: seq<string>, sub: nat, optstring: string)
    requires rest != [] && IsSkipped(rest[0]) && SubOk(rest, sub) && Clean(rest, sub, optstring)
    requires StepOk(rest[1..], sub, optstring)
    ensures StepOk(rest, sub, optstring)
  {
    var u := Parsed(rest[1..], sub, optstring, true);
    SkippedTurn(rest, sub, optstring);
    if u.ret.Some? { SkippedFirst(rest[0], Remaining(rest[1..], u), u.sub, optstring); }
  }

  lemma SkippedParts(rest: seq<string>, j: nat, m: nat)
    requires rest != [] && j + m <= |rest[1..]|
    ensures rest[j + 1..j + 1 + m] == rest[1..][j..j + m]
    ensures rest[..j + 1] + rest[j + 1 + m..] == [rest[0]] + (rest[1..][..j] + rest[1..][j + m..])
  {
    var x, y := rest[j + 1..j + 1 + m], rest[1..][j..j + m];
    assert |x| == |y| && forall i :: 0 <= i < m ==> x[i] == y[i];
    assert rest[..j + 1] == [rest[0]] + rest[1..][..j];
  }

  lemma {:induction false} ArrangeKeeps(rest: seq<string>, sub: nat, optstring: string)
    requires SubOk(rest, sub) && Clean(rest, sub, optstring)
    ensures var a := Arrange(rest, sub, optstring); multiset(a.opts + a.others) == multiset(rest)
    decreases |rest|, Left(rest, sub)
  {
    if rest == [] {
    } else if IsDashDash(rest[0]) {
      assert rest == [rest[0]] + rest[1..];
    } else if !IsShort(rest[0]) {
      ArrangeKeeps(rest[1..], sub, optstring);
      var a := Arrange(rest[1..], sub, optstring);
      KeepsSkipped(rest, a.opts, a.others);
    } else {
      var t := Letter(rest[0], Next(rest), sub, optstring);
      SubZero(rest[t.m..]);
      if t.m == 0 {
        ArrangeKeeps(rest, t.sub, optstring);
        assert rest[..0] == [];
      } else {
        ArrangeKeeps(rest[t.m..], 0, optstring);
        var a := Arrange(rest[t.m..], 0, optstring);
        KeepsConsumed(rest, t.m, a.opts, a.others);
      }
    }
  }

  lemma KeepsSkipped(rest: seq<string>, o: seq<string>, n: seq<string>)
    requires rest != [] && multiset(o + n) == multiset(rest[1..])
    ensures multiset(o + ([rest[0]] + n)) == multiset(rest)
  {
    assert rest == [rest[0]] + rest[1..];
  }

  lemma KeepsConsumed(rest: seq<string>, m: nat, o: seq<string>, n: seq<string>)
    requires m <= |rest| && multiset(o + n) == multiset(rest[m..])
    ensures multiset(rest[..m] + o + n) == multiset(rest)
  {
    Associative(rest[..m], o, n);
    assert rest == rest[..m] + rest[m..];
  }

  // How a run ends: all arguments, the options found, and optind.
  datatype End = End(args: seq<string>, hits: seq<Hit>, optind: nat)

  predicate Able(all: seq<string>, k: nat, sub: nat, optstring: string) {
    k <= |all| && SubOk(all[k..], sub) && Clean(all[k..], sub, optstring)
  }

  // What is behind optind stays, and the rest is arranged.
  function EndOf(all: seq<string>, k: nat, sub: nat, optstring: string, hits: seq<Hit>): End
    requires Able(all, k, sub, optstring)
  {
    EndWith(all, k, Arrange(all[k..], sub, optstring), hits)
  }

  function EndWith(all: seq<string>, k: nat, a: Arranged, hits: seq<Hit>): End
    requires k <= |all|
  {
    End(all[..k] + a.opts + a.others, hits + a.hits, k + |a.opts|)
  }

  // A call that found nothing ends the run.
  lemma TurnEnds(all: seq<string>, k: nat, j: nat, m: nat, a: Arranged, hits: seq<Hit>)
    requires k <= |all| && j + m <= |all| - k && a == Arranged(all[k..][j..j + m], all[k..][..j] + all[k..][j + m..], [])
    ensures EndWith(all, k, a, hits) == End(Rearranged(all, k, j, m), hits, k + m)
  {
    MovedParts(all, k, j, m);
    assert hits + [] == hits;
  }

  // A call that found an option leads on to the same end.
  lemma TurnLeads(all: seq<string>, k: nat, j: nat, m: nat, a: Arranged, h: Hit, b: Arranged, hits: seq<Hit>)
    requires k <= |all| && j + m <= |all| - k
    requires a == Arranged(all[k..][j..j + m] + b.opts, b.others, [h] + b.hits)
    ensures EndWith(Rearranged(all, k, j, m), k + m, b, hits + [h]) == EndWith(all, k, a, hits)
  {
    MovedParts(all, k, j, m);
    Associative(all[..k], all[k..][j..j + m], b.opts);
    Associative(hits, [h], b.hits);
  }

  // A run that is on its way to `end`.
  ghost predicate Heads(all: seq<string>, k: nat, sub: nat, optstring: string, hits: seq<Hit>, end: End) {
    k <= |all| && Leads(all, k, all[k..], sub, optstring, hits, end)
  }

  ghost predicate Leads(all: seq<string>, k: nat, rest: seq<string>, sub: nat, optstring: string, hits: seq<Hit>, end: End)
    requires k <= |all|
  {
    && SubOk(rest, sub) && Clean(rest, sub, optstring)
    && EndWith(all, k, Arrange(rest, sub, optstring), hits) == end && |hits| <= |end.hits|
  }

  // One call, on the arguments alone.
  lemma TurnOn(all: seq<string>, k: nat, sub: nat, optstring: string, hits: seq<Hit>, end: End, t: Turn, all1: seq<string>)
    requires Heads(all, k, sub, optstring, hits, end) && t == Parsed(all[k..], sub, optstring, true)
    requires all1 == Rearranged(all, k, t.j, t.m)
    ensures t.ret.None? ==> end == End(all1, hits, k + t.m)
    ensures t.ret.Some? ==>
      Heads(all1, k + t.m, t.sub, optstring, hits + [Hit(t.ret.value, t.optopt, t.optarg)], end)
  {
    CallStep(all[k..], sub, optstring);
    var a := Arrange(all[k..], sub, optstring);
    if t.ret.None? {
      TurnEnds(all, k, t.j, t.m, a, hits);
    } else {
      var next := Remaining(all[k..], t);
      MovedParts(all, k, t.j, t.m);
      assert all1[k + t.m..] == next;
      TurnLeads(all, k, t.j, t.m, a, Hit(t.ret.value, t.optopt, t.optarg), Arrange(next, t.sub, optstring), hits);
    }
  }

  lemma MovedParts(all: seq<string>, k: nat, j: nat, m: nat)
    requires k <= |all| && j + m <= |all| - k
    ensures var rest := all[k..];
      var all1 := all[..k] + Moved(rest, j, m);
      all1[k + m..] == rest[..j] + rest[j + m..] && all1[..k + m] == all[..k] + rest[j..j + m]
      && all1 == all[..k] + rest[j..j + m] + (rest[..j] + rest[j + m..])
  {
  }

  // Calling optparse until it returns -1.
  method ParseAll(options: Options, optstring: string) returns (hits: seq<Hit>)
    requires options.Valid() && options.permute
    requires Clean(options.argv[options.optind..], options.subopt, optstring)
    modifies options, options.argv
    ensures var a := Arrange(old(options.argv[options.optind..]), old(options.subopt), optstring);
      options.argv[..] == old(options.argv[..options.optind]) + a.opts + a.others
      && options.optind == old(options.optind) + |a.opts| && hits == a.hits
  {
    assert options.argv[..][options.optind..] == options.argv[options.optind..];
    ghost var end := EndOf(options.argv[..], options.optind, options.subopt, optstring, []);
    hits := [];
    while true
      invariant options.permute && Heads(options.argv[..], options.optind, options.subopt, optstring, hits, end)
      decreases |end.hits| - |hits|
    {
      var r := Call(options, optstring, hits, end);
      if r.None? { break; }
      hits := hits + [Hit(r.value, options.optopt, options.optarg)];
    }
  }

  // One call on the way.
  method Call(options: Options, optstring: string, ghost hits: seq<Hit>, ghost end: End) returns (r: Option<char>)
    requires options.permute && Heads(options.argv[..], options.optind, options.subopt, optstring, hits, end)
    modifies options, options.argv
    ensures options.permute
    ensures r.None? ==> End(options.argv[..], hits, options.optind) == end
    ensures r.Some? ==> var hits1 := hits + [Hit(r.value, options.optopt, options.optarg)];
      Heads(options.argv[..], options.optind, options.subopt, optstring, hits1, end)
  {
    ghost var all, k, sub := options.argv[..], options.optind, options.subopt;
    assert all[k..] == options.argv[k..];
    ghost var t := Parsed(all[k..], sub, optstring, true);
    r := options.Optparse(optstring);
    TurnOn(all, k, sub, optstring, hits, end, t, options.argv[..]);
  }

  // ---------- where the run goes astray ----------

  // What is left of the option that is read next.
  function FirstLeft(rest: seq<string>, sub: nat): nat
    requires SubOk(rest, sub)
  {
    if rest == [] || IsDashDash(rest[0]) then 0
    else if IsShort(rest[0]) then |rest[0]| - sub
    else FirstLeft(rest[1..], sub)
  }

  // The call after this one would start a short option past its first letter.
  predicate Astray(rest: seq<string>, t: Turn)
    requires t.j + t.m <= |rest|
  {
    t.m > 0 && t.sub != 0 && !NoShort(Remaining(rest, t))
  }

  lemma SkippedShape(x: string, s: seq<string>, sub: nat)
    requires IsSkipped(x)
    ensures SubOk([x] + s, sub) == SubOk(s, sub) && NoShort([x] + s) == NoShort(s)
    ensures SubOk(s, sub) ==> FirstLeft([x] + s, sub) == FirstLeft(s, sub)
  {
    assert ([x] + s)[1..] == s;
  }

  // What a call leaves, if the next one does not go astray.
  lemma {:induction false} CallLeaves(rest: seq<string>, sub: nat, optstring: string)
    requires SubOk(rest, sub)
    ensures var t := Parsed(rest, sub, optstring, true); var next := Remaining(rest, t);
      t.ret.Some? && !Astray(rest, t) ==>
        SubOk(next, t.sub) && (|next| < |rest| || (next == rest && FirstLeft(next, t.sub) < FirstLeft(rest, sub)))
  {
    var t := Parsed(rest, sub, optstring, true);
    var next := Remaining(rest, t);
    if rest == [] || IsDashDash(rest[0]) {
    } else if IsShort(rest[0]) {
      assert next == rest[t.m..];
      SubZero(next);
      if t.sub != 0 && NoShort(next) { NoShortAny(next, t.sub, optstring); }
    } else {
      CallLeaves(rest[1..], sub, optstring);
      SkippedTurn(rest, sub, optstring);
      var u := Parsed(rest[1..], sub, optstring, true);
      SkippedShape(rest[0], Remaining(rest[1..], u), u.sub);
    }
  }

  // Every call of the run starts the options it comes to at their first letters.
  predicate Straight(rest: seq<string>, sub: nat, optstring: string)
    requires SubOk(rest, sub)
    decreases |rest|, FirstLeft(rest, sub)
  {
    var t := Parsed(rest, sub, optstring, true);
    CallLeaves(rest, sub, optstring);
    t.ret.None? || (!Astray(rest, t) && Straight(Remaining(rest, t), t.sub, optstring))
  }

  lemma {:induction false} StraightSkips(x: string, s: seq<string>, sub: nat, optstring: string)
    requires IsSkipped(x) && SubOk(s, sub)
    ensures SubOk([x] + s, sub) && Straight([x] + s, sub, optstring) == Straight(s, sub, optstring)
    decreases |s|, FirstLeft(s, sub)
  {
    var all, t := [x] + s, Parsed(s, sub, optstring, true);
    assert all[1..] == s;
    SkippedShape(x, s, sub);
    SkippedTurn(all, sub, optstring);
    SkippedShape(x, Remaining(s, t), t.sub);
    CallLeaves(s, sub, optstring);
    if t.ret.Some? && !Astray(s, t) { StraightSkips(x, Remaining(s, t), t.sub, optstring); }
  }

  lemma OptionTurn(rest: seq<string>, sub: nat, optstring: string)
    requires rest != [] && IsShort(rest[0]) && SubOk(rest, sub)
    ensures var t := Letter(rest[0], Next(rest), sub, optstring);
      Parsed(rest, sub, optstring, true) == t && t.ret.Some? && Remaining(rest, t) == rest[t.m..]
      && (Astray(rest, t) <==> t.m > 0 && t.sub != 0 && !NoShort(rest[t.m..]))
  {
    var t := Letter(rest[0], Next(rest), sub, optstring);
    assert Remaining(rest, t) == rest[t.m..];
  }

  // The call for an option at the front.
  lemma StraightOption(rest: seq<string>, sub: nat, optstring: string)
    requires rest != [] && IsShort(rest[0]) && SubOk(rest, sub)
    ensures var t := Letter(rest[0], Next(rest), sub, optstring); var next := rest[t.m..];
      Straight(rest, sub, optstring) <==>
        !Astray(rest, t) && SubOk(next, t.sub) && Straight(next, t.sub, optstring)
  {
    OptionTurn(rest, sub, optstring);
    CallLeaves(rest, sub, optstring);
  }

  // A run goes straight if and only if no undeclared letter past the first one of its group has a
  // short option behind it: a look at the arguments as they are given.
  lemma {:induction false} StraightIffClean(rest: seq<string>, sub: nat, optstring: string)
    requires SubOk(rest, sub)
    ensures Straight(rest, sub, optstring) <==> Clean(rest, sub, optstring)
    decreases |rest|, Left(rest, sub)
  {
    if rest == [] || IsDashDash(rest[0]) {
    } else if !IsShort(rest[0]) {
      StraightIffClean(rest[1..], sub, optstring);
      StraightSkips(rest[0], rest[1..], sub, optstring);
      assert [rest[0]] + rest[1..] == rest;
    } else {
      var t := Letter(rest[0], Next(rest), sub, optstring);
      StraightOption(rest, sub, optstring);
      OptionTurn(rest, sub, optstring);
      SubZero(rest[t.m..]);
      if t.m == 0 {
        assert rest[0..] == rest;
        StraightIffClean(rest, t.sub, optstring);
      } else if t.sub == 0 {
        StraightIffClean(rest[t.m..], 0, optstring);
      } else if NoShort(rest[t.m..]) {
        NoShortAny(rest[t.m..], t.sub, optstring);
        NoShortStraight(rest[t.m..], t.sub, optstring);
      }
    }
  }

  lemma {:induction false} NoShortStraight(rest: seq<string>, sub: nat, optstring: string)
    requires NoShort(rest) && SubOk(rest, sub)
    ensures Straight(rest, sub, optstring)
  {
    if rest != [] && !IsDashDash(rest[0]) {
      NoShortStraight(rest[1..], sub, optstring);
      StraightSkips(rest[0], rest[1..], sub, optstring);
      assert [rest[0]] + rest[1..] == rest;
    }
  }

  // An undeclared letter inside a group spoils the run if an option follows, and only then: the
  // option is read from a place past its first letter, or past its end.
  lemma UndeclaredInGroup()
    ensures var t := Parsed(["-az", "-b"], 1, "ab", true);
      t.ret == Some('?') && t.m == 1 && t.sub == 1 && !SubOk(["-az", "-b"][t.m..], t.sub)
    ensures var t := Parsed(["-bc"], 1, "ab", true); t.optopt == 'c'
    ensures !Clean(["-az", "-b"], 0, "ab") && Clean(["-az", "b"], 0, "ab")
  {
    assert ["-az", "-b"][1..] == ["-b"] && ["-az", "b"][1..] == ["b"] && ["b"][1..] == [];
    assert Find("ab", 'z') == 2 by { assert 'z' !in "ab"; }
  }
}
