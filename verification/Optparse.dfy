/** optparse: getopt-style option parsing that moves the non-options behind the options, in place. */
module Optparse {
  import opened Wrappers
  import opened CString

  datatype ArgType = Undeclared | NoArg | Required | Optional

  // The first place of a character in a text, or the end.
  function Find(s: string, c: char): (k: nat)
    ensures k <= |s| && (k < |s| ==> s[k] == c) && c !in s[..k]
  {
    if s == "" || s[0] == c then 0
    else
      var k := Find(s[1..], c);
      assert s[..k + 1] == [s[0]] + s[1..][..k];
      k + 1
  }

  function TypeOf(optstring: string, c: char): ArgType {
    var k := Find(optstring, c);
    if c == ':' || k == |optstring| then Undeclared
    else if Peek(optstring, k + 1) != ':' then NoArg
    else if Peek(optstring, k + 2) != ':' then Required
    else Optional
  }

  // optparse_argtype
  method ArgTypeOf(optstring: string, c: char) returns (t: ArgType)
    ensures t == TypeOf(optstring, c)
  {
    if c == ':' { return Undeclared; }
    var i := 0;
    while i < |optstring| && c != optstring[i]
      invariant i <= |optstring| && Find(optstring, c) == i + Find(optstring[i..], c)
    {
      assert optstring[i..][1..] == optstring[i + 1..];
      i := i + 1;
    }
    if i == |optstring| { return Undeclared; }
    t := NoArg;
    if Peek(optstring, i + 1) == ':' { t := if Peek(optstring, i + 2) == ':' then Optional else Required; }
  }

  predicate IsDashDash(arg: string) {
    arg == "--"
  }

  predicate IsShort(arg: string) {
    |arg| > 1 && arg[0] == '-' && arg[1] != '-'
  }

  // What one call does: it returns a letter, '?' or the end; it skips j non-options and consumes m
  // arguments after them; and it leaves a place inside a group of letters.
  datatype Turn = Turn(ret: Option<char>, optopt: char, optarg: Option<string>, j: nat, m: nat, sub: nat)

  // The letter at a place in a group of letters.
  function Letter(option: string, next: Option<string>, sub: nat, optstring: string): Turn
    requires sub + 1 < |option|
  {
    var c, last := option[sub + 1], sub + 2 == |option|;
    match TypeOf(optstring, c)
    case Undeclared => Turn(Some('?'), c, None, 0, 1, sub)
    case NoArg => if last then Turn(Some(c), c, None, 0, 1, 0) else Turn(Some(c), c, None, 0, 0, sub + 1)
    case Required =>
      if !last then Turn(Some(c), c, Some(option[sub + 2..]), 0, 1, 0)
      else if next.Some? then Turn(Some(c), c, next, 0, 2, 0)
      else Turn(Some('?'), c, None, 0, 1, 0)
    case Optional => Turn(Some(c), c, if last then None else Some(option[sub + 2..]), 0, 1, 0)
  }

  function Next(rest: seq<string>): Option<string> {
    if |rest| > 1 then Some(rest[1]) else None
  }

  predicate IsSkipped(arg: string) {
    !IsDashDash(arg) && !IsShort(arg)
  }

  // The place inside a group is a place inside the next option that is read.
  predicate SubOk(rest: seq<string>, sub: nat, permute: bool := true) {
    if rest == [] then true
    else if IsSkipped(rest[0]) then permute ==> SubOk(rest[1..], sub)
    else IsShort(rest[0]) ==> sub + 1 < |rest[0]|
  }

  // One call of optparse on the arguments from optind on.
  function Parsed(rest: seq<string>, sub: nat, optstring: string, permute: bool): (t: Turn)
    requires SubOk(rest, sub, permute)
    ensures t.j + t.m <= |rest|
  {
    if rest == [] then Turn(None, '\0', None, 0, 0, sub)
    else if IsDashDash(rest[0]) then Turn(None, '\0', None, 0, 1, sub)
    else if !IsShort(rest[0]) then
      if permute then var t := Parsed(rest[1..], sub, optstring, permute); t.(j := t.j + 1)
      else Turn(None, '\0', None, 0, 0, sub)
    else Letter(rest[0], Next(rest), sub, optstring)
  }

  // The consumed arguments come before the skipped ones.
  function Moved(rest: seq<string>, j: nat, m: nat): (r: seq<string>)
    requires j + m <= |rest|
    ensures |r| == |rest|
  {
    rest[j..j + m] + rest[..j] + rest[j + m..]
  }

  // All arguments after a call at k.
  function Rearranged(all: seq<string>, k: nat, j: nat, m: nat): (r: seq<string>)
    requires k <= |all| && j + m <= |all| - k
    ensures |r| == |all|
  {
    all[..k] + Moved(all[k..], j, m)
  }

  class Options {
    const argv: array<string>
    var permute: bool
    var optind: nat
    var optopt: char
    var optarg: Option<string>
    var subopt: nat

    // optparse_init; the program's name is the first argument
    constructor (args: array<string>)
      requires args.Length >= 1
      ensures argv == args && permute && optind == 1 && subopt == 0 && optarg == None
    {
      argv, permute, optind, subopt, optopt, optarg := args, true, 1, 0, '\0', None;
    }

    ghost predicate Valid()
      reads this, argv
    {
      optind <= argv.Length && SubOk(argv[optind..], subopt, permute)
    }

    // optparse_permute
    method Permute(index: nat)
      requires index < optind <= argv.Length
      modifies argv
      ensures argv[..] == Permuted(old(argv[..]), index, optind)
    {
      var nonoption := argv[index];
      var i := index;
      while i < optind - 1
        invariant index <= i < optind
        invariant forall k :: 0 <= k < argv.Length ==>
          argv[k] == if index <= k < i then old(argv[k + 1]) else old(argv[k])
      {
        argv[i] := argv[i + 1];
        i := i + 1;
      }
      argv[optind - 1] := nonoption;
    }

    // optparse; the end is None
    method Optparse(optstring: string) returns (r: Option<char>)
      requires Valid()
      modifies this, argv
      ensures var t := Parsed(old(argv[optind..]), old(subopt), optstring, old(permute));
        r == t.ret && optopt == t.optopt && optarg == t.optarg && optind == old(optind) + t.m && subopt == t.sub
        && argv[..] == Rearranged(old(argv[..]), old(optind), t.j, t.m)
      ensures permute == old(permute)
      decreases argv.Length - optind, 1
    {
      Unmoved(argv[..], optind);
      optopt, optarg := '\0', None;
      if optind == argv.Length { return None; }
      var option := argv[optind];
      if IsDashDash(option) {
        optind := optind + 1;
        return None;
      }
      if !IsShort(option) {
        if permute { r := Skip(optstring); } else { r := None; }
        return;
      }
      r := Short(option, if optind + 1 < argv.Length then Some(argv[optind + 1]) else None, optstring);
    }

    // A non-option is skipped and moved behind what the recursive call consumes.
    method Skip(optstring: string) returns (r: Option<char>)
      requires Valid() && optind < argv.Length && IsSkipped(argv[optind]) && permute
      modifies this, argv
      ensures var t := Parsed(old(argv[optind + 1..]), old(subopt), optstring, true);
        r == t.ret && optopt == t.optopt && optarg == t.optarg && optind == old(optind) + t.m && subopt == t.sub
        && argv[..] == Rearranged(old(argv[..]), old(optind), t.j + 1, t.m)
      ensures permute
      decreases argv.Length - optind, 0
    {
      ghost var all, index0 := argv[..], optind;
      ghost var t := Parsed(all[index0 + 1..], subopt, optstring, true);
      var index := optind;
      optind := optind + 1;
      Tail(all, index0);
      r := Optparse(optstring);
      PermuteSkipped(index, all, t.j, t.m);
      optind := optind - 1;
    }

    // One more skipped argument is moved behind what was consumed.
    method PermuteSkipped(index: nat, ghost all: seq<string>, ghost j: nat, ghost m: nat)
      requires index < optind <= argv.Length && optind == index + 1 + m
      requires index < |all| && j + m <= |all| - index - 1 && argv[..] == Rearranged(all, index + 1, j, m)
      modifies argv
      ensures argv[..] == Rearranged(all, index, j + 1, m)
    {
      MovedStep(all, index, j, m, argv[..]);
      Permute(index);
    }

    // The option at optind.
    method Short(option: string, next: Option<string>, optstring: string) returns (r: Option<char>)
      requires Valid() && optind < argv.Length && option == argv[optind] && IsShort(option)
      requires next == Next(argv[optind..]) && optarg == None
      modifies this
      ensures var t := Letter(option, next, old(subopt), optstring);
        r == t.ret && optopt == t.optopt && optarg == t.optarg && optind == old(optind) + t.m && subopt == t.sub
      ensures permute == old(permute)
    {
      optopt := option[subopt + 1];
      var last := subopt + 2 == |option|;
      var type_ := ArgTypeOf(optstring, optopt);
      match type_
      case Undeclared =>
        optind := optind + 1;
        return Some('?');
      case NoArg =>
        if !last {
          subopt := subopt + 1;
        } else {
          subopt := 0;
          optind := optind + 1;
        }
        return Some(optopt);
      case Required =>
        var rest := option[subopt + 2..];
        subopt := 0;
        optind := optind + 1;
        if !last {
          optarg := Some(rest);
        } else if next.Some? {
          optarg := next;
          optind := optind + 1;
        } else {
          return Some('?');
        }
        return Some(optopt);
      case Optional =>
        optarg := if last then None else Some(option[subopt + 2..]);
        subopt := 0;
        optind := optind + 1;
        return Some(optopt);
    }
  }

  // Nothing is moved when nothing is skipped.
  lemma Unmoved(all: seq<string>, k: nat)
    requires k <= |all|
    ensures forall m :: 0 <= m <= |all| - k ==> all == Rearranged(all, k, 0, m)
  {
    forall m | 0 <= m <= |all| - k ensures all == Rearranged(all, k, 0, m) {
      assert all[k..] == all[k..][..m] + all[k..][m..];
      assert all[k..][..0] == [];
    }
  }

  // What optparse_permute does to the arguments.
  function Permuted(a: seq<string>, index: nat, end: nat): seq<string>
    requires index < end <= |a|
  {
    a[..index] + a[index + 1..end] + [a[index]] + a[end..]
  }

  lemma Tail(all: seq<string>, index: nat)
    requires index < |all|
    ensures all[index..][0] == all[index] && all[index..][1..] == all[index + 1..]
  {
  }

  // Moving one more skipped argument behind the consumed ones.
  lemma MovedStep(all: seq<string>, index: nat, j: nat, m: nat, a: seq<string>)
    requires index < |all| && j + m <= |all| - index - 1 && a == Rearranged(all, index + 1, j, m)
    ensures Permuted(a, index, index + 1 + m) == Rearranged(all, index, j + 1, m)
  {
    var rest := all[index..];
    assert rest[0] == all[index] && rest[1..] == all[index + 1..];
    assert rest[..j + 1] == [all[index]] + all[index + 1..][..j];
    assert rest[j + 1..j + 1 + m] == all[index + 1..][j..j + m];
    assert rest[j + 1 + m..] == all[index + 1..][j + m..];
  }
}
