/** optparse_from_long: long options give the option string that optparse_argtype reads back. */
module OptparseLong {
  import opened Sequences
  import opened CString
  import opened Optparse

  // An option of the long form; a shortname of NUL is none.
  datatype Long = Long(shortname: char, argtype: ArgType)

  function Colons(t: ArgType): (r: string)
    ensures |r| <= 2 && forall i :: 0 <= i < |r| ==> r[i] == ':'
  {
    match t
    case Required => ":"
    case Optional => "::"
    case _ => ""
  }

  function Entry(x: Long): string {
    if x.shortname != '\0' then [x.shortname] + Colons(x.argtype) else ""
  }

  function FromLong(longopts: seq<Long>): string {
    if longopts == [] then "" else Entry(longopts[0]) + FromLong(longopts[1..])
  }

  // optparse_from_long, into a buffer that the option string and its terminator fit.
  method FillOptstring(longopts: seq<Long>, optstring: array<char>)
    requires |FromLong(longopts)| < optstring.Length
    modifies optstring
    ensures var s := FromLong(longopts); optstring[..|s|] == s && optstring[|s|] == '\0'
  {
    var i, p := 0, 0;
    assert longopts[0..] == longopts && optstring[..0] == "";
    while i < |longopts|
      invariant 0 <= i <= |longopts| && 0 <= p && p + |FromLong(longopts[i..])| == |FromLong(longopts)|
      invariant optstring[..p] + FromLong(longopts[i..]) == FromLong(longopts)
    {
      assert longopts[i..][0] == longopts[i] && longopts[i..][1..] == longopts[i + 1..];
      Associative(optstring[..p], Entry(longopts[i]), FromLong(longopts[i + 1..]));
      if longopts[i].shortname != '\0' {
        p := PutEntry(longopts[i], optstring, p);
      } else {
        assert optstring[..p] + "" == optstring[..p];
      }
      i := i + 1;
    }
    assert optstring[..p] + "" == optstring[..p];
    optstring[p] := '\0';
  }

  // A short name and its colons.
  method PutEntry(x: Long, optstring: array<char>, p: nat) returns (q: nat)
    requires x.shortname != '\0' && p + |Entry(x)| <= optstring.Length
    modifies optstring
    ensures q == p + |Entry(x)| && optstring[..q] == old(optstring[..p]) + Entry(x)
  {
    optstring[p] := x.shortname;
    var colons, a := Colons(x.argtype), 0;
    while a < |colons|
      invariant a <= |colons| && optstring[..p + 1 + a] == old(optstring[..p]) + [x.shortname] + colons[..a]
    {
      optstring[p + 1 + a] := ':';
      a := a + 1;
    }
    q := p + 1 + |colons|;
    assert colons[..a] == colons;
    Associative(old(optstring[..p]), [x.shortname], colons);
  }

  // How many options have a short name.
  function ShortNames(longopts: seq<Long>): nat {
    if longopts == [] then 0 else (if longopts[0].shortname != '\0' then 1 else 0) + ShortNames(longopts[1..])
  }

  // A short name takes one to three bytes: the 289 bytes of the caller's buffer are enough for 96 of
  // them, one for each printable character.
  lemma {:induction false} FitsOptstring(longopts: seq<Long>)
    ensures ShortNames(longopts) <= |FromLong(longopts)| <= 3 * ShortNames(longopts)
    ensures ShortNames(longopts) <= 96 ==> |FromLong(longopts)| < 96 * 3 + 1
  {
    if longopts != [] { FitsOptstring(longopts[1..]); }
  }

  // The type of the first option with a short name.
  function Declared(longopts: seq<Long>, c: char): ArgType {
    if longopts == [] then Undeclared
    else if longopts[0].shortname == c then longopts[0].argtype
    else Declared(longopts[1..], c)
  }

  predicate Proper(longopts: seq<Long>) {
    forall i :: 0 <= i < |longopts| ==> longopts[i].shortname != ':' && longopts[i].argtype != Undeclared
  }

  // A text without the character is passed over.
  lemma {:induction false} FindSkips(p: string, s: string, c: char)
    requires c !in p
    ensures Find(p + s, c) == |p| + Find(s, c)
  {
    if p == "" {
      assert p + s == s;
    } else {
      assert (p + s)[1..] == p[1..] + s;
      FindSkips(p[1..], s, c);
    }
  }

  lemma TypeSkips(p: string, s: string, c: char)
    requires c !in p
    ensures TypeOf(p + s, c) == TypeOf(s, c)
  {
    FindSkips(p, s, c);
  }

  lemma {:induction false} StartsNoColon(longopts: seq<Long>)
    requires Proper(longopts)
    ensures Peek(FromLong(longopts)) != ':'
  {
    if longopts != [] {
      if longopts[0].shortname == '\0' { StartsNoColon(longopts[1..]); }
    }
  }

  // Every short option has its declared type in the option string, and no other letter is declared.
  lemma {:induction false} TypeFromLong(longopts: seq<Long>, c: char)
    requires Proper(longopts) && c != ':' && c != '\0'
    ensures TypeOf(FromLong(longopts), c) == Declared(longopts, c)
  {
    if longopts != [] {
      var x, rest := longopts[0], FromLong(longopts[1..]);
      TypeFromLong(longopts[1..], c);
      if x.shortname == '\0' {
        assert "" + rest == rest;
      } else if x.shortname == c {
        StartsNoColon(longopts[1..]);
        FirstType(c, x.argtype, rest);
      } else {
        TypeSkips([x.shortname] + Colons(x.argtype), rest, c);
      }
    }
  }

  lemma FirstType(c: char, t: ArgType, rest: string)
    requires c != ':' && t != Undeclared && Peek(rest) != ':'
    ensures TypeOf([c] + Colons(t) + rest, c) == t
  {
    var s := [c] + Colons(t) + rest;
    assert s[0] == c && Find(s, c) == 0;
  }
}
