/** ezxml_decode at work: the text is rewritten in its buffer, which grows when a value does not fit. */
module EzxmlDecodeInPlace {
  import opened Sequences
  import opened CString
  import opened EzxmlEntities
  import opened EzxmlDecode
  import opened EzxmlUtf

  // Section 2.11 of XML 1.0: CR LF and CR become LF.
  function Normalize(s: string): (r: string)
    ensures '\r' !in r && |r| <= |s|
    ensures '\r' !in s ==> r == s
  {
    if s == "" then ""
    else if s[0] == '\r' then "\n" + Normalize(if Peek(s, 1) == '\n' then s[2..] else s[1..])
    else [s[0]] + Normalize(s[1..])
  }

  lemma Spliced(a: string, b: string, c: string)
    ensures a + b + c == a + (b + c) && (a + (b + c))[..|a|] == a && (a + (b + c))[|a|..] == b + c
  {
  }

  // The first loop, in place.
  method NormalizeInPlace(text: string) returns (buf: string)
    ensures buf == Normalize(text)
  {
    buf := text;
    var s := 0;
    assert buf[..0] == "" && buf[0..] == text;
    while s < |buf|
      invariant s <= |buf| && buf[..s] + Normalize(buf[s..]) == Normalize(text)
      decreases |buf| - s
    {
      if buf[s] == '\r' {
        ghost var before := buf;
        buf := buf[s := '\n'];
        s := s + 1;
        if s < |buf| && buf[s] == '\n' {
          buf := buf[..s] + buf[s + 1..];
          assert buf[s..] == before[s - 1..][2..];
        } else {
          assert buf[s..] == before[s - 1..][1..];
        }
        assert buf[..s] == before[..s - 1] + "\n";
        Associative(before[..s - 1], "\n", Normalize(buf[s..]));
      } else {
        s := s + 1;
        assert buf[..s] == buf[..s - 1] + [buf[s - 1]] && buf[s..] == buf[s - 1..][1..];
        Associative(buf[..s - 1], [buf[s - 1]], Normalize(buf[s..]));
      }
    }
    assert buf[..s] == buf && buf[s..] == "";
  }

  // The first semicolon from s on.
  method FindSemicolon(buf: string, s: nat) returns (e: nat)
    requires s <= |buf| && ';' in buf[s..]
    ensures s <= e < |buf| && buf[e] == ';'
    ensures forall i :: s <= i < e ==> buf[i] != ';'
  {
    e := s;
    ghost var k := IndexOf(buf[s..]);
    assert buf[s + k] == buf[s..][k];
    while buf[e] != ';'
      invariant s <= e <= s + k && (forall i :: s <= i < e ==> buf[i] != ';')
      decreases s + k - e
    {
      e := e + 1;
    }
  }

  ghost function IndexOf(p: string): (k: nat)
    requires ';' in p
    ensures k < |p| && p[k] == ';'
  {
    var k :| 0 <= k < |p| && p[k] == ';';
    k
  }

  lemma {:induction false} SemicolonAt(buf: string, s: nat, e: nat)
    requires s <= e < |buf| && buf[e] == ';' && forall i :: s <= i < e ==> buf[i] != ';'
    ensures AfterSemicolon(buf[s..]) == buf[e + 1..]
    decreases e - s
  {
    assert buf[s..][0] == buf[s] && buf[s..][1..] == buf[s + 1..];
    if s < e { SemicolonAt(buf, s + 1, e); }
  }

  // A character reference: its bytes are written over it, and the rest is moved up to them.
  method PutCharRef(buf: string, s: nat) returns (r: string, at: nat)
    requires s <= |buf| && IsCharRef(buf[s..])
    ensures var (c, e) := CharRef(buf[s..]);
      e != "" && r == buf[..s] + CharBytes(c) + e[1..] && at == s + |CharBytes(c)| && at <= |r| < |buf|
  {
    var (c, end) := CharRef(buf[s..]);
    CharRefStop(buf, s);
    r, at := Overwrite(buf, s, CharBytes(c), |buf| - |end|);
  }

  // Bytes are written from s on, and the text after the next semicolon is moved up to them.
  method Overwrite(buf: string, s: nat, bytes: string, ghost stop: nat) returns (r: string, at: nat)
    requires s + |bytes| <= stop < |buf| && buf[stop] == ';' && forall i :: s <= i < stop ==> buf[i] != ';'
    ensures r == buf[..s] + bytes + buf[stop + 1..] && at == s + |bytes|
  {
    at := s + |bytes|;
    r := buf[..s] + bytes + buf[at..];
    Overwritten(buf, s, bytes, stop);
    var e := FindSemicolon(r, at);
    r := r[..at] + r[e + 1..];
  }

  lemma CharRefStop(buf: string, s: nat)
    requires s <= |buf| && IsCharRef(buf[s..])
    ensures var (c, end) := CharRef(buf[s..]);
      var stop := |buf| - |end|;
      s + |CharBytes(c)| <= stop < |buf| && buf[stop] == ';' && end == buf[stop..] && end[1..] == buf[stop + 1..]
      && forall i :: s <= i < stop ==> buf[i] != ';'
  {
    var p, end := buf[s..], CharRef(buf[s..]).1;
    CharRefPasses(p);
    var stop := |buf| - |end|;
    assert end == p[|p| - |end|..] == buf[stop..];
    forall i | s <= i < stop ensures buf[i] != ';' { assert buf[i] == p[i - s]; }
    assert buf[stop] == end[0];
  }

  // Writing the bytes leaves what follows them in place.
  lemma Overwritten(buf: string, s: nat, bytes: string, stop: nat)
    requires s + |bytes| <= stop < |buf| && buf[stop] == ';'
    ensures var r := buf[..s] + bytes + buf[s + |bytes|..];
      |r| == |buf| && r[..s + |bytes|] == buf[..s] + bytes && r[s + |bytes|..] == buf[s + |bytes|..]
      && (forall i :: s + |bytes| <= i < |buf| ==> r[i] == buf[i]) && r[stop + 1..] == buf[stop + 1..]
      && ';' in r[s + |bytes|..]
  {
    var r := buf[..s] + bytes + buf[s + |bytes|..];
    assert forall i :: s + |bytes| <= i < |buf| ==> r[i] == buf[i];
    assert r[s + |bytes|..][stop - s - |bytes|] == ';';
  }

  // An entity reference at s is replaced by a value of the entity, in a buffer of `cap` bytes.
  method PutEntity(buf: string, s: nat, value: string, cap: nat) returns (r: string, room: nat)
    requires s < |buf| < cap && ';' in buf[s + 1..] && buf[s] != ';'
    ensures r == buf[..s] + value + AfterSemicolon(buf[s + 1..]) && |r| < room
  {
    assert buf[s..][1..] == buf[s + 1..];
    var e := FindSemicolon(buf, s);
    SemicolonAt(buf, s + 1, e);
    var c := |value|;
    room := cap;
    if c - 1 > e - s {
      var l := s + c + (|buf| - e);
      assert |buf| < l;
      room := l;
    }
    r := buf[..s] + value + buf[e + 1..];
  }

  lemma ExpandCharRef(s: string, ents: seq<Entity>, t: char, rank: seq<nat>)
    requires Expandable(ents, rank, Mark(t)) && t != 'c' && IsCharRef(s)
    ensures CharRef(s).1 != ""
    ensures Expand(s, ents, t, rank) == CharBytes(CharRef(s).0) + Expand(CharRef(s).1[1..], ents, t, rank)
    ensures Work(CharRef(s).1[1..], ents, rank, Mark(t)) < Work(s, ents, rank, Mark(t))
  {
    CharRefDrops(s, ents, rank, Mark(t));
  }

  lemma ExpandEntity(s: string, ents: seq<Entity>, t: char, rank: seq<nat>)
    requires Expandable(ents, rank, Mark(t))
    requires IsEntityMark(s, t) && !("&#" <= s) && Find(s[1..], ents) < |ents|
    ensures var next := ents[Find(s[1..], ents)].value + AfterSemicolon(s[1..]);
      Expand(s, ents, t, rank) == Expand(next, ents, t, rank) && Work(next, ents, rank, Mark(t)) < Work(s, ents, rank, Mark(t))
  {
    ExpandDrops(s, ents, rank, Mark(t));
  }

  // No reference at s.
  predicate IsPlain(s: string, ents: seq<Entity>, t: char) {
    s != "" && if t != 'c' && "&#" <= s then !IsCharRef(s) else !(IsEntityMark(s, t) && Find(s[1..], ents) < |ents|)
  }

  // What a character without a reference becomes.
  function Plain(s: string, t: char): char
    requires s != ""
  {
    if t == ' ' && IsSpace(s[0]) then ' ' else s[0]
  }

  lemma ExpandPlain(s: string, ents: seq<Entity>, t: char, rank: seq<nat>)
    requires Expandable(ents, rank, Mark(t)) && IsPlain(s, ents, t)
    ensures Expand(s, ents, t, rank) == [Plain(s, t)] + Expand(s[1..], ents, t, rank)
    ensures Work(s[1..], ents, rank, Mark(t)) < Work(s, ents, rank, Mark(t))
  {
    SuffixDrops(s, 1, ents, rank, Mark(t));
  }

  lemma NamedHasSemicolon(s: string, ents: seq<Entity>)
    requires WellNamedAll(ents) && Find(s, ents) < |ents|
    ensures ';' in s
  {
    var name := ents[Find(s, ents)].name;
    assert name[|name| - 1] == s[|name| - 1];
  }

  // One turn of the main loop. Every text written fits the buffer.
  method Step(buf: string, s: nat, cap: nat, ents: seq<Entity>, t: char, ghost rank: seq<nat>)
      returns (r: string, at: nat, room: nat)
    requires Expandable(ents, rank, Mark(t)) && s < |buf| < cap
    ensures at <= |r| < room && Continues(buf, s, r, at, ents, t, rank)
  {
    room := cap;
    if t != 'c' && "&#" <= buf[s..] {
      if IsCharRef(buf[s..]) {
        r, at := PutCharRef(buf, s);
        CharRefStep(buf, s, r, at, ents, t, rank);
        return;
      }
    } else if IsEntityMark(buf[s..], t) {
      assert buf[s..][1..] == buf[s + 1..];
      var b := Find(buf[s + 1..], ents);
      if b < |ents| {
        NamedHasSemicolon(buf[s + 1..], ents);
        r, room := PutEntity(buf, s, ents[b].value, cap);
        at := s;
        EntityStep(buf, s, r, ents, t, rank);
        return;
      }
    }
    r, at := buf[s := Plain(buf[s..], t)], s + 1;
    PlainStep(buf, s, r, ents, t, rank);
  }

  // A turn keeps what the text becomes, and leaves less to do.
  ghost predicate Continues(buf: string, s: nat, r: string, at: nat, ents: seq<Entity>, t: char, rank: seq<nat>)
    requires Expandable(ents, rank, Mark(t)) && s <= |buf| && at <= |r|
  {
    && r[..at] + Expand(r[at..], ents, t, rank) == buf[..s] + Expand(buf[s..], ents, t, rank)
    && Work(r[at..], ents, rank, Mark(t)) < Work(buf[s..], ents, rank, Mark(t))
  }

  lemma CharRefStep(buf: string, s: nat, r: string, at: nat, ents: seq<Entity>, t: char, rank: seq<nat>)
    requires Expandable(ents, rank, Mark(t)) && s <= |buf| && t != 'c' && IsCharRef(buf[s..])
    requires var (c, e) := CharRef(buf[s..]);
      e != "" && r == buf[..s] + CharBytes(c) + e[1..] && at == s + |CharBytes(c)|
    ensures Continues(buf, s, r, at, ents, t, rank)
  {
    var p := buf[s..];
    ExpandCharRef(p, ents, t, rank);
    var bytes := CharBytes(CharRef(p).0);
    assert r[..at] == buf[..s] + bytes && r[at..] == CharRef(p).1[1..];
    Associative(buf[..s], bytes, Expand(r[at..], ents, t, rank));
  }

  lemma EntityStep(buf: string, s: nat, r: string, ents: seq<Entity>, t: char, rank: seq<nat>)
    requires Expandable(ents, rank, Mark(t)) && s < |buf| && !("&#" <= buf[s..] && t != 'c')
    requires IsEntityMark(buf[s..], t) && Find(buf[s + 1..], ents) < |ents|
    requires r == buf[..s] + ents[Find(buf[s + 1..], ents)].value + AfterSemicolon(buf[s + 1..])
    ensures Continues(buf, s, r, s, ents, t, rank)
  {
    var p := buf[s..];
    assert p[1..] == buf[s + 1..];
    var next := ents[Find(p[1..], ents)].value + AfterSemicolon(p[1..]);
    Spliced(buf[..s], ents[Find(p[1..], ents)].value, AfterSemicolon(p[1..]));
    assert r == buf[..s] + next;
    assert r[..s] == buf[..s] && r[s..] == next;
    assert t != 'c';
    ExpandEntity(p, ents, t, rank);
  }

  lemma PlainStep(buf: string, s: nat, r: string, ents: seq<Entity>, t: char, rank: seq<nat>)
    requires Expandable(ents, rank, Mark(t)) && s < |buf| && IsPlain(buf[s..], ents, t)
    requires r == buf[s := Plain(buf[s..], t)]
    ensures Continues(buf, s, r, s + 1, ents, t, rank)
  {
    var p := buf[s..];
    ExpandPlain(p, ents, t, rank);
    assert r[s + 1..] == p[1..] && r[..s + 1] == buf[..s] + [Plain(p, t)];
    Associative(buf[..s], [Plain(p, t)], Expand(r[s + 1..], ents, t, rank));
  }

  // ezxml_decode, for every mode but '*': the result is the expansion of the normalized text.
  method Decode(text: string, ents: seq<Entity>, t: char, ghost rank: seq<nat>) returns (buf: string)
    requires Expandable(ents, rank, Mark(t)) && t != '*'
    ensures buf == Expand(Normalize(text), ents, t, rank)
  {
    buf := NormalizeInPlace(text);
    var s, cap := 0, |text| + 1;
    ghost var all := Expand(buf, ents, t, rank);
    assert buf[..0] == "" && buf[0..] == buf;
    while s < |buf|
      invariant 0 <= s <= |buf| < cap
      invariant buf[..s] + Expand(buf[s..], ents, t, rank) == all
      decreases Work(buf[s..], ents, rank, Mark(t))
    {
      buf, s, cap := Step(buf, s, cap, ents, t, rank);
    }
    assert buf[..s] == buf && buf[s..] == "";
  }
}
