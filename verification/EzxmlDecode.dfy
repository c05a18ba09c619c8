/** ezxml_decode: references are expanded in place and the expansion is scanned again. */
module EzxmlDecode {
  import opened CString
  import opened EzxmlEntities
  import Utf8
  import opened EzxmlUtf

  // isspace in the C locale
  predicate IsSpace(c: char) {
    c == ' ' || c == '\t' || c == '\n' || c == 11 as char || c == 12 as char || c == '\r'
  }

  // ---------- strtol ----------

  function DigitValue(c: char): int {
    if '0' <= c <= '9' then c as int - '0' as int
    else if 'A' <= c <= 'F' then 10 + c as int - 'A' as int
    else if 'a' <= c <= 'f' then 10 + c as int - 'a' as int
    else 99
  }

  function SkipSpaces(p: string): (r: string)
    ensures |r| <= |p|
  {
    if p != "" && IsSpace(p[0]) then SkipSpaces(p[1..]) else p
  }

  function ReadDigits(p: string, base: int, n: nat): (r: (nat, string))
    requires base > 0
    ensures |r.1| <= |p|
  {
    if p != "" && DigitValue(p[0]) < base then ReadDigits(p[1..], base, n * base + DigitValue(p[0])) else (n, p)
  }

  // strtol: blanks, a sign, 0x for base 16, digits; the value saturates at the ends of long.
  // Without digits it is 0 and the end is the start.
  function StrToL(p: string, base: int): (r: (int, string))
    requires base == 10 || base == 16
    ensures -LONG_MAX - 1 <= r.0 <= LONG_MAX
  {
    (Number(p, base), NumberEnd(p, base))
  }

  function Number(p: string, base: int): int
    requires base == 10 || base == 16
  {
    var (n, _) := ReadDigits(NumberStart(p, base), base, 0);
    if Peek(SkipSpaces(p)) == '-' then (if n > LONG_MAX then -LONG_MAX - 1 else 0 - n)
    else if n > LONG_MAX then LONG_MAX else n
  }

  function NumberStart(p: string, base: int): (r: string)
    ensures |r| <= |p|
  {
    SkipPrefix(SkipSign(SkipSpaces(p)), base)
  }

  function NumberEnd(p: string, base: int): (r: string)
    requires base > 0
    ensures |r| <= |p|
  {
    if DigitValue(Peek(NumberStart(p, base))) < base then ReadDigits(NumberStart(p, base), base, 0).1 else p
  }

  function SkipSign(p: string): (r: string)
    ensures |r| <= |p|
  {
    if Peek(p) == '-' || Peek(p) == '+' then Advance(p, 1) else p
  }

  function SkipPrefix(p: string, base: int): (r: string)
    ensures |r| <= |p|
  {
    if base == 16 && Peek(p) == '0' && (Peek(p, 1) == 'x' || Peek(p, 1) == 'X') && DigitValue(Peek(p, 2)) < 16
    then Advance(p, 2) else p
  }

  // ---------- character references ----------

  // A reference at "&#": its value and what follows the number.
  function CharRef(s: string): (r: (int, string))
    ensures -LONG_MAX - 1 <= r.0 <= LONG_MAX
  {
    if Peek(s, 2) == 'x' then StrToL(Advance(s, 3), 16) else StrToL(Advance(s, 2), 10)
  }

  // ---------- expansion ----------

  // No reference of a value is cut off at its end: no mark is followed by only the start of a name.
  ghost predicate Complete(v: string, ents: seq<Entity>, m: char := '&') {
    v == "" ||
    (Complete(v[1..], ents, m) &&
     (v[0] == m ==> forall i :: 0 <= i < |ents| ==> !(v[1..] < ents[i].name)))
  }

  // The tables that expansion ends on: acyclic, well named, and with complete references in values.
  ghost predicate Expandable(ents: seq<Entity>, rank: seq<nat>, m: char := '&') {
    && Ranked(ents, rank, m) && WellNamedAll(ents)
    && forall i :: 0 <= i < |ents| ==> Complete(ents[i].value, ents, m)
  }

  // What is left to do: one for every character, and for every reference the work its value brings.
  ghost function Weight(s: string, ents: seq<Entity>, rank: seq<nat>, n: nat, m: char): nat
    requires Ranked(ents, rank, m) && RefsBelow(s, ents, rank, n, m)
    decreases n, |s|
  {
    if s == "" then 0
    else
      var j := Find(s[1..], ents);
      1 + Weight(s[1..], ents, rank, n, m) +
      if s[0] == m && j < |ents| then 1 + Weight(ents[j].value, ents, rank, rank[j], m) else 0
  }

  lemma {:induction false} WeightBound(s: string, ents: seq<Entity>, rank: seq<nat>, n: nat, n': nat, m: char)
    requires Ranked(ents, rank, m) && RefsBelow(s, ents, rank, n, m) && RefsBelow(s, ents, rank, n', m)
    ensures Weight(s, ents, rank, n, m) == Weight(s, ents, rank, n', m)
  {
    if s != "" { WeightBound(s[1..], ents, rank, n, n', m); }
  }

  // The weight of any text, as all ranks are below the top.
  ghost function Work(s: string, ents: seq<Entity>, rank: seq<nat>, m: char): nat
    requires Ranked(ents, rank, m)
  {
    RefsBelowTop(s, ents, rank, m);
    Weight(s, ents, rank, Top(rank), m)
  }

  lemma WorkStep(s: string, ents: seq<Entity>, rank: seq<nat>, m: char)
    requires Ranked(ents, rank, m) && s != ""
    ensures Work(s, ents, rank, m) == 1 + Work(s[1..], ents, rank, m) +
      if s[0] == m && Find(s[1..], ents) < |ents| then 1 + Work(ents[Find(s[1..], ents)].value, ents, rank, m) else 0
  {
    RefsBelowTop(s, ents, rank, m);
    RefsBelowTop(s[1..], ents, rank, m);
    var j := Find(s[1..], ents);
    if j < |ents| {
      RefsBelowTop(ents[j].value, ents, rank, m);
      WeightBound(ents[j].value, ents, rank, rank[j], Top(rank), m);
    }
  }

  // What a complete reference goes to does not depend on what follows the value.
  lemma FindStable(s: string, rest: string, ents: seq<Entity>)
    requires forall i :: 0 <= i < |ents| ==> !(s < ents[i].name)
    ensures Find(s + rest, ents) == Find(s, ents)
  {
    forall i | 0 <= i < |ents| ensures ents[i].name <= s + rest <==> ents[i].name <= s {
      PrefixOf(ents[i].name, s, rest);
    }
  }

  lemma PrefixOf(name: string, s: string, rest: string)
    requires !(s < name)
    ensures name <= s + rest <==> name <= s
  {
  }

  lemma {:induction false} WorkAppend(v: string, rest: string, ents: seq<Entity>, rank: seq<nat>, m: char)
    requires Ranked(ents, rank, m) && Complete(v, ents, m)
    ensures Work(v + rest, ents, rank, m) == Work(v, ents, rank, m) + Work(rest, ents, rank, m)
  {
    if v == "" {
      assert v + rest == rest;
    } else {
      WorkStep(v, ents, rank, m);
      WorkStep(v + rest, ents, rank, m);
      assert (v + rest)[1..] == v[1..] + rest;
      WorkAppend(v[1..], rest, ents, rank, m);
      if v[0] == m { FindStable(v[1..], rest, ents); }
    }
  }

  lemma {:induction false} WorkSuffix(s: string, k: nat, ents: seq<Entity>, rank: seq<nat>, m: char)
    requires Ranked(ents, rank, m) && k <= |s|
    ensures Work(s[k..], ents, rank, m) <= Work(s, ents, rank, m)
  {
    if k > 0 {
      WorkStep(s, ents, rank, m);
      WorkSuffix(s[1..], k - 1, ents, rank, m);
      assert s[1..][k - 1..] == s[k..];
    } else {
      assert s[0..] == s;
    }
  }

  // The text after the first semicolon.
  function AfterSemicolon(s: string): (r: string)
    ensures |r| <= |s| && r == s[|s| - |r|..]
    ensures s != "" ==> |r| < |s|
  {
    if s == "" then "" else if s[0] == ';' then s[1..] else AfterSemicolon(s[1..])
  }

  // Replacing a reference by the entity's value leaves less work.
  lemma ExpandDrops(s: string, ents: seq<Entity>, rank: seq<nat>, m: char)
    requires Expandable(ents, rank, m) && s != "" && s[0] == m && Find(s[1..], ents) < |ents|
    ensures Work(ents[Find(s[1..], ents)].value + AfterSemicolon(s[1..]), ents, rank, m) < Work(s, ents, rank, m)
  {
    var v, after := ents[Find(s[1..], ents)].value, AfterSemicolon(s[1..]);
    WorkStep(s, ents, rank, m);
    WorkAppend(v, after, ents, rank, m);
    WorkSuffix(s[1..], |s[1..]| - |after|, ents, rank, m);
  }

  lemma SuffixDrops(s: string, k: nat, ents: seq<Entity>, rank: seq<nat>, m: char)
    requires Ranked(ents, rank, m) && 0 < k <= |s|
    ensures Work(s[k..], ents, rank, m) < Work(s, ents, rank, m)
  {
    WorkStep(s, ents, rank, m);
    WorkSuffix(s[1..], k - 1, ents, rank, m);
    assert s[1..][k - 1..] == s[k..];
  }

  // A well-formed character reference at `s`.
  predicate IsCharRef(s: string) {
    "&#" <= s && CharRef(s).0 != 0 && Peek(CharRef(s).1) == ';'
  }

  // An entity reference is looked up at `s`.
  predicate IsEntityMark(s: string, t: char) {
    (Peek(s) == '&' && (t == '&' || t == ' ')) || (Peek(s) == '%' && t == '%')
  }

  // What marks the entity references of a mode.
  function Mark(t: char): char {
    if t == '%' then '%' else '&'
  }

  // The main loop of ezxml_decode: what becomes of the text from `s` on.
  ghost function Expand(s: string, ents: seq<Entity>, t: char, rank: seq<nat>): string
    requires Expandable(ents, rank, Mark(t))
    decreases Work(s, ents, rank, Mark(t))
  {
    if s == "" then ""
    else
      SuffixDrops(s, 1, ents, rank, Mark(t));
      if t != 'c' && "&#" <= s then
        if IsCharRef(s) then
          CharRefDrops(s, ents, rank, Mark(t));
          CharBytes(CharRef(s).0) + Expand(CharRef(s).1[1..], ents, t, rank)
        else [s[0]] + Expand(s[1..], ents, t, rank)
      else if IsEntityMark(s, t) && Find(s[1..], ents) < |ents| then
        ExpandDrops(s, ents, rank, Mark(t));
        Expand(ents[Find(s[1..], ents)].value + AfterSemicolon(s[1..]), ents, t, rank)
      else if t == ' ' && IsSpace(s[0]) then " " + Expand(s[1..], ents, t, rank)
      else [s[0]] + Expand(s[1..], ents, t, rank)
  }

  lemma CharRefDrops(s: string, ents: seq<Entity>, rank: seq<nat>, m: char)
    requires Ranked(ents, rank, m) && IsCharRef(s)
    ensures CharRef(s).1 != "" && |CharRef(s).1| < |s|
    ensures Work(CharRef(s).1[1..], ents, rank, m) < Work(s, ents, rank, m)
  {
    CharRefPasses(s);
    EndDrops(s, CharRef(s).1, ents, rank, m);
  }

  lemma EndDrops(s: string, e: string, ents: seq<Entity>, rank: seq<nat>, m: char)
    requires Ranked(ents, rank, m) && Passes(s, e) && e != "" && |e| < |s|
    ensures Work(e[1..], ents, rank, m) < Work(s, ents, rank, m)
  {
    SuffixDrops(s, |s| - |e| + 1, ents, rank, m);
    assert e[1..] == s[|s| - |e|..][1..] == s[|s| - |e| + 1..];
  }

  // `r` is a place in the text `p`, with no semicolon before it.
  ghost predicate Passes(p: string, r: string) {
    |r| <= |p| && r == p[|p| - |r|..] && forall i :: 0 <= i < |p| - |r| ==> p[i] != ';'
  }

  lemma PassesTwice(p: string, q: string, r: string)
    requires Passes(p, q) && Passes(q, r)
    ensures Passes(p, r)
  {
    forall i | 0 <= i < |p| - |r| ensures p[i] != ';' {
      if i >= |p| - |q| { assert p[i] == q[i - (|p| - |q|)]; }
    }
    assert r == p[|p| - |q|..][|q| - |r|..];
  }

  lemma PassesNone(p: string)
    ensures Passes(p, p)
  {
  }

  lemma PassesOne(p: string)
    requires p != "" && p[0] != ';'
    ensures Passes(p, p[1..])
  {
  }

  lemma {:induction false} SpacesPass(p: string)
    ensures Passes(p, SkipSpaces(p))
  {
    if p != "" && IsSpace(p[0]) {
      SpacesPass(p[1..]);
      PassesOne(p);
      PassesTwice(p, p[1..], SkipSpaces(p));
    }
  }

  function Power16(k: nat): (p: nat)
    ensures p > 0
  {
    if k == 0 then 1 else 16 * Power16(k - 1)
  }

  lemma MulMono(a: nat, b: nat, c: nat)
    requires a <= b
    ensures a * c <= b * c
  {
  }

  lemma {:induction false} DigitsPass(p: string, base: int, n: nat)
    requires base == 10 || base == 16
    ensures Passes(p, ReadDigits(p, base, n).1)
  {
    if p != "" && DigitValue(p[0]) < base {
      var m := n * base + DigitValue(p[0]);
      DigitsPass(p[1..], base, m);
      PassesOne(p);
      PassesTwice(p, p[1..], ReadDigits(p[1..], base, m).1);
    }
  }

  // A number of k digits after n: its value is below (n + 1) * 16^k.
  lemma {:induction false} DigitsBound(p: string, base: int, n: nat)
    requires base == 10 || base == 16
    ensures var (v, rest) := ReadDigits(p, base, n); v < (n + 1) * Power16(|p| - |rest|)
  {
    if p != "" && DigitValue(p[0]) < base {
      var m := n * base + DigitValue(p[0]);
      DigitsBound(p[1..], base, m);
      DigitBound(n, base, DigitValue(p[0]), Power16(|p[1..]| - |ReadDigits(p[1..], base, m).1|));
    }
  }

  lemma DigitBound(n: nat, base: int, d: int, power: nat)
    requires (base == 10 || base == 16) && 0 <= d < base
    ensures (n * base + d + 1) * power <= (n + 1) * (16 * power)
  {
    assert n * base + d + 1 <= (n + 1) * 16;
    MulMono(n * base + d + 1, (n + 1) * 16, power);
    assert (n + 1) * 16 * power == (n + 1) * (16 * power);
  }

  lemma SignPasses(p: string)
    ensures Passes(p, SkipSign(p))
  {
    if p != "" && (p[0] == '-' || p[0] == '+') { PassesOne(p); } else { PassesNone(p); }
  }

  lemma PrefixPasses(p: string, base: int)
    ensures Passes(p, SkipPrefix(p, base))
  {
    if SkipPrefix(p, base) == p {
      PassesNone(p);
    } else {
      PassesOne(p);
      PassesOne(p[1..]);
      assert p[1..][1..] == p[2..];
      PassesTwice(p, p[1..], p[2..]);
    }
  }

  lemma StartPasses(p: string, base: int)
    ensures Passes(p, NumberStart(p, base))
  {
    var q := SkipSpaces(p);
    var d := SkipSign(q);
    SpacesPass(p);
    SignPasses(q);
    PrefixPasses(d, base);
    PassesTwice(p, q, d);
    PassesTwice(p, d, NumberStart(p, base));
  }

  lemma NumberPasses(p: string, base: int)
    requires base == 10 || base == 16
    ensures Passes(p, NumberEnd(p, base))
  {
    var start := NumberStart(p, base);
    StartPasses(p, base);
    DigitsPass(start, base, 0);
    PassesTwice(p, start, ReadDigits(start, base, 0).1);
    PassesNone(p);
  }

  lemma NumberBound(p: string, base: int)
    requires base == 10 || base == 16
    ensures Number(p, base) > 0 ==> Number(p, base) < Power16(|p| - |NumberEnd(p, base)|)
  {
    var start := NumberStart(p, base);
    assert |start| <= |p|;
    DigitsBound(start, base, 0);
    var (v, end) := ReadDigits(start, base, 0);
    NumberIsDigits(p, base);
    Power16Grows(|start| - |end|, |p| - |end|);
  }

  lemma NumberIsDigits(p: string, base: int)
    requires base == 10 || base == 16
    ensures Number(p, base) <= ReadDigits(NumberStart(p, base), base, 0).0
    ensures Number(p, base) > 0 ==> NumberEnd(p, base) == ReadDigits(NumberStart(p, base), base, 0).1
  {
  }

  lemma {:induction false} Power16Grows(j: nat, k: nat)
    requires j <= k
    ensures Power16(j) <= Power16(k)
  {
    if j < k { Power16Grows(j, k - 1); }
  }

  // The end of a reference's number is a place in the text before the first semicolon, and the
  // bytes it stands for are no more than the characters up to there.
  lemma CharRefPasses(s: string)
    requires "&#" <= s
    ensures Passes(s, CharRef(s).1) && |CharRef(s).1| < |s|
    ensures CharRef(s).0 != 0 ==> |CharBytes(CharRef(s).0)| <= |s| - |CharRef(s).1|
  {
    var hex := Peek(s, 2) == 'x';
    var p, base := if hex then s[3..] else s[2..], if hex then 16 else 10;
    HashPasses(s);
    NumberPasses(p, base);
    NumberBound(p, base);
    PassesTwice(s, p, NumberEnd(p, base));
    BytesFit(Number(p, base), |p| - |NumberEnd(p, base)|);
  }

  lemma HashPasses(s: string)
    requires "&#" <= s
    ensures Passes(s, s[2..]) && (Peek(s, 2) == 'x' ==> Passes(s, s[3..]))
  {
    assert s[0] == '&' && s[1] == '#';
  }

  lemma BytesFit(c: int, k: nat)
    requires -LONG_MAX - 1 <= c <= LONG_MAX && (c > 0 ==> c < Power16(k))
    ensures |CharBytes(c)| <= k + 1
  {
    if c >= 0x80 {
      BitsBounds(c);
      SequenceLength(c as bv32, (Bits(c) - 2) / 5);
      Powers16();
      if k < 5 { Power16Grows(k, 4); }
      if k < 3 { Power16Grows(k, 2); }
      if k < 2 { Power16Grows(k, 1); }
    }
  }

  lemma Powers16()
    ensures Power16(1) == 0x10 && Power16(2) == 0x100 && Power16(4) == 0x10000
  {
    assert Power16(3) == 16 * Power16(2);
  }

  // The text after an entity reference at its start has been replaced.
  ghost function Replaced(s: string, ents: seq<Entity>): string
    requires s != "" && Find(s[1..], ents) < |ents|
  {
    ents[Find(s[1..], ents)].value + AfterSemicolon(s[1..])
  }

  lemma {:induction false} PlainText(name: string, s: string, ents: seq<Entity>, rank: seq<nat>, n: nat)
    requires '&' !in s && |rank| == |ents|
    ensures RefsBelow(s, ents, rank, n)
    ensures Ranked(ents, rank) ==> EntOk(name, s, ents, rank, n)
  {
    if s != "" { PlainText(name, s[1..], ents, rank, n); }
  }

  // A text with one reference, at its start.
  lemma OneReference(name: string, s: string, ents: seq<Entity>, rank: seq<nat>, n: nat)
    requires s != "" && s[0] == '&' && '&' !in s[1..] && |rank| == |ents|
    ensures RefsBelow(s, ents, rank, n) <==> (Find(s[1..], ents) < |ents| ==> rank[Find(s[1..], ents)] < n)
    ensures Ranked(ents, rank) && RefsBelow(s, ents, rank, n) && !(name <= s[1..]) && Find(s[1..], ents) == |ents| ==>
      EntOk(name, s, ents, rank, n)
  {
    PlainText(name, s[1..], ents, rank, n);
  }
}
