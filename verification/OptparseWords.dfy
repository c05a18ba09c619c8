/** Command lines as their users mean them: groups of options with their arguments, wrong options,
    and operands in between. Parsing finds exactly those options and operands. */
module OptparseWords {
  import opened Sequences
  import opened Wrappers
  import opened Optparse
  import opened OptparseRun

  // What ends a group of flags: an option, with its argument in the same word or in the next; a
  // letter that is no option, with whatever follows it; or an option without the argument it needs.
  datatype Last = Found(letter: char, arg: Option<string>, attached: bool)
    | Invalid(letter: char, more: string)
    | Missing(letter: char)

  // A group of flags with its last letter, an operand, or "--" with all words behind it.
  datatype Item = Group(flags: string, last: Last) | Operand(word: string) | Dashes(after: seq<string>)

  // No dash in front, a dash alone, or two dashes and more.
  predicate IsOperand(word: string) {
    word == "" || word[0] != '-' || word == "-" || (word[1] == '-' && word != "--")
  }

  // What the option string allows: flags take no argument; one colon is an argument in the same word
  // or the next, two colons an argument in the same word or none.
  predicate Allowed(x: Item, optstring: string) {
    match x
    case Operand(word) => IsOperand(word)
    case Dashes(_) => true
    case Group(flags, last) =>
      && (forall i :: 0 <= i < |flags| ==> TypeOf(optstring, flags[i]) == NoArg)
      && (flags + [last.letter])[0] != '-' && LastAllowed(last, TypeOf(optstring, last.letter))
  }

  predicate LastAllowed(last: Last, type_: ArgType) {
    match last
    case Found(_, arg, attached) =>
      (match type_
       case Undeclared => false
       case NoArg => arg.None?
       case Required => arg.Some? && (attached ==> arg.value != "")
       case Optional => arg.Some? ==> attached && arg.value != "")
    case Invalid(_, _) => type_ == Undeclared
    case Missing(_) => type_ == Required
  }

  // What may follow: nothing behind "--" or a missing argument, and no option behind a letter that
  // is none and not the first one of its group.
  predicate MayPrecede(x: Item, items: seq<Item>) {
    match x
    case Operand(_) => true
    case Dashes(_) => items == []
    case Group(flags, last) =>
      && (last.Missing? ==> items == [])
      && (last.Invalid? && flags != "" ==> forall i :: 0 <= i < |items| ==> !items[i].Group?)
  }

  predicate AllAllowed(items: seq<Item>, optstring: string) {
    items == [] ||
    (Allowed(items[0], optstring) && MayPrecede(items[0], items[1..]) && AllAllowed(items[1..], optstring))
  }

  // The first word of a group.
  function Word(x: Item): string
    requires x.Group?
  {
    "-" + x.flags + [x.last.letter] + Attached(x.last)
  }

  function Attached(last: Last): string {
    match last
    case Found(_, arg, attached) => if arg.Some? && attached then arg.value else ""
    case Invalid(_, more) => more
    case Missing(_) => ""
  }

  // The words of an item.
  function Words(x: Item): seq<string> {
    match x
    case Operand(word) => [word]
    case Dashes(after) => ["--"] + after
    case Group(_, last) =>
      if last.Found? && last.arg.Some? && !last.attached then [Word(x), last.arg.value] else [Word(x)]
  }

  function Line(items: seq<Item>): seq<string> {
    if items == [] then [] else Words(items[0]) + Line(items[1..])
  }

  // The words of the options, the operands, and what is found.
  function OptionWords(items: seq<Item>): seq<string> {
    if items == [] then []
    else (match items[0]
          case Group(_, _) => Words(items[0])
          case Operand(_) => []
          case Dashes(_) => ["--"]) + OptionWords(items[1..])
  }

  function Operands(items: seq<Item>): seq<string> {
    if items == [] then []
    else (match items[0]
          case Group(_, _) => []
          case Operand(word) => [word]
          case Dashes(after) => after) + Operands(items[1..])
  }

  function FlagHits(flags: string): seq<Hit> {
    if flags == "" then [] else [Hit(flags[0], flags[0], None)] + FlagHits(flags[1..])
  }

  // A wrong option is reported by '?', with its letter as optopt and no argument.
  function LastHit(last: Last): Hit {
    match last
    case Found(letter, arg, _) => Hit(letter, letter, arg)
    case Invalid(letter, _) => Hit('?', letter, None)
    case Missing(letter) => Hit('?', letter, None)
  }

  function Meant(items: seq<Item>): seq<Hit> {
    if items == [] then []
    else (if items[0].Group? then FlagHits(items[0].flags) + [LastHit(items[0].last)] else []) + Meant(items[1..])
  }

  // ---------- letters of a group ----------

  lemma WordShape(x: Item, optstring: string, sub: nat)
    requires x.Group? && Allowed(x, optstring) && sub <= |x.flags|
    ensures IsShort(Word(x)) && sub + 1 < |Word(x)|
    ensures Word(x)[sub + 1] == if sub < |x.flags| then x.flags[sub] else x.last.letter
    ensures sub == |x.flags| ==>
      (sub + 2 == |Word(x)| <==> Attached(x.last) == "") && Word(x)[sub + 2..] == Attached(x.last)
  {
    var w := Word(x);
    assert w[1] == (x.flags + [x.last.letter])[0];
    assert sub < |x.flags| ==> w[sub + 1] == x.flags[sub];
  }

  // A flag is found.
  lemma FlagTurn(x: Item, next: Option<string>, optstring: string, sub: nat)
    requires x.Group? && Allowed(x, optstring) && sub < |x.flags|
    ensures IsShort(Word(x)) && sub + 2 < |Word(x)|
    ensures Letter(Word(x), next, sub, optstring) == Turn(Some(x.flags[sub]), x.flags[sub], None, 0, 0, sub + 1)
    ensures FlagHits(x.flags[sub..]) == [Hit(x.flags[sub], x.flags[sub], None)] + FlagHits(x.flags[sub + 1..])
  {
    WordShape(x, optstring, sub);
    WordShape(x, optstring, sub + 1);
    assert x.flags[sub..][1..] == x.flags[sub + 1..];
  }

  // So is the last letter, with all words of the group.
  lemma LastTurn(x: Item, more: seq<string>, optstring: string)
    requires x.Group? && Allowed(x, optstring) && (x.last.Missing? ==> more == [])
    ensures var line, h, sub := Words(x) + more, LastHit(x.last), |x.flags|;
      line[0] == Word(x) && IsShort(Word(x)) && sub + 1 < |Word(x)| && line[|Words(x)|..] == more &&
      Letter(Word(x), Next(line), sub, optstring) ==
        Turn(Some(h.ret), h.optopt, h.optarg, 0, |Words(x)|, if x.last.Invalid? then sub else 0)
  {
    WordShape(x, optstring, |x.flags|);
    var line := Words(x) + more;
    assert line[0] == Word(x) && line[|Words(x)|..] == more;
    assert |Words(x)| == 2 ==> Next(line) == x.last.arg;
    assert x.last.Missing? ==> Next(line) == None;
  }

  // ---------- groups ----------

  // What stands behind a group.
  predicate Goes(x: Item, more: seq<string>)
    requires x.Group?
  {
    (x.last.Missing? ==> more == []) && (x.last.Invalid? && x.flags != "" ==> NoShort(more))
  }

  // From a place in the group on: the remaining flags and the last letter are found.
  lemma {:induction false} GroupFound(x: Item, more: seq<string>, line: seq<string>, optstring: string, sub: nat)
    requires x.Group? && Allowed(x, optstring) && sub <= |x.flags| && line == Words(x) + more && Goes(x, more)
    requires SubOk(more, 0) && Clean(more, 0, optstring)
    ensures SubOk(line, sub) && Clean(line, sub, optstring)
    ensures var a := Arrange(more, 0, optstring);
      Arrange(line, sub, optstring) ==
        Arranged(Words(x) + a.opts, a.others, FlagHits(x.flags[sub..]) + [LastHit(x.last)] + a.hits)
    decreases |x.flags| - sub
  {
    var last, a := [LastHit(x.last)], Arrange(more, 0, optstring);
    if sub < |x.flags| {
      GroupFound(x, more, line, optstring, sub + 1);
      FlagFound(x, more, line, optstring, sub);
      Behind3([Hit(x.flags[sub], x.flags[sub], None)], FlagHits(x.flags[sub + 1..]), last, a.hits);
    } else {
      LastFound(x, more, line, optstring);
      NoFlags(x, last, a.hits);
    }
  }

  lemma NoFlags(x: Item, last: seq<Hit>, hits: seq<Hit>)
    requires x.Group?
    ensures FlagHits(x.flags[|x.flags|..]) + last + hits == last + hits
  {
    assert x.flags[|x.flags|..] == "" && [] + last == last;
  }

  lemma FlagFound(x: Item, more: seq<string>, line: seq<string>, optstring: string, sub: nat)
    requires x.Group? && Allowed(x, optstring) && sub < |x.flags| && line == Words(x) + more
    requires SubOk(line, sub + 1) && Clean(line, sub + 1, optstring)
    ensures SubOk(line, sub) && Clean(line, sub, optstring)
    ensures var a, c := Arrange(line, sub + 1, optstring), x.flags[sub];
      Arrange(line, sub, optstring) == Arranged(a.opts, a.others, [Hit(c, c, None)] + a.hits)
    ensures FlagHits(x.flags[sub..]) == [Hit(x.flags[sub], x.flags[sub], None)] + FlagHits(x.flags[sub + 1..])
  {
    assert line[0] == Word(x) && line[..0] == [];
    FlagTurn(x, Next(line), optstring, sub);
  }

  lemma LastFound(x: Item, more: seq<string>, line: seq<string>, optstring: string)
    requires x.Group? && Allowed(x, optstring) && SubOk(more, 0) && Clean(more, 0, optstring)
    requires line == Words(x) + more && Goes(x, more)
    ensures SubOk(line, |x.flags|) && Clean(line, |x.flags|, optstring)
    ensures var a := Arrange(more, 0, optstring);
      Arrange(line, |x.flags|, optstring) == Arranged(Words(x) + a.opts, a.others, [LastHit(x.last)] + a.hits)
  {
    LastTurn(x, more, optstring);
    assert line[..|Words(x)|] == Words(x);
  }

  // ---------- lines ----------

  lemma {:induction false} NoGroupsNoShort(items: seq<Item>, optstring: string)
    requires AllAllowed(items, optstring) && forall i :: 0 <= i < |items| ==> !items[i].Group?
    ensures NoShort(Line(items))
  {
    if items != [] {
      NoGroupsNoShort(items[1..], optstring);
      assert Line(items)[0] == Words(items[0])[0];
      if items[0].Operand? { assert Line(items)[1..] == Line(items[1..]); }
    }
  }

  // Behind "--" there are operands only.
  lemma DashesFound(after: seq<string>, line: seq<string>, optstring: string)
    requires line == ["--"] + after
    ensures SubOk(line, 0) && Clean(line, 0, optstring)
    ensures Arrange(line, 0, optstring) == Arranged(["--"], after, [])
  {
    assert line[0] == "--" && line[1..] == after;
  }

  // Parsing a command line gives the options that were meant with their arguments, and '?' with its
  // letter for each wrong one; it puts their words first in order, and leaves the operands in order.
  lemma {:induction false} LineParsed(items: seq<Item>, optstring: string)
    requires AllAllowed(items, optstring)
    ensures SubOk(Line(items), 0) && Clean(Line(items), 0, optstring)
    ensures Arrange(Line(items), 0, optstring) == Arranged(OptionWords(items), Operands(items), Meant(items))
  {
    if items != [] {
      LineParsed(items[1..], optstring);
      match items[0]
      case Group(_, _) => GroupParsed(items, optstring);
      case Operand(_) => OperandParsed(items, optstring);
      case Dashes(after) => DashesFound(after, Line(items), optstring);
    }
  }

  lemma GroupParsed(items: seq<Item>, optstring: string)
    requires AllAllowed(items, optstring) && items != [] && items[0].Group?
    requires SubOk(Line(items[1..]), 0) && Clean(Line(items[1..]), 0, optstring)
    requires Arrange(Line(items[1..]), 0, optstring) ==
      Arranged(OptionWords(items[1..]), Operands(items[1..]), Meant(items[1..]))
    ensures SubOk(Line(items), 0) && Clean(Line(items), 0, optstring)
    ensures Arrange(Line(items), 0, optstring) == Arranged(OptionWords(items), Operands(items), Meant(items))
  {
    var x, more := items[0], Line(items[1..]);
    if x.last.Invalid? && x.flags != "" { NoGroupsNoShort(items[1..], optstring); }
    GroupFound(x, more, Line(items), optstring, 0);
    assert x.flags[0..] == x.flags && [] + Operands(items[1..]) == Operands(items[1..]);
  }

  lemma OperandParsed(items: seq<Item>, optstring: string)
    requires AllAllowed(items, optstring) && items != [] && items[0].Operand?
    requires SubOk(Line(items[1..]), 0) && Clean(Line(items[1..]), 0, optstring)
    requires Arrange(Line(items[1..]), 0, optstring) ==
      Arranged(OptionWords(items[1..]), Operands(items[1..]), Meant(items[1..]))
    ensures SubOk(Line(items), 0) && Clean(Line(items), 0, optstring)
    ensures Arrange(Line(items), 0, optstring) == Arranged(OptionWords(items), Operands(items), Meant(items))
  {
    SkippedFirst(items[0].word, Line(items[1..]), 0, optstring);
    assert [] + OptionWords(items[1..]) == OptionWords(items[1..]) && [] + Meant(items[1..]) == Meant(items[1..]);
  }

  // Parsing it in memory.
  method ParseLine(args: array<string>, ghost items: seq<Item>, optstring: string) returns (hits: seq<Hit>, optind: nat)
    requires args.Length >= 1 && AllAllowed(items, optstring) && args[1..] == Line(items)
    modifies args
    ensures hits == Meant(items) && optind == 1 + |OptionWords(items)| <= args.Length
    ensures args[..] == [old(args[0])] + OptionWords(items) + Operands(items)
  {
    LineParsed(items, optstring);
    var options := new Options(args);
    hits := ParseAll(options, optstring);
    optind := options.optind;
    assert old(args[..1]) == [old(args[0])];
  }
}
