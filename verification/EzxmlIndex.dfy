/** The three lists that index the subtags of a tag: `ordered` links all of them in document order,
    `next` those of one name, and `sibling` leads from the first one of a name to those of other names. */
module EzxmlIndex {

  // The first place from `from` on that holds the name, or the end.
  function Search(names: seq<string>, name: string, from: nat): (j: nat)
    requires from <= |names|
    ensures from <= j <= |names| && (j < |names| ==> names[j] == name)
    ensures forall i :: from <= i < j ==> names[i] != name
    decreases |names| - from
  {
    if from == |names| || names[from] == name then from else Search(names, name, from + 1)
  }

  predicate IsFirst(names: seq<string>, i: nat)
    requires i < |names|
  {
    Search(names, names[i], 0) == i
  }

  // The first place from `from` on that is on the sibling list, or the end.
  function NextSeen(seen: seq<bool>, from: nat): (j: nat)
    requires from <= |seen|
    ensures from <= j <= |seen| && (j < |seen| ==> seen[j])
    ensures forall i :: from <= i < j ==> !seen[i]
    decreases |seen| - from
  {
    if from == |seen| || seen[from] then from else NextSeen(seen, from + 1)
  }

  // How many of the offsets are not after `o`; they are the first ones.
  function Place(offs: seq<nat>, o: nat): (p: nat)
    ensures p <= |offs| && (forall i :: 0 <= i < p ==> offs[i] <= o) && (p < |offs| ==> offs[p] > o)
  {
    if offs == [] || offs[0] > o then 0 else 1 + Place(offs[1..], o)
  }

  // `x` put before the p-th element.
  function Put<T>(s: seq<T>, p: nat, x: T): (r: seq<T>)
    requires p <= |s|
    ensures |r| == |s| + 1
    ensures forall i {:trigger r[i]} :: 0 <= i < |r| ==> r[i] == if i < p then s[i] else if i == p then x else s[i - 1]
  {
    s[..p] + [x] + s[p..]
  }

  lemma SearchPut(names: seq<string>, p: nat, last: string, name: string, from: nat)
    requires p <= |names| && from <= |names|
    ensures var j := Search(names, name, from);
      from <= p ==> Search(Put(names, p, last), name, from) == if j < p then j else if name == last then p else j + 1
    ensures from >= p ==> Search(Put(names, p, last), name, from + 1) == Search(names, name, from) + 1
  {
    var all := Put(names, p, last);
    assert forall i :: 0 <= i < p ==> all[i] == names[i];
    assert forall i :: p <= i < |names| ==> names[i] == all[i + 1];
    assert all[p] == last;
  }

  lemma NextSeenPut(seen: seq<bool>, p: nat, b: bool, from: nat)
    requires p <= |seen| && from <= |seen|
    ensures var j := NextSeen(seen, from);
      from <= p ==> NextSeen(Put(seen, p, b), from) == if j < p then j else if b then p else j + 1
    ensures from >= p ==> NextSeen(Put(seen, p, b), from + 1) == NextSeen(seen, from) + 1
  {
    var all := Put(seen, p, b);
    assert forall i :: 0 <= i < p ==> all[i] == seen[i];
    assert forall i :: p <= i < |seen| ==> seen[i] == all[i + 1];
    assert all[p] == b;
  }

  // The sibling list leads past the first one of every name.
  predicate SeesFirsts(names: seq<string>, seen: seq<bool>) {
    |seen| == |names| && forall i :: 0 <= i < |names| && IsFirst(names, i) ==> seen[i]
  }

  // It leads past nothing else.
  predicate SeesOnlyFirsts(names: seq<string>, seen: seq<bool>) {
    |seen| == |names| && forall i :: 0 <= i < |names| && seen[i] ==> IsFirst(names, i)
  }

  // The sibling list without the first one of a name, which only the place after the head can lose.
  function Unlinked(seen: seq<bool>, c: nat): (r: seq<bool>)
    ensures |r| == |seen|
  {
    if 0 < c < |seen| then seen[c := false] else seen
  }

  // The sibling list once a tag of this name is put at `p`.
  function SeenAfter(names: seq<string>, seen: seq<bool>, p: nat, name: string): (r: seq<bool>)
    requires p <= |names| == |seen|
  {
    var c := Search(names, name, 0);
    if c < p then Put(seen, p, false) else Put(Unlinked(seen, c), p, true)
  }

  lemma FirstPut(names: seq<string>, p: nat, name: string, i: nat)
    requires p <= |names| && i < |names|
    ensures i < p ==> IsFirst(Put(names, p, name), i) == IsFirst(names, i)
    ensures i >= p ==> IsFirst(Put(names, p, name), i + 1) == (IsFirst(names, i) && names[i] != name)
    ensures IsFirst(Put(names, p, name), p) == (Search(names, name, 0) >= p)
  {
    SearchPut(names, p, name, names[i], 0);
    SearchPut(names, p, name, name, 0);
    var all := Put(names, p, name);
    assert i < p ==> all[i] == names[i];
    assert i >= p ==> all[i + 1] == names[i];
  }

  lemma SeenAfterSees(names: seq<string>, seen: seq<bool>, p: nat, name: string)
    requires p <= |names| && SeesFirsts(names, seen)
    ensures SeesFirsts(Put(names, p, name), SeenAfter(names, seen, p, name))
  {
    var all, r, c := Put(names, p, name), SeenAfter(names, seen, p, name), Search(names, name, 0);
    forall i | 0 <= i < |all| && IsFirst(all, i) ensures r[i] {
      if i < p { FirstPut(names, p, name, i); } else if i > p { FirstPut(names, p, name, i - 1); } else { SearchPut(names, p, name, name, 0); }
    }
  }

  // Putting a tag before the first one, of the same name, is what leaves a second one of that name
  // on the sibling list; nothing else does.
  lemma OnlyFirstsIff(names: seq<string>, seen: seq<bool>, p: nat, name: string)
    requires p <= |names| && SeesFirsts(names, seen) && SeesOnlyFirsts(names, seen)
    ensures SeesOnlyFirsts(Put(names, p, name), SeenAfter(names, seen, p, name)) <==>
      !(p == 0 && names != [] && names[0] == name)
  {
    var all, r, c := Put(names, p, name), SeenAfter(names, seen, p, name), Search(names, name, 0);
    if p == 0 && names != [] && names[0] == name {
      FirstPut(names, p, name, 0);
      assert r[1] == seen[0] && IsFirst(names, 0);
    } else {
      forall i | 0 <= i < |all| && r[i] ensures IsFirst(all, i) {
        if i < p { FirstPut(names, p, name, i); } else if i > p { FirstPut(names, p, name, i - 1); } else { SearchPut(names, p, name, name, 0); }
      }
    }
  }

  function NodeAt(kids: seq<Xml>, i: nat): Xml? {
    if i < |kids| then kids[i] else null
  }

  lemma NodeAtPut(kids: seq<Xml>, p: nat, xml: Xml, i: nat)
    requires p <= |kids|
    ensures NodeAt(Put(kids, p, xml), i) == if i < p then NodeAt(kids, i) else if i == p then xml else NodeAt(kids, i - 1)
  {
  }

  ghost predicate Distinct(kids: seq<Xml>) {
    forall i, j :: 0 <= i < j < |kids| ==> kids[i] != kids[j]
  }

  ghost predicate OrderLinks(kids: seq<Xml>)
    reads kids`ordered
  {
    forall i {:trigger kids[i].ordered} :: 0 <= i < |kids| ==> kids[i].ordered == NodeAt(kids, i + 1)
  }

  ghost predicate Offsets(kids: seq<Xml>, offs: seq<nat>)
    reads kids`off
  {
    |offs| == |kids| && forall i {:trigger kids[i].off} :: 0 <= i < |kids| ==> kids[i].off == offs[i]
  }

  ghost predicate Ascending(offs: seq<nat>) {
    forall i, j :: 0 <= i < j < |offs| ==> offs[i] <= offs[j]
  }

  // The first p subtags are those with an offset not after `o`.
  ghost predicate Splits(kids: seq<Xml>, o: nat, p: nat)
    reads kids`off
  {
    p <= |kids| && forall i {:trigger kids[i].off} :: 0 <= i < |kids| ==> (kids[i].off <= o <==> i < p)
  }

  ghost predicate Named(kids: seq<Xml>, names: seq<string>)
    reads kids`name
  {
    |names| == |kids| && forall i {:trigger kids[i].name} :: 0 <= i < |kids| ==> kids[i].name == names[i]
  }

  // `next` goes to the next subtag of the same name.
  ghost predicate NextLinks(kids: seq<Xml>, names: seq<string>)
    reads kids`next
  {
    |names| == |kids| &&
    forall i {:trigger kids[i].next} :: 0 <= i < |kids| ==> kids[i].next == NodeAt(kids, Search(names, names[i], i + 1))
  }

  // From a subtag on the sibling list, `sibling` goes to the next one on it.
  ghost predicate SiblingLinks(kids: seq<Xml>, seen: seq<bool>)
    reads kids`sibling
  {
    |seen| == |kids| &&
    forall i {:trigger kids[i].sibling} :: 0 <= i < |kids| && seen[i] ==> kids[i].sibling == NodeAt(kids, NextSeen(seen, i + 1))
  }

  ghost predicate ByName(kids: seq<Xml>, names: seq<string>, seen: seq<bool>)
    reads kids`name, kids`next, kids`sibling
  {
    Named(kids, names) && NextLinks(kids, names) && SiblingLinks(kids, seen) && SeesFirsts(names, seen)
  }

  class Xml {
    var name: string
    var off: nat
    var parent: Xml?
    var child: Xml?
    var ordered: Xml?
    var next: Xml?
    var sibling: Xml?
    ghost var kids: seq<Xml>      // the subtags in document order
    ghost var names: seq<string>
    ghost var offs: seq<nat>
    ghost var seen: seq<bool>     // which of them are on the sibling list

    constructor (name_: string)
      ensures name == name_ && Indexed() && kids == [] && SeesOnlyFirsts(names, seen)
    {
      name, off, parent, child, ordered, next, sibling := name_, 0, null, null, null, null, null;
      kids, names, offs, seen := [], [], [], [];
    }

    // The subtags, distinct and in document order.
    ghost predicate Linked()
      reads this`child, this`kids, this`offs, kids`ordered, kids`off
    {
      && this !in kids && Distinct(kids) && child == NodeAt(kids, 0) && OrderLinks(kids)
      && Offsets(kids, offs) && Ascending(offs)
    }

    // Linked, with the lists by name.
    ghost predicate Indexed()
      reads this`child, this`kids, this`names, this`offs, this`seen
      reads kids`name, kids`off, kids`ordered, kids`next, kids`sibling
    {
      Linked() && ByName(kids, names, seen)
    }

    // ezxml_insert
    method Insert(xml: Xml, o: nat)
      requires Indexed() && xml != this && xml !in kids
      modifies this`child, this`kids, this`names, this`offs, this`seen, kids`ordered, kids`next, kids`sibling
      modifies xml`ordered, xml`next, xml`sibling, xml`off, xml`parent
      ensures Indexed() && xml.off == o && xml.parent == this
      ensures var p := Place(old(offs), o);
        kids == Put(old(kids), p, xml) && names == Put(old(names), p, xml.name) && offs == Put(old(offs), p, o) &&
        seen == SeenAfter(old(names), old(seen), p, xml.name)
    {
      xml.next, xml.sibling, xml.ordered := null, null, null;
      xml.off := o;
      xml.parent := this;
      ghost var p := Place(offs, o);
      Places(kids, offs, xml, p);
      Link(xml, p);
      Adopt(xml, p);
    }

    ghost method Adopt(xml: Xml, p: nat)
      requires xml != this && this !in kids && Distinct(kids) && Offsets(kids, offs) && Ascending(offs)
      requires xml !in kids && p == Place(offs, xml.off) && |names| == |kids| == |seen|
      requires child == NodeAt(Put(kids, p, xml), 0) && OrderLinks(Put(kids, p, xml))
      requires ByName(Put(kids, p, xml), Put(names, p, xml.name), SeenAfter(names, seen, p, xml.name))
      modifies this`kids, this`names, this`offs, this`seen
      ensures Indexed()
      ensures kids == Put(old(kids), p, xml) && names == Put(old(names), p, xml.name) && offs == Put(old(offs), p, xml.off)
      ensures seen == SeenAfter(old(names), old(seen), p, xml.name)
    {
      Placed(kids, offs, xml, p);
      kids, names, offs, seen :=
        Put(kids, p, xml), Put(names, p, xml.name), Put(offs, p, xml.off), SeenAfter(names, seen, p, xml.name);
    }

    // The three lists take the new subtag.
    method Link(xml: Xml, ghost p: nat)
      requires Indexed() && xml != this && xml !in kids && Splits(kids, xml.off, p)
      requires xml.next == null && xml.sibling == null && xml.ordered == null
      modifies this`child, kids`ordered, kids`next, kids`sibling, xml`ordered, xml`next, xml`sibling
      ensures child == NodeAt(Put(kids, p, xml), 0) && OrderLinks(Put(kids, p, xml))
      ensures ByName(Put(kids, p, xml), Put(names, p, xml.name), SeenAfter(names, seen, p, xml.name))
    {
      var head := child;
      if head != null {
        Order(xml, p);
        Sort(head, xml, p, kids, names, seen);
      } else {
        child := xml;
      }
      NamedPut(kids, names, xml, p);
      SeenAfterSees(names, seen, p, xml.name);
    }

    // The list in document order.
    method Order(xml: Xml, ghost p: nat)
      requires Linked() && kids != [] && xml !in kids && Splits(kids, xml.off, p)
      requires xml.ordered == null && xml != this
      modifies this`child, kids`ordered, xml`ordered
      ensures OrderLinks(Put(kids, p, xml)) && child == NodeAt(Put(kids, p, xml), 0)
    {
      var head := child;
      if head.off <= xml.off {
        var cur := head;
        ghost var i := 0;
        while cur.ordered != null && cur.ordered.off <= xml.off
          invariant i < p && cur == kids[i]
          decreases |kids| - i
        {
          cur := cur.ordered;
          i := i + 1;
        }
        assert i + 1 == p;
        xml.ordered := cur.ordered;
        cur.ordered := xml;
      } else {
        xml.ordered := head;
        child := xml;
      }
    }

    // ezxml_child
    method Child(name: string) returns (r: Xml?)
      requires Indexed()
      ensures r == NodeAt(kids, Search(names, name, 0))
    {
      ghost var p;
      if child == null {
        r := null;
      } else {
        var prev;
        r, prev, p := FindType(child, name, kids, names, seen);
      }
    }

    // ezxml_add_child
    method AddChild(name: string, o: nat) returns (xml: Xml)
      requires Indexed()
      modifies this`child, this`kids, this`names, this`offs, this`seen, kids`ordered, kids`next, kids`sibling
      ensures Indexed() && fresh(xml) && xml.off == o && xml.parent == this && xml.name == name && xml.kids == []
      ensures var p := Place(old(offs), o);
        kids == Put(old(kids), p, xml) && names == Put(old(names), p, name) && offs == Put(old(offs), p, o) &&
        seen == SeenAfter(old(names), old(seen), p, name)
    {
      xml := new Xml(name);
      Insert(xml, o);
    }
  }

  lemma NamedPut(kids: seq<Xml>, names: seq<string>, xml: Xml, p: nat)
    requires Named(kids, names) && p <= |kids|
    ensures Named(Put(kids, p, xml), Put(names, p, xml.name))
  {
  }

  lemma Places(kids: seq<Xml>, offs: seq<nat>, xml: Xml, p: nat)
    requires Ascending(offs) && Offsets(kids, offs) && p == Place(offs, xml.off)
    ensures Splits(kids, xml.off, p)
  {
  }

  // The subtags stay distinct and in order.
  lemma Placed(kids: seq<Xml>, offs: seq<nat>, xml: Xml, p: nat)
    requires Distinct(kids) && Ascending(offs) && Offsets(kids, offs) && xml !in kids && p == Place(offs, xml.off)
    ensures Distinct(Put(kids, p, xml))
    ensures Ascending(Put(offs, p, xml.off)) && Offsets(Put(kids, p, xml), Put(offs, p, xml.off))
  {
  }

  // The first subtag of the name, and the one before it on the sibling list.
  method FindType(head: Xml, name: string, ghost kids: seq<Xml>, ghost names: seq<string>, ghost seen: seq<bool>)
      returns (cur: Xml?, prev: Xml?, ghost p: nat)
    requires kids != [] && head == kids[0] && ByName(kids, names, seen)
    ensures cur == NodeAt(kids, Search(names, name, 0))
    ensures prev == null <==> Search(names, name, 0) == 0
    ensures prev != null ==> p < Search(names, name, 0) && prev == kids[p] && seen[p] && NextSeen(seen, p + 1) == Search(names, name, 0)
  {
    cur, prev, p := head, null, 0;
    ghost var i, c := 0, Search(names, name, 0);
    while cur != null && cur.name != name
      invariant 0 <= i <= c && cur == NodeAt(kids, i) && (i < |kids| ==> seen[i])
      invariant prev == null <==> i == 0
      invariant prev != null ==> p < i && prev == kids[p] && seen[p] && NextSeen(seen, p + 1) == i
      decreases |kids| - i
    {
      NotPast(names, seen, name, i);
      prev, p := cur, i;
      cur, i := cur.sibling, NextSeen(seen, i + 1);
    }
  }

  // The sibling list does not pass the first subtag of a name.
  lemma NotPast(names: seq<string>, seen: seq<bool>, name: string, i: nat)
    requires SeesFirsts(names, seen) && i < |names| && i <= Search(names, name, 0) && names[i] != name
    ensures NextSeen(seen, i + 1) <= Search(names, name, 0)
  {
    FirstIsFirst(names, name);
  }

  lemma FirstIsFirst(names: seq<string>, name: string)
    ensures var c := Search(names, name, 0); c < |names| ==> IsFirst(names, c)
  {
  }

  // The last subtag of the name before the p-th one.
  method LastOfType(first: Xml, o: nat, ghost p: nat, ghost kids: seq<Xml>, ghost names: seq<string>, ghost c: nat)
      returns (cur: Xml, ghost i: nat)
    requires c < p && Splits(kids, o, p) && NextLinks(kids, names) && first == kids[c]
    ensures i < p && cur == kids[i] && names[i] == names[c] && Search(names, names[c], i + 1) >= p
  {
    cur, i := first, c;
    while cur.next != null && cur.next.off <= o
      invariant i < p && cur == kids[i] && names[i] == names[c]
      decreases |kids| - i
    {
      i := Search(names, names[c], i + 1);
      cur := cur.next;
    }
  }

  // The last subtag on the sibling list before the p-th one, and the one after that.
  method LastSibling(head: Xml, o: nat, ghost p: nat, ghost kids: seq<Xml>, ghost seen: seq<bool>)
      returns (prev: Xml?, cur: Xml?, ghost k: nat)
    requires kids != [] && head == kids[0] && Splits(kids, o, p) && SiblingLinks(kids, seen) && seen[0]
    ensures cur == NodeAt(kids, NextSeen(seen, p))
    ensures prev == null ==> p == 0
    ensures prev != null ==> k < p && prev == kids[k] && seen[k] && NextSeen(seen, k + 1) >= p
  {
    prev, cur, k := null, head, 0;
    ghost var i := 0;
    while cur != null && cur.off <= o
      invariant i <= |kids| && cur == NodeAt(kids, i) && (i < |kids| ==> seen[i])
      invariant prev == null ==> i == 0
      invariant prev != null ==> k < p && k < i && prev == kids[k] && seen[k] && NextSeen(seen, k + 1) == i
      decreases |kids| - i
    {
      prev, k := cur, i;
      cur, i := cur.sibling, NextSeen(seen, i + 1);
    }
  }

  // The new subtag goes after the last one of its name before it.
  method JoinType(first: Xml, xml: Xml, ghost p: nat, ghost kids: seq<Xml>, ghost names: seq<string>)
    requires Distinct(kids) && NextLinks(kids, names) && Search(names, xml.name, 0) < p
    requires Splits(kids, xml.off, p) && first == kids[Search(names, xml.name, 0)] && xml !in kids
    modifies kids`next, xml`next
    ensures NextLinks(Put(kids, p, xml), Put(names, p, xml.name))
  {
    var last;
    ghost var i;
    last, i := LastOfType(first, xml.off, p, kids, names, Search(names, xml.name, 0));
    xml.next := last.next;
    last.next := xml;
    NextPutLast(kids, names, xml, p, i);
  }

  // The last one of a name before `p` is the one that `next` leads on from to a new one at `p`.
  predicate IsLastBefore(names: seq<string>, name: string, p: nat, i: nat)
    requires i < |names|
  {
    i < p && names[i] == name && Search(names, name, i + 1) >= p
  }

  lemma NextPut(kids: seq<Xml>, names: seq<string>, xml: Xml, p: nat)
    requires p <= |kids| == |names|
    requires forall i {:trigger kids[i].next} :: 0 <= i < |kids| ==>
      kids[i].next == if IsLastBefore(names, xml.name, p, i) then xml else NodeAt(kids, Search(names, names[i], i + 1))
    requires xml.next == NodeAt(kids, Search(names, xml.name, p))
    ensures NextLinks(Put(kids, p, xml), Put(names, p, xml.name))
  {
    var kids', names' := Put(kids, p, xml), Put(names, p, xml.name);
    forall i | 0 <= i < |kids'| ensures kids'[i].next == NodeAt(kids', Search(names', names'[i], i + 1)) {
      if i < p {
        NextBefore(kids, names, xml, p, i);
        assert kids'[i] == kids[i];
      } else if i == p {
        SearchPut(names, p, xml.name, xml.name, p);
        NodeAtPut(kids, p, xml, Search(names', xml.name, p + 1));
      } else {
        NextBehind(kids, names, xml, p, i - 1);
        assert kids'[i] == kids[i - 1];
      }
    }
  }

  lemma NextPutLast(kids: seq<Xml>, names: seq<string>, xml: Xml, p: nat, k: nat)
    requires k < p <= |kids| == |names| && IsLastBefore(names, xml.name, p, k) && kids[k].next == xml
    requires forall i {:trigger kids[i].next} :: 0 <= i < |kids| && i != k ==> kids[i].next == NodeAt(kids, Search(names, names[i], i + 1))
    requires xml.next == NodeAt(kids, Search(names, xml.name, k + 1))
    ensures NextLinks(Put(kids, p, xml), Put(names, p, xml.name))
  {
    forall i | 0 <= i < |kids|
      ensures kids[i].next == if IsLastBefore(names, xml.name, p, i) then xml else NodeAt(kids, Search(names, names[i], i + 1))
    {
      OneLast(names, xml.name, p, k, i);
    }
    SearchOn(names, xml.name, k + 1, p);
    NextPut(kids, names, xml, p);
  }

  // A name that is first found from `p` on is found there from `p`.
  lemma SearchOn(names: seq<string>, name: string, from: nat, p: nat)
    requires from <= p <= |names| && p <= Search(names, name, from)
    ensures Search(names, name, p) == Search(names, name, from)
  {
  }

  lemma NextBefore(kids: seq<Xml>, names: seq<string>, xml: Xml, p: nat, i: nat)
    requires i < p <= |kids| == |names|
    ensures NodeAt(Put(kids, p, xml), Search(Put(names, p, xml.name), names[i], i + 1)) ==
      if IsLastBefore(names, xml.name, p, i) then xml else NodeAt(kids, Search(names, names[i], i + 1))
  {
    SearchPut(names, p, xml.name, names[i], i + 1);
    NodeAtPut(kids, p, xml, Search(Put(names, p, xml.name), names[i], i + 1));
  }

  lemma NextBehind(kids: seq<Xml>, names: seq<string>, xml: Xml, p: nat, i: nat)
    requires p <= i < |kids| == |names|
    ensures NodeAt(Put(kids, p, xml), Search(Put(names, p, xml.name), names[i], i + 2)) ==
      NodeAt(kids, Search(names, names[i], i + 1))
  {
    SearchPut(names, p, xml.name, names[i], i + 1);
    NodeAtPut(kids, p, xml, Search(Put(names, p, xml.name), names[i], i + 2));
  }

  // There is one last one of a name before `p`.
  lemma OneLast(names: seq<string>, name: string, p: nat, k: nat, i: nat)
    requires k < |names| && i < |names| && IsLastBefore(names, name, p, k)
    ensures IsLastBefore(names, name, p, i) <==> i == k
  {
  }

  // The old first one of the name leaves the sibling list.
  method Unlink(prev: Xml, cur: Xml, ghost kids: seq<Xml>, ghost seen: seq<bool>, ghost k: nat, ghost c: nat)
    requires Distinct(kids) && SiblingLinks(kids, seen) && k < c < |kids| && seen[k] && seen[c] && NextSeen(seen, k + 1) == c
    requires prev == kids[k] && cur == kids[c]
    modifies prev`sibling
    ensures SiblingLinks(kids, Unlinked(seen, c))
  {
    prev.sibling := cur.sibling;
    forall i | 0 <= i < |kids| && Unlinked(seen, c)[i]
      ensures kids[i].sibling == NodeAt(kids, NextSeen(Unlinked(seen, c), i + 1))
    {
      NextUnlinked(seen, c, i + 1);
      if i == k { NextUnlinked(seen, c, c + 1); } else { OneBefore(seen, c, i, k); }
    }
  }

  lemma NextUnlinked(seen: seq<bool>, c: nat, from: nat)
    requires 0 < c < |seen| && seen[c] && from <= |seen|
    ensures var j := NextSeen(seen, from);
      NextSeen(Unlinked(seen, c), from) == if j == c then NextSeen(seen, c + 1) else j
  {
    var less := Unlinked(seen, c);
    assert forall i :: 0 <= i < |seen| ==> less[i] == (i != c && seen[i]);
    var j, k := NextSeen(seen, from), NextSeen(less, from);
    assert k < |seen| ==> seen[k];
    if j == c {
      assert NextSeen(seen, c + 1) < |seen| ==> less[NextSeen(seen, c + 1)];
    } else if j < |seen| {
      assert less[j];
    }
  }

  lemma OneBefore(seen: seq<bool>, c: nat, i: nat, k: nat)
    requires i < |seen| && k < |seen| && seen[i] && seen[k] && c < |seen| && i != k && NextSeen(seen, k + 1) == c
    ensures NextSeen(seen, i + 1) != c
  {
  }

  lemma SiblingPut(kids: seq<Xml>, seen: seq<bool>, xml: Xml, p: nat, b: bool, k: nat)
    requires p <= |kids| == |seen|
    requires forall i {:trigger kids[i].sibling} :: 0 <= i < |kids| && seen[i] ==>
      kids[i].sibling == if b && i == k && k < p then xml else NodeAt(kids, NextSeen(seen, i + 1))
    requires b && k < p ==> seen[k] && NextSeen(seen, k + 1) >= p
    requires b && k >= p ==> p == 0
    requires b ==> xml.sibling == NodeAt(kids, NextSeen(seen, p))
    ensures SiblingLinks(Put(kids, p, xml), Put(seen, p, b))
  {
    var kids', seen' := Put(kids, p, xml), Put(seen, p, b);
    forall i | 0 <= i < |kids'| && seen'[i] ensures kids'[i].sibling == NodeAt(kids', NextSeen(seen', i + 1)) {
      if i < p {
        SeenBefore(kids, seen, xml, p, b, i + 1);
        assert kids'[i] == kids[i];
      } else if i == p {
        SeenBehind(kids, seen, xml, p, b, p);
      } else {
        SeenBehind(kids, seen, xml, p, b, i);
        assert kids'[i] == kids[i - 1];
      }
    }
  }

  lemma SeenBefore(kids: seq<Xml>, seen: seq<bool>, xml: Xml, p: nat, b: bool, from: nat)
    requires from <= p <= |kids| == |seen|
    ensures NodeAt(Put(kids, p, xml), NextSeen(Put(seen, p, b), from)) ==
      if b && NextSeen(seen, from) >= p then xml else NodeAt(kids, NextSeen(seen, from))
  {
    NextSeenPut(seen, p, b, from);
    NodeAtPut(kids, p, xml, NextSeen(Put(seen, p, b), from));
  }

  lemma SeenBehind(kids: seq<Xml>, seen: seq<bool>, xml: Xml, p: nat, b: bool, from: nat)
    requires p <= from <= |kids| == |seen|
    ensures NodeAt(Put(kids, p, xml), NextSeen(Put(seen, p, b), from + 1)) == NodeAt(kids, NextSeen(seen, from))
  {
    NextSeenPut(seen, p, b, from);
    NodeAtPut(kids, p, xml, NextSeen(Put(seen, p, b), from + 1));
  }

  // The new subtag is the first one of its name.
  method StartType(head: Xml, xml: Xml, old_first: Xml?, ghost p: nat, ghost kids: seq<Xml>, ghost names: seq<string>,
      ghost seen: seq<bool>)
    requires kids != [] && head == kids[0] && Distinct(kids) && Splits(kids, xml.off, p) && NextLinks(kids, names)
    requires SiblingLinks(kids, seen) && seen[0] && xml !in kids
    requires p <= Search(names, xml.name, 0) && old_first == NodeAt(kids, Search(names, xml.name, 0))
    modifies kids`sibling, xml`sibling, xml`next
    ensures NextLinks(Put(kids, p, xml), Put(names, p, xml.name))
    ensures SiblingLinks(Put(kids, p, xml), Put(seen, p, true))
  {
    xml.next := old_first;
    SearchOn(names, xml.name, 0, p);
    assert forall i :: 0 <= i < |kids| ==> !IsLastBefore(names, xml.name, p, i);
    NextPut(kids, names, xml, p);
    JoinSiblings(head, xml, p, kids, seen);
  }

  // The new subtag goes to the sibling list, after the last one on it before the new one.
  method JoinSiblings(head: Xml, xml: Xml, ghost p: nat, ghost kids: seq<Xml>, ghost seen: seq<bool>)
    requires kids != [] && head == kids[0] && Distinct(kids) && Splits(kids, xml.off, p)
    requires SiblingLinks(kids, seen) && seen[0] && xml !in kids
    modifies kids`sibling, xml`sibling
    ensures SiblingLinks(Put(kids, p, xml), Put(seen, p, true))
  {
    var prev, cur;
    ghost var k;
    prev, cur, k := LastSibling(head, xml.off, p, kids, seen);
    xml.sibling := cur;
    if prev != null { prev.sibling := xml; }
    SiblingPut(kids, seen, xml, p, true, if prev != null then k else p);
  }

  // The lists by name.
  method Sort(head: Xml, xml: Xml, ghost p: nat, ghost kids: seq<Xml>, ghost names: seq<string>, ghost seen: seq<bool>)
    requires kids != [] && head == kids[0] && Distinct(kids) && ByName(kids, names, seen)
    requires xml !in kids && Splits(kids, xml.off, p) && xml.next == null && xml.sibling == null
    modifies kids`next, kids`sibling, xml`next, xml`sibling
    ensures NextLinks(Put(kids, p, xml), Put(names, p, xml.name))
    ensures SiblingLinks(Put(kids, p, xml), SeenAfter(names, seen, p, xml.name))
  {
    var cur, prev;
    ghost var k;
    ghost var c := Search(names, xml.name, 0);
    cur, prev, k := FindType(head, xml.name, kids, names, seen);
    if cur != null && cur.off <= xml.off {
      JoinType(cur, xml, p, kids, names);
      SiblingPut(kids, seen, xml, p, false, p);
    } else {
      FirstIsFirst(names, xml.name);
      if prev != null && cur != null { Unlink(prev, cur, kids, seen, k, c); }
      StartType(head, xml, cur, p, kids, names, Unlinked(seen, c));
    }
  }

  // ---------- ezxml_idx(ezxml_child(parent, name), k) ----------

  // `k` steps along the list of a name; a negative `k` runs to its end.
  function Nth(names: seq<string>, i: nat, k: int): (r: nat)
    requires i <= |names|
    ensures r <= |names|
    decreases |names| - i
  {
    if i == |names| || k == 0 then i else Nth(names, Search(names, names[i], i + 1), k - 1)
  }

  // ezxml_idx
  method Idx(first: Xml?, idx: int, ghost kids: seq<Xml>, ghost names: seq<string>, ghost i: nat) returns (xml: Xml?)
    requires NextLinks(kids, names) && i <= |kids| && first == NodeAt(kids, i)
    ensures xml == NodeAt(kids, Nth(names, i, idx))
  {
    xml := first;
    var k := idx;
    ghost var j := i;
    while xml != null && k != 0
      invariant j <= |kids| && xml == NodeAt(kids, j) && Nth(names, j, k) == Nth(names, i, idx)
      decreases |kids| - j
    {
      j := Search(names, names[j], j + 1);
      xml := xml.next;
      k := k - 1;
    }
  }

  // How many of the names are this one.
  function Count(names: seq<string>, name: string): nat {
    multiset(names)[name]
  }

  lemma {:induction false} CountSkip(names: seq<string>, name: string, i: nat, j: nat)
    requires i <= j <= |names| && forall l :: i <= l < j ==> names[l] != name
    ensures Count(names[..j], name) == Count(names[..i], name)
  {
    if i < j {
      CountSkip(names, name, i, j - 1);
      assert names[..j] == names[..j - 1] + [names[j - 1]];
    }
  }

  lemma CountStep(names: seq<string>, name: string, i: nat)
    requires i < |names| && names[i] == name
    ensures Count(names[..Search(names, name, i + 1)], name) == Count(names[..i], name) + 1
  {
    CountSkip(names, name, i + 1, Search(names, name, i + 1));
    assert names[..i + 1] == names[..i] + [names[i]];
  }

  lemma {:induction false} NthCounts(names: seq<string>, name: string, i: nat, k: nat)
    requires i <= |names| && (i < |names| ==> names[i] == name)
    ensures var r := Nth(names, i, k);
      if r < |names| then names[r] == name && Count(names[..r], name) == Count(names[..i], name) + k
      else Count(names, name) <= Count(names[..i], name) + k
    decreases k
  {
    if i == |names| {
      assert names[..i] == names;
    } else if k > 0 {
      CountStep(names, name, i);
      NthCounts(names, name, Search(names, name, i + 1), k - 1);
    }
  }

  lemma {:induction false} NthNegative(names: seq<string>, i: nat, k: int)
    requires i <= |names| && k < 0
    ensures Nth(names, i, k) == |names|
    decreases |names| - i
  {
    if i < |names| { NthNegative(names, Search(names, names[i], i + 1), k - 1); }
  }

  // The place of the k-th child of a name in document order: it has the name, and k children
  // before it have it. There is none when no more than k children have the name.
  lemma ChildIdx(names: seq<string>, name: string, k: int)
    ensures var r := Nth(names, Search(names, name, 0), k);
      if 0 <= k < Count(names, name) then r < |names| && names[r] == name && Count(names[..r], name) == k
      else r == |names|
  {
    var c := Search(names, name, 0);
    CountSkip(names, name, 0, c);
    assert names[..0] == [];
    if k < 0 {
      NthNegative(names, c, k);
    } else {
      NthCounts(names, name, c, k);
      var r := Nth(names, c, k);
      if r < |names| {
        CountMore(names, name, r);
      }
    }
  }

  lemma CountMore(names: seq<string>, name: string, r: nat)
    requires r < |names| && names[r] == name
    ensures Count(names[..r], name) < Count(names, name)
  {
    assert names == names[..r] + [names[r]] + names[r + 1..];
  }

  // Children added one after another are found again by name and index.
  method Lookup(dest: Xml, name: string, k: int) returns (r: Xml?)
    requires dest.Indexed()
    ensures if 0 <= k < Count(dest.names, name)
      then exists i :: 0 <= i < |dest.kids| && r == dest.kids[i] && r.name == name && Count(dest.names[..i], name) == k
      else r == null
  {
    r := dest.Child(name);
    r := Idx(r, k, dest.kids, dest.names, Search(dest.names, name, 0));
    ChildIdx(dest.names, name, k);
  }
}
