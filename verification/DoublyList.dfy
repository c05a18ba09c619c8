/** The circular doubly linked list of the mixer, through its head. */
module DoublyList {

  // A buffer of the pool, with what its writer put into it.
  datatype Block = Block(id: nat, bytes: seq<bv8>)

  // A list header and the entry it is embedded in; the head of a list uses the links only.
  class Node {
    var next: Node?
    var prev: Node?
    var buf: Block
    var len: nat
    var use_pos: nat

    // INIT_LIST_HEAD
    constructor ()
      ensures Ring([this])
    {
      buf, len, use_pos := Block(0, []), 0, 0;
      new;
      next, prev := this, this;
    }
  }

  function Succ(i: nat, n: nat): (j: nat)
    requires i < n
    ensures j < n
  {
    if i + 1 == n then 0 else i + 1
  }

  function Pred(i: nat, n: nat): (j: nat)
    requires i < n
    ensures j < n
  {
    if i == 0 then n - 1 else i - 1
  }

  ghost predicate Distinct(r: seq<Node>) {
    forall i, j :: 0 <= i < j < |r| ==> r[i] != r[j]
  }

  ghost predicate NextLinks(r: seq<Node>)
    reads r`next
  {
    forall i {:trigger r[i].next} :: 0 <= i < |r| ==> r[i].next == r[Succ(i, |r|)]
  }

  ghost predicate PrevLinks(r: seq<Node>)
    reads r`prev
  {
    forall i {:trigger r[i].prev} :: 0 <= i < |r| ==> r[i].prev == r[Pred(i, |r|)]
  }

  // The nodes of a list in order, its head first.
  ghost predicate Ring(r: seq<Node>)
    reads r`next, r`prev
  {
    r != [] && Distinct(r) && NextLinks(r) && PrevLinks(r)
  }

  // __list_add
  method ListAdd(new_node: Node, prev: Node, next: Node)
    requires new_node != prev && new_node != next
    modifies new_node`next, new_node`prev, prev`next, next`prev
    ensures new_node.next == next && new_node.prev == prev && prev.next == new_node && next.prev == new_node
  {
    next.prev := new_node;
    new_node.next := next;
    new_node.prev := prev;
    prev.next := new_node;
  }

  // list_add_tail
  method AddTail(new_node: Node, head: Node, ghost r: seq<Node>)
    requires Ring(r) && head == r[0] && new_node !in r
    modifies new_node`next, new_node`prev, r`next, r`prev
    ensures Ring(r + [new_node])
  {
    ghost var n := |r|;
    assert head.prev == r[n - 1] && r[n - 1].next == head;
    ListAdd(new_node, head.prev, head);
    ghost var s := r + [new_node];
    forall i | 0 <= i <= n ensures s[i].next == s[Succ(i, n + 1)] {
      if i < n - 1 { assert r[i] != r[n - 1]; }
    }
    forall i | 0 <= i <= n ensures s[i].prev == s[Pred(i, n + 1)] {
      if 0 < i < n { assert r[i] != r[0]; }
    }
  }

  // list_del
  method Delete(entry: Node, ghost r: seq<Node>, ghost k: nat)
    requires Ring(r) && 0 < k < |r| && entry == r[k]
    modifies r`next, r`prev
    ensures Ring(r[..k] + r[k + 1..])
  {
    ghost var n := |r|;
    assert entry.prev == r[k - 1] && entry.next == r[Succ(k, n)];
    var prev, next := entry.prev, entry.next;
    next.prev := prev;
    prev.next := next;
    assert forall j {:trigger r[j].next} :: 0 <= j < n && j != k - 1 ==> r[j].next == r[Succ(j, n)];
    NextWithout(r, k);
    assert forall j {:trigger r[j].prev} :: 0 <= j < n && j != Succ(k, n) ==> r[j].prev == r[Pred(j, n)];
    PrevWithout(r, k);
  }

  lemma NextWithout(r: seq<Node>, k: nat)
    requires 0 < k < |r| && r[k - 1].next == r[Succ(k, |r|)]
    requires forall j {:trigger r[j].next} :: 0 <= j < |r| && j != k - 1 ==> r[j].next == r[Succ(j, |r|)]
    ensures NextLinks(r[..k] + r[k + 1..])
  {
    var n, s := |r|, r[..k] + r[k + 1..];
    forall i | 0 <= i < n - 1 ensures s[i].next == s[Succ(i, n - 1)] {
      var j := if i < k then i else i + 1;
      assert s[i] == r[j];
    }
  }

  lemma PrevWithout(r: seq<Node>, k: nat)
    requires 0 < k < |r| && r[Succ(k, |r|)].prev == r[k - 1]
    requires forall j {:trigger r[j].prev} :: 0 <= j < |r| && j != Succ(k, |r|) ==> r[j].prev == r[Pred(j, |r|)]
    ensures PrevLinks(r[..k] + r[k + 1..])
  {
    var n, s := |r|, r[..k] + r[k + 1..];
    forall i | 0 <= i < n - 1 ensures s[i].prev == s[Pred(i, n - 1)] {
      var j := if i < k then i else i + 1;
      assert s[i] == r[j];
    }
  }
}
