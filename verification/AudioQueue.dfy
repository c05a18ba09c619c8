/** The data-node ring of the audio drivers: queued buffers read as one stream of bytes. */
module AudioQueue {
  import opened Sequences

  type Buf = seq<bv8>

  function Concat(q: seq<Buf>): Buf {
    if q == [] then [] else q[0] + Concat(q[1..])
  }

  lemma {:induction false} ConcatAppend(p: seq<Buf>, q: seq<Buf>)
    ensures Concat(p + q) == Concat(p) + Concat(q)
  {
    if p == [] {
      assert p + q == q;
    } else {
      assert (p + q)[1..] == p[1..] + q;
      ConcatAppend(p[1..], q);
    }
  }

  // A read stops inside the first buffer, if at all.
  predicate OffsetOk(q: seq<Buf>, off: nat) {
    if q == [] then off == 0 else off <= |q[0]|
  }

  // The bytes still to be read.
  function Unread(q: seq<Buf>, off: nat): Buf
    requires OffsetOk(q, off)
  {
    if q == [] then [] else q[0][off..] + Concat(q[1..])
  }

  lemma UnreadAppend(q: seq<Buf>, off: nat, b: Buf)
    requires OffsetOk(q, off)
    ensures OffsetOk(q + [b], off) && Unread(q + [b], off) == Unread(q, off) + b
  {
    if q == [] {
      assert q + [b] == [b] && [b][1..] == [] && b[0..] == b;
    } else {
      assert (q + [b])[1..] == q[1..] + [b] && (q + [b])[0] == q[0];
      ConcatAppend(q[1..], [b]);
      ConcatOne(b);
    }
  }

  lemma ConcatOne(b: Buf)
    ensures Concat([b]) == b
  {
    assert [b][1..] == [];
  }

  lemma NothingRead(q: seq<Buf>)
    ensures Unread(q, 0) == Concat(q)
  {
    if q != [] { assert q[0][0..] == q[0]; }
  }

  // A read under way: the queue, the buffers completed so far, the bytes got and those wanted.
  datatype Reading = Reading(q: seq<Buf>, off: nat, c: seq<Buf>, got: Buf, n: nat, more: bool)

  predicate Going(r: Reading) {
    OffsetOk(r.q, r.off) && (r.more ==> r.q != [])
  }

  // One turn of the loop.
  function Turned(r: Reading): (u: Reading)
    requires Going(r) && r.more
    ensures Going(u) && (|u.q| < |r.q| || !u.more)
  {
    var copy := Min(r.n, |r.q[0]| - r.off);
    var got := r.got + r.q[0][r.off..r.off + copy];
    if r.off + copy < |r.q[0]| then Reading(r.q, r.off + copy, r.c, got, r.n - copy, r.n > copy)
    else Reading(r.q[1..], 0, r.c + [r.q[0]], got, r.n - copy, |r.q| > 1 && r.n > copy)
  }

  function Finished(r: Reading): (u: Reading)
    requires Going(r)
    ensures Going(u) && !u.more
    decreases |r.q|, r.more
  {
    if r.more then Finished(Turned(r)) else r
  }

  // rt_data_node_read: `n` bytes are wanted from a queue.
  function TakeFrom(q: seq<Buf>, off: nat, c: seq<Buf>, n: nat): Reading
    requires OffsetOk(q, off)
  {
    Finished(Reading(q, off, c, [], n, q != []))
  }

  // What a turn keeps: no byte is lost or moved, buffers are completed in order, and the loop ends
  // with all the bytes or with an empty queue.
  ghost predicate Same(r: Reading, u: Reading)
    requires Going(r) && Going(u)
  {
    && u.got + Unread(u.q, u.off) == r.got + Unread(r.q, r.off) && u.c + u.q == r.c + r.q
    && r.c <= u.c && |u.got| + u.n == |r.got| + r.n && (!u.more ==> u.n == 0 || u.q == [])
  }

  lemma TurnKeeps(r: Reading)
    requires Going(r) && r.more
    ensures Same(r, Turned(r))
  {
    if r.n < |r.q[0]| - r.off {
      PartKeeps(r);
    } else {
      RestKeeps(r);
    }
  }

  // A turn that stops inside the first buffer.
  lemma PartKeeps(r: Reading)
    requires Going(r) && r.more && r.n < |r.q[0]| - r.off
    ensures Same(r, Turned(r))
  {
    var first, part := r.q[0][r.off..], r.q[0][r.off..r.off + r.n];
    var left := r.q[0][r.off + r.n..];
    assert first == part + left;
    Associative(part, left, Concat(r.q[1..]));
    Associative(r.got, part, left + Concat(r.q[1..]));
  }

  // A turn that completes it.
  lemma RestKeeps(r: Reading)
    requires Going(r) && r.more && r.n >= |r.q[0]| - r.off
    ensures Same(r, Turned(r))
  {
    var first := r.q[0][r.off..];
    assert r.q[0][r.off..r.off + (|r.q[0]| - r.off)] == first;
    NothingRead(r.q[1..]);
    Associative(r.got, first, Concat(r.q[1..]));
    assert r.c + [r.q[0]] + r.q[1..] == r.c + r.q;
  }

  lemma {:induction false} FinishedKeeps(r: Reading)
    requires Going(r) && (!r.more ==> r.n == 0 || r.q == [])
    ensures Same(r, Finished(r))
    decreases |r.q|, r.more
  {
    if r.more {
      TurnKeeps(r);
      FinishedKeeps(Turned(r));
    }
  }

  // A read gives the first min(n, available) bytes whatever the buffers' boundaries, and leaves the
  // rest; buffers are completed in order; and if it gives less than was wanted the queue is empty.
  lemma ReadIsPrefix(q: seq<Buf>, off: nat, c: seq<Buf>, n: nat)
    requires OffsetOk(q, off)
    ensures var r := TakeFrom(q, off, c, n);
      OffsetOk(r.q, r.off) && |r.got| == Min(n, |Unread(q, off)|) && Unread(q, off) == r.got + Unread(r.q, r.off)
      && r.c + r.q == c + q && c <= r.c && (|r.got| < n ==> r.q == [])
  {
    var r := Reading(q, off, c, [], n, q != []);
    FinishedKeeps(r);
    var u := Finished(r);
    assert [] + Unread(q, off) == Unread(q, off);
    assert |Unread(q, off)| == |u.got| + |Unread(u.q, u.off)|;
  }

  // The ring. A slot holds the bytes of a buffer, which its writer leaves alone until it is
  // reported complete.
  class NodeList {
    const node: array<Buf>
    var read_index: nat
    var write_index: nat
    var data_offset: nat
    ghost var queue: seq<Buf>
    ghost var accepted: seq<Buf>
    ghost var completed: seq<Buf>

    // rt_data_node_init
    constructor (size: nat)
      requires size > 0
      ensures Valid() && fresh(node) && node.Length == size
      ensures queue == [] && accepted == [] && completed == [] && data_offset == 0
    {
      node := new Buf[size];
      read_index, write_index, data_offset := 0, 0, 0;
      queue, accepted, completed := [], [], [];
    }

    function Wrap(i: nat): nat {
      if i >= node.Length then i - node.Length else i
    }

    // The place in the ring of a queued buffer.
    function Slot(i: nat): nat
      reads this`read_index
    {
      Wrap(read_index + i)
    }

    // The queue is the part of the ring from the read index to the write index; the buffers
    // accepted so far are those completed, once each and in order, followed by the queue.
    ghost predicate Valid()
      reads this, node
    {
      && read_index < node.Length && |queue| < node.Length && write_index == Wrap(read_index + |queue|)
      && (forall i {:trigger Slot(i)} :: 0 <= i < |queue| ==> node[Slot(i)] == queue[i])
      && OffsetOk(queue, data_offset) && accepted == completed + queue
    }

    // rt_data_node_is_empty
    method IsEmpty() returns (r: bool)
      requires Valid()
      ensures r == (queue == [])
    {
      r := read_index == write_index;
    }

    // rt_data_node_write; a full ring refuses the buffer
    method Write(buffer: Buf) returns (ok: bool)
      requires Valid()
      modifies this`write_index, this`queue, this`accepted, node
      ensures Valid() && ok == (|old(queue)| + 1 < node.Length)
      ensures queue == (if ok then old(queue) + [buffer] else old(queue))
      ensures accepted == if ok then old(accepted) + [buffer] else old(accepted)
    {
      var next_index := write_index + 1;
      if next_index >= node.Length { next_index := 0; }
      if next_index == read_index { return false; }
      node[write_index] := buffer;
      write_index := next_index;
      UnreadAppend(queue, data_offset, buffer);
      queue, accepted := queue + [buffer], accepted + [buffer];
      ok := true;
    }

    // The front buffer has been read: read_complete is called and its slot is released.
    method Complete()
      requires Valid() && queue != []
      modifies this`read_index, this`data_offset, this`queue, this`completed
      ensures Valid() && queue == old(queue)[1..] && data_offset == 0
      ensures completed == old(completed) + [old(queue)[0]]
    {
      ghost var q := queue;
      completed := completed + [queue[0]];
      assert accepted == completed + queue[1..];
      queue := queue[1..];
      var next_index := read_index + 1;
      if next_index >= node.Length { next_index := 0; }
      forall i | 0 <= i < |queue| ensures node[Wrap(next_index + i)] == queue[i] {
        assert Slot(i + 1) == Wrap(next_index + i) && node[Slot(i + 1)] == q[i + 1];
      }
      read_index := next_index;
      data_offset := 0;
    }

    // A target that is not the ring itself.
    predicate Outside(buffer: array?<bv8>) {
      buffer as object? != node as object
    }

    // memcpy of a part of a buffer, unless the target is null
    method Copy(buffer: array?<bv8>, at: nat, from: Buf, off: nat, size: nat, ghost was: Buf, ghost base: nat, ghost got: Buf)
      requires off + size <= |from| && (buffer != null ==> at + size <= buffer.Length)
      requires at == base + |got| && Filled(buffer, was, base, got)
      modifies if buffer != null then {buffer} else {}
      ensures Filled(buffer, was, base, got + from[off..off + size])
    {
      if buffer != null {
        ghost var b, part := buffer[..], from[off..off + size];
        forall i | 0 <= i < size { buffer[at + i] := from[off + i]; }
        assert buffer[..] == Overwrite(b, at, part);
        OverwriteTwice(was, base, got, part);
      }
    }

    // The target has its old contents with the bytes over them.
    ghost predicate Filled(buffer: array?<bv8>, was: Buf, at: nat, got: Buf)
      reads buffer
    {
      buffer != null ==>
        |was| == buffer.Length && at + |got| <= buffer.Length && buffer[..] == Overwrite(was, at, got)
    }

    // The read `r` is under way.
    ghost predicate At(r: Reading)
      reads this
    {
      queue == r.q && data_offset == r.off && completed == r.c
    }

    // One turn of the loop of rt_data_node_read: `n` bytes are still wanted.
    method Turn(buffer: array?<bv8>, at: nat, n: nat, ghost was: Buf, ghost base: nat, ghost r: Reading)
        returns (copy_size: nat, done: bool, ghost u: Reading)
      requires Valid() && Outside(buffer) && (buffer != null ==> at + n <= buffer.Length)
      requires Going(r) && r.more && At(r) && r.n == n
      requires at == base + |r.got| && Filled(buffer, was, base, r.got)
      modifies this`read_index, this`data_offset, this`queue, this`completed
      modifies if buffer != null then {buffer} else {}
      ensures Valid() && u == Turned(r) && At(u) && Filled(buffer, was, base, u.got)
      ensures copy_size + u.n == n && |u.got| == |r.got| + copy_size
      ensures u.more == (copy_size < n && !(done && queue == []))
    {
      u := Turned(r);
      assert node[read_index] == node[Slot(0)] == queue[0];
      var remain_len := |node[read_index]| - data_offset;
      copy_size := if n > remain_len then remain_len else n;
      Copy(buffer, at, node[read_index], data_offset, copy_size, was, base, r.got);
      data_offset := data_offset + copy_size;
      done := data_offset >= |node[read_index]|;
      if done { Complete(); }
    }

    // rt_data_node_read, into `buffer` from `at` on unless it is null
    method Read(buffer: array?<bv8>, at: nat, size: nat) returns (result: nat)
      requires Valid() && Outside(buffer) && (buffer != null ==> at + size <= buffer.Length)
      modifies this`read_index, this`data_offset, this`queue, this`completed
      modifies if buffer != null then {buffer} else {}
      ensures Valid()
      ensures var r := TakeFrom(old(queue), old(data_offset), old(completed), size);
        At(r) && result == |r.got| && Filled(buffer, if buffer != null then old(buffer[..]) else [], at, r.got)
    {
      if read_index == write_index { return 0; }
      ghost var was := if buffer != null then buffer[..] else [];
      result := ReadLoop(buffer, at, size, was, Reading(queue, data_offset, completed, [], size, true));
    }

    // The loop, on a queue that is not empty.
    method ReadLoop(buffer: array?<bv8>, at: nat, size: nat, ghost was: Buf, ghost start: Reading) returns (result: nat)
      requires Valid() && Outside(buffer) && (buffer != null ==> at + size <= buffer.Length)
      requires Going(start) && start.more && At(start) && start.got == [] && start.n == size
      requires Filled(buffer, was, at, [])
      modifies this`read_index, this`data_offset, this`queue, this`completed
      modifies if buffer != null then {buffer} else {}
      ensures Valid() && At(Finished(start)) && result == |Finished(start).got|
      ensures Filled(buffer, was, at, Finished(start).got)
    {
      ghost var r := start;
      result := size;
      var read_offset, more := 0, true;
      while more
        invariant Valid() && At(r) && Going(r) && r.more == more && Finished(r) == Finished(start)
        invariant Filled(buffer, was, at, r.got) && |r.got| == read_offset && read_offset + r.n == size
        invariant if more then result == size else result == read_offset
        decreases |queue|, more
      {
        var copy_size, done;
        copy_size, done, r := Turn(buffer, at + read_offset, size - read_offset, was, at, r);
        read_offset := read_offset + copy_size;
        more := read_offset < size;
        if done && read_index == write_index {
          result := read_offset;
          more := false;
        }
      }
    }

    // rt_data_node_empty
    method Empty()
      requires Valid()
      modifies this`read_index, this`data_offset, this`queue, this`completed
      ensures Valid() && queue == [] && completed == accepted
    {
      var empty := IsEmpty();
      while !empty
        invariant Valid() && empty == (queue == [])
        decreases |Unread(queue, data_offset)|, |queue|
      {
        ghost var q, off := queue, data_offset;
        ReadIsPrefix(q, off, completed, 1024);
        var n := Read(null, 0, 1024);
        empty := IsEmpty();
      }
    }
  }

  function Overwrite(b: Buf, at: nat, x: Buf): (r: Buf)
    requires at + |x| <= |b|
    ensures |r| == |b|
  {
    b[..at] + x + b[at + |x|..]
  }

  lemma OverwriteTwice(b: Buf, at: nat, x: Buf, y: Buf)
    requires at + |x| + |y| <= |b|
    ensures Overwrite(Overwrite(b, at, x), at + |x|, y) == Overwrite(b, at, x + y)
  {
  }
}
