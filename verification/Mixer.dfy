/** The mixer: music blocks queue on an intrusive list, are consumed as bytes, and go back to the pool. */
module Mixer {
  import opened Sequences
  import opened DoublyList
  import opened MusicSource
  import opened Wrappers

  class Mixer {
    const head: Node
    const blk_size: nat
    var is_mux_src: bool
    // the mixer's pool: the free blocks, and those the DAC holds
    var free: multiset<nat>
    var dac: multiset<nat>
    // the free blocks of the pool that music comes in
    var music_free: multiset<nat>
    // the list and its unread bytes; the blocks held by those who send music; the blocks of the pools
    ghost var ring: seq<Node>
    ghost var queue: seq<Chunk>
    ghost var clients: multiset<nat>
    ghost const blocks: multiset<nat>
    ghost const music_blocks: multiset<nat>

    constructor (mp: set<nat>, music_mp: set<nat>, size: nat)
      ensures Valid() && free == multiset(mp) && music_free == multiset(music_mp) && blk_size == size
      ensures dac == clients == multiset{} && queue == [] && blocks == free && music_blocks == music_free
    {
      head := new Node();
      blk_size, is_mux_src, free, dac, blocks := size, false, multiset(mp), multiset{}, multiset(mp);
      music_free, music_blocks := multiset(music_mp), multiset(music_mp);
      ring, queue, clients := [head], [], multiset{};
    }

    // Every node of the list has unread bytes.
    ghost predicate Listed()
      reads this`ring, this`queue, ring
    {
      Ring(ring) && ring[0] == head && Payload(ring, queue)
    }

    // Every music block is in one place, once: free, held by a client, or queued.
    ghost predicate MusicConserved()
      reads this`music_free, this`clients, this`queue
    {
      music_blocks == music_free + clients + multiset(Ids(queue))
    }

    // Every block of the mixer is free or held by the DAC, once.
    ghost predicate Conserved()
      reads this`free, this`dac
    {
      blocks == free + dac
    }

    ghost predicate Valid()
      reads this`free, this`dac, this`music_free, this`clients, this`ring, this`queue, ring
    {
      Listed() && MusicConserved() && Conserved()
    }

    // A client of the mixer takes a block to fill.
    method ClientAlloc() returns (id: Option<nat>)
      requires Valid()
      modifies this`music_free, this`clients
      ensures Valid() && clients == old(clients) + One(id) && (id.Some? <==> old(music_free) != multiset{})
    {
      if music_free == multiset{} { return None; }
      var b :| b in music_free;
      music_free, clients := music_free - multiset{b}, clients + multiset{b};
      id := Some(b);
    }

    // mixer_music_src_in
    method MusicSrcIn(buf: Block, len: nat)
      requires Valid() && buf.id in clients && len <= |buf.bytes|
      modifies this`music_free, this`ring, this`queue, this`clients, ring`next, ring`prev
      ensures Valid() && clients == old(clients) - multiset{buf.id}
      ensures queue == (if len == 0 || !is_mux_src then old(queue) else old(queue) + [Chunk(buf.id, buf.bytes[..len])])
      ensures music_free == if len == 0 || !is_mux_src then old(music_free) + multiset{buf.id} else old(music_free)
    {
      FromClient(music_free, clients, Ids(queue), buf.id);
      clients := clients - multiset{buf.id};
      if len == 0 || !is_mux_src {
        music_free := music_free + multiset{buf.id};
        return;
      }
      Enqueue(buf, len);
    }

    // A new node for the block.
    method Enqueue(buf: Block, len: nat)
      requires Listed() && 0 < len <= |buf.bytes|
      modifies this`ring, this`queue, ring`next, ring`prev
      ensures Listed() && queue == old(queue) + [Chunk(buf.id, buf.bytes[..len])]
      ensures Ids(queue) == old(Ids(queue)) + [buf.id]
    {
      var node := new Node();
      node.buf := buf;
      node.len := len;
      node.use_pos := 0;
      Link(node, Chunk(buf.id, buf.bytes[..len]));
    }

    method Link(node: Node, ghost c: Chunk)
      requires Listed() && node !in ring && Holds(node, c)
      modifies this`ring, this`queue, ring`next, ring`prev, node`next, node`prev
      ensures Listed() && queue == old(queue) + [c] && ring == old(ring) + [node]
      ensures Ids(queue) == old(Ids(queue)) + [c.id]
    {
      AddTail(node, head, ring);
      ring, queue := ring + [node], queue + [c];
    }

    // mixer_music_src_out, of the first node
    method MusicSrcOut(node: Node)
      requires Ring(ring) && ring[0] == head && |ring| > 1 && node == ring[1]
      modifies this`music_free, this`ring, ring`next, ring`prev
      ensures Ring(ring) && ring == [head] + old(ring)[2..] && music_free == old(music_free) + multiset{node.buf.id}
    {
      Delete(node, ring, 1);
      assert ring[..1] + ring[2..] == [head] + ring[2..];
      ring := [head] + ring[2..];
      music_free := music_free + multiset{node.buf.id};
    }

    // A part of the first node is read.
    method ReadPart(node: Node, n: nat)
      requires Listed() && queue != [] && node == ring[1] && n < |queue[0].bytes|
      modifies this`queue, node`use_pos
      ensures Listed() && queue == [Chunk(old(queue)[0].id, old(queue)[0].bytes[n..])] + old(queue)[1..]
    {
      assert Holds(ring[0 + 1], queue[0]);
      PayloadRest(ring, queue);
      node.use_pos := node.use_pos + n;
      queue := [Chunk(queue[0].id, queue[0].bytes[n..])] + queue[1..];
    }

    // All of the first node is read, and it is released.
    method ReadAll(node: Node)
      requires Listed() && queue != [] && node == ring[1]
      modifies this`music_free, this`ring, this`queue, ring`next, ring`prev, node`use_pos
      ensures Listed() && queue == old(queue)[1..] && music_free == old(music_free) + multiset{old(queue)[0].id}
      ensures ring == [head] + old(ring)[2..]
    {
      assert Holds(ring[0 + 1], queue[0]);
      PayloadRest(ring, queue);
      node.use_pos := node.len;
      MusicSrcOut(node);
      queue := queue[1..];
    }

    // Taking has got so far.
    ghost predicate At(t: Taking, free0: multiset<nat>, data: array<bv8>, was: seq<bv8>)
      reads this`music_free, this`ring, this`queue, ring, data
    {
      Listed() && queue == t.q && music_free == free0 + multiset(t.released) && Filled(data, was, t.got)
    }

    // One turn of the loop of mixer_music_src_get_data: the first node, with n bytes expected.
    method Turn(node: Node, data: array<bv8>, at: nat, n: nat, ghost t: Taking, ghost free0: multiset<nat>,
        ghost was: seq<bv8>) returns (length: nat, ghost u: Taking)
      requires Going(t) && t.more && At(t, free0, data, was) && node == ring[1]
      requires t.n == n && at == |t.got| && at + n <= data.Length
      modifies this`music_free, this`ring, this`queue, ring`next, ring`prev, node`use_pos, data
      ensures u == Turned(t) && At(u, free0, data, was) && length + u.n == n && |u.got| == at + length
      ensures ring == if u.q != [] && |u.q| == |t.q| then old(ring) else [head] + old(ring)[2..]
    {
      u := Turned(t);
      assert Holds(ring[0 + 1], queue[0]);
      var count := node.len - node.use_pos;
      length := if count >= n then n else count;
      ghost var part := node.buf.bytes[node.use_pos..node.use_pos + length];
      assert part == t.q[0].bytes[..length] && u.got == t.got + part by {
        if length == |t.q[0].bytes| { assert t.q[0].bytes[..length] == t.q[0].bytes; }
      }
      Copy(node, data, at, length, t.got, was);
      assert Filled(data, was, u.got);
      Consume(node, n, count);
    }

    // memcpy of the unread bytes of a node
    method Copy(node: Node, data: array<bv8>, at: nat, length: nat, ghost got: seq<bv8>, ghost was: seq<bv8>)
      requires Filled(data, was, got) && at == |got| && at + length <= data.Length
      requires node.use_pos + length <= |node.buf.bytes|
      modifies data
      ensures Filled(data, was, got + node.buf.bytes[node.use_pos..node.use_pos + length])
    {
      assert data[..at] == got && data[at + length..] == was[at + length..];
      forall k | 0 <= k < length { data[at + k] := node.buf.bytes[node.use_pos + k]; }
      assert data[at..at + length] == node.buf.bytes[node.use_pos..node.use_pos + length];
      FilledMore(data, was, got, node.buf.bytes[node.use_pos..node.use_pos + length]);
    }

    // n of the count unread bytes of the first node are used, or all of them.
    method Consume(node: Node, n: nat, count: nat)
      requires Listed() && queue != [] && node == ring[1] && count == |queue[0].bytes|
      modifies this`music_free, this`ring, this`queue, ring`next, ring`prev, node`use_pos
      ensures Listed()
      ensures if count > n
        then queue == [Chunk(old(queue)[0].id, old(queue)[0].bytes[n..])] + old(queue)[1..] && music_free == old(music_free)
          && ring == old(ring)
        else queue == old(queue)[1..] && music_free == old(music_free) + multiset{old(queue)[0].id} && ring == [head] + old(ring)[2..]
    {
      if count > n {
        ReadPart(node, n);
      } else {
        ReadAll(node);
      }
    }

    // mixer_music_src_get_data
    method GetData(data: array<bv8>, expected_len: nat) returns (length: nat)
      requires Listed() && expected_len <= data.Length
      modifies this`music_free, this`ring, this`queue, ring`next, ring`prev, ring`use_pos, data
      ensures Listed()
      ensures var t := TakeFrom(old(queue), [], expected_len);
        At(t, old(music_free), data, old(data[..])) && length == |t.got|
    {
      length := 0;
      ghost var t := Taking(queue, [], [], expected_len, queue != [] && expected_len > 0);
      ghost var free0, was, end := music_free, data[..], Finished(t);
      assert music_free + multiset([]) == music_free;
      if expected_len == 0 { return; }
      assert head.next == ring[Succ(0, |ring|)];
      var pos := head.next;
      var expected_cnt, done := expected_len, false;
      while pos != head && !done
        invariant At(t, free0, data, was) && Going(t) && Finished(t) == end && Within(ring, old(ring))
        invariant t.n == expected_cnt && |t.got| == length && length + expected_cnt == expected_len
        invariant t.more == (pos != head && !done) && (!done ==> pos == ring[Succ(0, |ring|)])
        decreases |queue|, !done
      {
        WithinRest(ring, old(ring));
        NextOfFirst(ring);
        var tmp := pos.next;
        var c;
        c, t := Turn(pos, data, length, expected_cnt, t, free0, was);
        length := length + c;
        done := c == expected_cnt;
        expected_cnt := expected_cnt - c;
        pos := tmp;
      }
    }

    // mixer_music_src_get_data, with the blocks it releases back in the pool
    method MusicSrcGetData(data: array<bv8>, expected_len: nat) returns (length: nat)
      requires Valid() && expected_len <= data.Length
      modifies this`music_free, this`ring, this`queue, ring`next, ring`prev, ring`use_pos, data
      ensures Valid() && length == Min(expected_len, |Bytes(old(queue))|)
      ensures data[..length] == Bytes(old(queue))[..length] && data[length..] == old(data[length..])
      ensures Bytes(queue) == Bytes(old(queue))[length..]
    {
      ghost var q, free0 := queue, music_free;
      TakenIsPrefix(q, [], expected_len);
      length := GetData(data, expected_len);
      Released(free0, clients, Ids(q), TakeFrom(q, [], expected_len).released, Ids(queue));
    }

    // mixer_music_src_flush
    method MusicSrcFlush()
      requires Valid()
      modifies this`music_free, this`ring, this`queue, ring`next, ring`prev, ring`use_pos
      ensures Valid() && queue == [] && music_free == old(music_free) + multiset(Ids(old(queue)))
    {
      Released(music_free, clients, Ids(queue), Ids(queue), []);
      ReleaseAll();
      assert Ids(queue) == [];
    }

    method ReleaseAll()
      requires Listed()
      modifies this`music_free, this`ring, this`queue, ring`next, ring`prev, ring`use_pos
      ensures Listed() && queue == [] && music_free == old(music_free) + multiset(Ids(old(queue)))
    {
      ghost var ids, free0 := Ids(queue), music_free;
      ghost var out := [];
      assert head.next == ring[Succ(0, |ring|)] && out + Ids(queue) == ids;
      var pos := head.next;
      while pos != head
        invariant Listed() && pos == ring[Succ(0, |ring|)] && Within(ring, old(ring))
        invariant out + Ids(queue) == ids && music_free == free0 + multiset(out)
        decreases |queue|
      {
        WithinRest(ring, old(ring));
        IdsFirst(out, queue);
        out := out + [queue[0].id];
        pos := DropFirst(pos);
      }
      assert out + [] == out && Ids(queue) == [];
    }

    // The first node is released; the next one is returned.
    method DropFirst(pos: Node) returns (tmp: Node)
      requires Listed() && |ring| > 1 && pos == ring[1]
      modifies this`music_free, this`ring, this`queue, ring`next, ring`prev, pos`use_pos
      ensures Listed() && ring == [head] + old(ring)[2..] && tmp == ring[Succ(0, |ring|)]
      ensures queue == old(queue)[1..] && music_free == old(music_free) + multiset{old(queue)[0].id}
    {
      NextOfFirst(ring);
      tmp := pos.next;
      ReadAll(pos);
    }

    // mixer_music_src_get_data_len
    method MusicSrcGetDataLen() returns (length: nat)
      requires Listed()
      ensures length == |Bytes(queue)|
    {
      length := 0;
      assert head.next == ring[Succ(0, |ring|)] && queue[0..] == queue;
      var pos := head.next;
      ghost var i := 0;
      while pos != head
        invariant i <= |queue| && pos == ring[Succ(i, |ring|)] && length + |Bytes(queue[i..])| == |Bytes(queue)|
        decreases |queue| - i
      {
        assert Holds(ring[i + 1], queue[i]) && queue[i..][1..] == queue[i + 1..];
        assert ring[i + 1].next == ring[Succ(i + 1, |ring|)];
        length := length + (pos.len - pos.use_pos);
        pos := pos.next;
        i := i + 1;
      }
    }

    // rt_mp_alloc, without waiting
    method Alloc() returns (id: Option<nat>)
      modifies this`free
      ensures free == old(free) - One(id) && (id.Some? <==> old(free) != multiset{})
      ensures id.Some? ==> id.value in old(free)
    {
      if free == multiset{} { return None; }
      var b :| b in free;
      free := free - multiset{b};
      id := Some(b);
    }

    // rt_mp_free, of a block if there is one
    method GiveBack(id: Option<nat>)
      modifies this`free
      ensures free == old(free) + One(id)
    {
      if id.Some? { free := free + multiset{id.value}; }
    }

    // rt_device_write: the DAC takes a block, or it goes back to the pool.
    method Play(id: nat, accepted: bool)
      modifies this`free, this`dac
      ensures if accepted then dac == old(dac) + multiset{id} && free == old(free)
        else free == old(free) + multiset{id} && dac == old(dac)
    {
      if accepted { dac := dac + multiset{id}; } else { free := free + multiset{id}; }
    }

    // mixer_dac_write_done: the DAC has played a block.
    method DacWriteDone(id: nat)
      requires Valid() && id in dac
      modifies this`free, this`dac
      ensures Valid() && dac == old(dac) - multiset{id} && free == old(free) + multiset{id}
    {
      dac, free := dac - multiset{id}, free + multiset{id};
    }

    // mixer_single_acoustics; the microphone gives `read` bytes, and the DAC says if it takes the
    // block. Returns the block it takes.
    method SingleAcoustics(read: nat, accepted: bool) returns (out: Option<nat>)
      requires Conserved()
      modifies this`free, this`dac
      ensures Conserved() && free == old(free) - One(out) && dac == old(dac) + One(out)
      ensures out.Some? <==> accepted && read > 0 && old(free) != multiset{}
    {
      var exchange_buf := Alloc();
      out := None;
      if exchange_buf.Some? {
        if read == 0 {
          GiveBack(exchange_buf);
        } else {
          Play(exchange_buf.value, accepted);
          if accepted { out := exchange_buf; }
        }
      }
    }

    // mixer_mux_acoustics; of the bytes asked for, the microphone gives at most `mic`. Returns the
    // music that is mixed in and the block the DAC takes.
    method MuxAcoustics(mic: nat, accepted: bool) returns (music: seq<bv8>, out: Option<nat>)
      requires Valid()
      modifies this`free, this`dac, this`music_free, this`ring, this`queue, ring`next, ring`prev, ring`use_pos
      ensures Valid() && Bytes(old(queue)) == music + Bytes(queue)
      ensures free == old(free) - One(out) && dac == old(dac) + One(out)
      ensures var expected := Min(|Bytes(old(queue))|, blk_size);
        if |old(free)| >= 2 && expected > 0 then |music| == 2 * Min(mic, expected / 2) && out.Some? == accepted
        else |music| == 0 && out == None
    {
      ghost var free0, dac0 := free, dac;
      var outside, inside, mixed;
      outside, inside, mixed, music := Collect(mic);
      out := Settle(outside, inside, mixed, accepted);
      Settled(free0, dac0, free, dac, out);
    }

    // Two blocks and the mix.
    method Collect(mic: nat) returns (outside: Option<nat>, inside: Option<nat>, mixed: bool, music: seq<bv8>)
      requires Listed() && MusicConserved()
      modifies this`free, this`music_free, this`ring, this`queue, ring`next, ring`prev, ring`use_pos
      ensures Listed() && MusicConserved() && Bytes(old(queue)) == music + Bytes(queue)
      ensures free + One(outside) + One(inside) == old(free) && (mixed ==> inside.Some?)
      ensures var expected := Min(|Bytes(old(queue))|, blk_size);
        mixed == (|old(free)| >= 2 && expected > 0) && |music| == if mixed then 2 * Min(mic, expected / 2) else 0
    {
      outside, inside := AllocTwo();
      mixed, music := Mix(outside.Some? && inside.Some?, mic);
    }

    // The mix, if there are blocks for it and music.
    method Mix(ready: bool, mic: nat) returns (mixed: bool, music: seq<bv8>)
      requires Listed() && MusicConserved()
      modifies this`music_free, this`ring, this`queue, ring`next, ring`prev, ring`use_pos
      ensures Listed() && MusicConserved() && Bytes(old(queue)) == music + Bytes(queue)
      ensures var expected := Min(|Bytes(old(queue))|, blk_size);
        mixed == (ready && expected > 0) && |music| == if mixed then 2 * Min(mic, expected / 2) else 0
    {
      var available := MusicSrcGetDataLen();
      var expected_len := Min(available, blk_size);
      mixed := ready && expected_len > 0;
      music := MixMusic(if mixed then 2 * Min(mic, expected_len / 2) else 0);
    }

    // The microphone's block is given back; the other one is played if it holds a mix.
    method Settle(outside: Option<nat>, inside: Option<nat>, mixed: bool, accepted: bool) returns (out: Option<nat>)
      requires Listed() && MusicConserved() && (mixed ==> inside.Some?)
      modifies this`free, this`dac
      ensures Listed() && MusicConserved()
      ensures free + One(out) == old(free) + One(outside) + One(inside) && dac == old(dac) + One(out)
      ensures out.Some? <==> mixed && accepted
    {
      out := None;
      GiveBack(outside);
      if mixed {
        Play(inside.value, accepted);
        if accepted { out := inside; }
      } else {
        GiveBack(inside);
      }
      NoneAdds(free);
      NoneAdds(dac);
    }

    // Two blocks, for the microphone and for the music.
    method AllocTwo() returns (a: Option<nat>, b: Option<nat>)
      requires Listed() && MusicConserved()
      modifies this`free
      ensures Listed() && MusicConserved()
      ensures free + One(a) + One(b) == old(free) && (a.Some? && b.Some? <==> |old(free)| >= 2)
    {
      ghost var f := free;
      a := Alloc();
      b := Alloc();
      TwoTaken(f, a, b);
    }

    // The music for as many bytes as the microphone gave, read into a block.
    method MixMusic(read_bytes: nat) returns (music: seq<bv8>)
      requires Listed() && MusicConserved() && read_bytes <= |Bytes(queue)| && read_bytes <= blk_size
      modifies this`music_free, this`ring, this`queue, ring`next, ring`prev, ring`use_pos
      ensures Listed() && MusicConserved() && Bytes(old(queue)) == music + Bytes(queue) && |music| == read_bytes
    {
      var block := new bv8[blk_size];
      ghost var q, free0 := queue, music_free;
      TakenIsPrefix(q, [], read_bytes);
      var inside_data_len := GetData(block, read_bytes);
      music := block[..inside_data_len];
      Released(free0, clients, Ids(q), TakeFrom(q, [], read_bytes).released, Ids(queue));
    }
  }

  function One(a: Option<nat>): multiset<nat> {
    if a.Some? then multiset{a.value} else multiset{}
  }

  // The list without its first node is in the same list, and the node before it leads on to the same.
  lemma WithinRest(r: seq<Node>, r0: seq<Node>)
    requires |r| > 1 && Within(r, r0)
    ensures Within([r[0]] + r[2..], r0)
  {
  }

  lemma NextOfFirst(r: seq<Node>)
    requires |r| > 1 && Ring(r)
    ensures var s := [r[0]] + r[2..]; r[1].next == s[Succ(0, |s|)]
  {
    assert r[1].next == r[Succ(1, |r|)];
  }

  lemma NoneAdds(x: multiset<nat>)
    ensures x + One(None) == x
  {
  }

  lemma TwoTaken(f: multiset<nat>, a: Option<nat>, b: Option<nat>)
    requires (a.Some? ==> a.value in f) && (b.Some? ==> b.value in f - One(a))
    requires (a.Some? <==> f != multiset{}) && (b.Some? <==> f - One(a) != multiset{})
    ensures (f - One(a) - One(b)) + One(a) + One(b) == f && (a.Some? && b.Some? <==> |f| >= 2)
  {
    assert f == f - One(a) + One(a);
  }

  lemma Settled(free0: multiset<nat>, dac0: multiset<nat>, free: multiset<nat>, dac: multiset<nat>, out: Option<nat>)
    requires free + One(out) == free0 && dac == dac0 + One(out)
    ensures free == free0 - One(out) && free + dac == free0 + dac0
  {
  }

  // Blocks that left the queue for the pool.
  lemma Released(free: multiset<nat>, clients: multiset<nat>, ids: seq<nat>, out: seq<nat>, left: seq<nat>)
    requires out + left == [] + ids
    ensures free + multiset(out) + clients + multiset(left) == free + clients + multiset(ids)
  {
    assert [] + ids == ids;
    assert multiset(out + left) == multiset(out) + multiset(left);
  }

  lemma IdsFirst(out: seq<nat>, q: seq<Chunk>)
    requires q != []
    ensures out + [q[0].id] + Ids(q[1..]) == out + Ids(q)
  {
  }

  // Nodes of another list only.
  ghost predicate Within(r: seq<Node>, r0: seq<Node>) {
    forall i :: 0 <= i < |r| ==> r[i] in r0
  }

  // The target holds the bytes got so far, and what it held after them.
  ghost predicate Filled(data: array<bv8>, was: seq<bv8>, got: seq<bv8>)
    reads data
  {
    |was| == data.Length >= |got| && data[..] == got + was[|got|..]
  }

  lemma FilledMore(data: array<bv8>, was: seq<bv8>, got: seq<bv8>, part: seq<bv8>)
    requires |was| == data.Length >= |got| + |part|
    requires data[..|got|] == got && data[|got|..|got| + |part|] == part
    requires data[|got| + |part|..] == was[|got| + |part|..]
    ensures Filled(data, was, got + part)
  {
    assert data[..] == data[..|got|] + data[|got|..|got| + |part|] + data[|got| + |part|..];
  }

  // The first node is not among the others.
  lemma PayloadRest(r: seq<Node>, q: seq<Chunk>)
    requires Payload(r, q) && q != [] && Distinct(r)
    ensures Payload([r[0]] + r[2..], q[1..]) && forall i {:trigger q[i]} :: 1 <= i < |q| ==> r[i + 1] != r[1]
  {
    forall i | 0 <= i < |q| - 1 ensures Holds(([r[0]] + r[2..])[i + 1], q[1..][i]) { assert Holds(r[i + 1 + 1], q[i + 1]); }
  }

  // A client's block goes to the pool or to the queue.
  lemma FromClient(free: multiset<nat>, clients: multiset<nat>, ids: seq<nat>, id: nat)
    requires id in clients
    ensures var left := clients - multiset{id};
      (free + multiset{id}) + left + multiset(ids) == free + clients + multiset(ids) == free + left + multiset(ids + [id])
  {
    assert clients == clients - multiset{id} + multiset{id};
  }

  ghost predicate Holds(node: Node, c: Chunk)
    reads node`buf, node`len, node`use_pos
  {
    && node.use_pos < node.len <= |node.buf.bytes| && c == Chunk(node.buf.id, node.buf.bytes[node.use_pos..node.len])
  }

  // The nodes after the head hold the queue.
  ghost predicate Payload(r: seq<Node>, q: seq<Chunk>)
    reads r`buf, r`len, r`use_pos
  {
    |r| == |q| + 1 && forall i {:trigger q[i]} :: 0 <= i < |q| ==> Holds(r[i + 1], q[i])
  }
}
