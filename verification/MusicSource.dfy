/** The music-source list of the mixer as a queue of bytes, and what taking bytes from it does. */
module MusicSource {
  import opened Sequences

  // The unread bytes of a queued block of the pool.
  datatype Chunk = Chunk(id: nat, bytes: seq<bv8>)

  function Bytes(q: seq<Chunk>): seq<bv8> {
    if q == [] then [] else q[0].bytes + Bytes(q[1..])
  }

  function Ids(q: seq<Chunk>): (ids: seq<nat>)
    ensures |ids| == |q|
  {
    seq(|q|, i requires 0 <= i < |q| => q[i].id)
  }

  // Taking under way: the queue, the blocks released so far, the bytes got and those expected.
  datatype Taking = Taking(q: seq<Chunk>, released: seq<nat>, got: seq<bv8>, n: nat, more: bool)

  predicate Going(t: Taking) {
    t.more ==> t.q != [] && t.n > 0
  }

  // The body of the loop of mixer_music_src_get_data.
  function Turned(t: Taking): (u: Taking)
    requires Going(t) && t.more
    ensures Going(u) && (|u.q| < |t.q| || !u.more)
  {
    var c := t.q[0];
    if |c.bytes| > t.n then
      Taking([Chunk(c.id, c.bytes[t.n..])] + t.q[1..], t.released, t.got + c.bytes[..t.n], 0, false)
    else
      Taking(t.q[1..], t.released + [c.id], t.got + c.bytes, t.n - |c.bytes|, |c.bytes| < t.n && |t.q| > 1)
  }

  function Finished(t: Taking): (u: Taking)
    requires Going(t)
    ensures Going(u) && !u.more
    decreases |t.q|, t.more
  {
    if t.more then Finished(Turned(t)) else t
  }

  function TakeFrom(q: seq<Chunk>, released: seq<nat>, n: nat): Taking {
    Finished(Taking(q, released, [], n, q != [] && n > 0))
  }

  // No byte is lost, and the blocks leave the queue in order, once each.
  ghost predicate Same(t: Taking, u: Taking) {
    && u.got + Bytes(u.q) == t.got + Bytes(t.q) && u.released + Ids(u.q) == t.released + Ids(t.q)
    && |u.got| + u.n == |t.got| + t.n && (!u.more ==> u.n == 0 || u.q == [])
  }

  lemma TurnKeeps(t: Taking)
    requires Going(t) && t.more
    ensures Same(t, Turned(t))
  {
    var u, c := Turned(t), t.q[0];
    if |c.bytes| > t.n {
      assert u.q[1..] == t.q[1..] && c.bytes == c.bytes[..t.n] + c.bytes[t.n..];
      Associative(t.got, c.bytes[..t.n], Bytes(u.q));
      Associative(c.bytes[..t.n], c.bytes[t.n..], Bytes(t.q[1..]));
      assert Ids(u.q) == Ids(t.q);
    } else {
      Associative(t.got, c.bytes, Bytes(t.q[1..]));
      assert t.released + [c.id] + Ids(t.q[1..]) == t.released + Ids(t.q);
    }
  }

  lemma {:induction false} FinishedKeeps(t: Taking)
    requires Going(t) && (!t.more ==> t.n == 0 || t.q == [])
    ensures Same(t, Finished(t))
    decreases |t.q|, t.more
  {
    if t.more {
      TurnKeeps(t);
      FinishedKeeps(Turned(t));
    }
  }

  // The list is a FIFO of bytes: the first min(n, available) bytes are taken and the rest stays;
  // every block leaves the queue once, in order.
  lemma TakenIsPrefix(q: seq<Chunk>, released: seq<nat>, n: nat)
    ensures var t := TakeFrom(q, released, n);
      |t.got| == Min(n, |Bytes(q)|) && Bytes(q) == t.got + Bytes(t.q) && t.released + Ids(t.q) == released + Ids(q)
  {
    var t := Taking(q, released, [], n, q != [] && n > 0);
    FinishedKeeps(t);
    var u := Finished(t);
    assert [] + Bytes(q) == Bytes(q);
    assert |Bytes(q)| == |u.got| + |Bytes(u.q)|;
  }
}
