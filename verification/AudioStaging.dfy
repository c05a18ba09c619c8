/** The DMA double buffer of the audio codec: written buffers are staged into two halves that the DMA
    plays in turn; on underrun the driver sets a pause address and fills the gap later. */
module AudioStaging {
  import opened Sequences
  import opened AudioQueue

  const HALF := 1024
  const SEND_BUFFER_SIZE := 2 * HALF

  // The driver, the DMA's place, and what has been played so far. Positions are offsets into the
  // send fifo; a pause address of 0 is none.
  datatype State = State(queue: seq<Buf>, off: nat, accepted: seq<Buf>, completed: seq<Buf>, slots: nat,
                         fifo: Buf, paused: bool, fill_pos: nat, fill_size: nat,
                         second: bool, pause: nat, played: Buf, writing: bool)

  // A write is two steps, as an interrupt can come between them.
  datatype Step = Enqueue(buffer: Buf) | TopUp | Interrupt

  function Base(second: bool): nat {
    if second then HALF else 0
  }

  // The last word of a half.
  function PauseAt(second: bool): nat {
    Base(second) + HALF - 4
  }

  // A new step of a write waits for the last one; the DMA completes a half unless it is to pause there.
  predicate Enabled(s: State, step: Step) {
    match step
    case Enqueue(_) => !s.writing
    case TopUp => s.writing
    case Interrupt => s.pause != PauseAt(s.second)
  }

  predicate Shaped(s: State) {
    && |s.fifo| == SEND_BUFFER_SIZE && OffsetOk(s.queue, s.off)
    && (s.paused ==> s.fill_pos + s.fill_size <= SEND_BUFFER_SIZE)
  }

  // rt_data_node_write
  function Enqueued(s: State, buffer: Buf): State {
    if |s.queue| + 1 < s.slots then
      s.(queue := s.queue + [buffer], accepted := s.accepted + [buffer], writing := true)
    else s.(writing := true)
  }

  // A read into the fifo.
  function Loaded(s: State, at: nat, n: nat): (r: State)
    requires Shaped(s) && at + n <= SEND_BUFFER_SIZE
  {
    var r := TakeFrom(s.queue, s.off, s.completed, n);
    ReadIsPrefix(s.queue, s.off, s.completed, n);
    s.(queue := r.q, off := r.off, completed := r.c, fifo := Overwrite(s.fifo, at, r.got))
  }

  function Got(s: State, n: nat): (k: nat)
    requires Shaped(s)
    ensures k <= n
  {
    ReadIsPrefix(s.queue, s.off, s.completed, n);
    |TakeFrom(s.queue, s.off, s.completed, n).got|
  }

  // The rest of audio_codec_write
  function ToppedUp(s: State): State
    requires Shaped(s)
  {
    var u := s.(writing := false);
    if !s.paused then u
    else
      var k := Got(s, s.fill_size);
      var v := Loaded(u, s.fill_pos, s.fill_size);
      if k == s.fill_size then v.(paused := false, pause := 0)
      else v.(fill_pos := s.fill_pos + k, fill_size := s.fill_size - k)
  }

  function Zeros(n: nat): (z: Buf)
    ensures |z| == n
  {
    seq(n, i => 0)
  }

  // The fifo with a half cleared.
  function Cleared(s: State, second: bool): State
    requires Shaped(s)
  {
    s.(fifo := Overwrite(s.fifo, Base(second), Zeros(HALF)))
  }

  // The interrupt handlers, which fill the half that has been played.
  function Refilled(s: State, second: bool): State
    requires Shaped(s)
  {
    var k := Got(s, HALF);
    var u := Loaded(Cleared(s, second), Base(second), HALF);
    if k < HALF then
      u.(pause := PauseAt(!second), paused := true, fill_pos := Base(second) + k, fill_size := HALF - k)
    else u
  }

  // The bytes of a half.
  function Half(s: State, second: bool): Buf
    requires Shaped(s)
  {
    s.fifo[Base(second)..Base(second) + HALF]
  }

  // The DMA completes a half and goes on to the other.
  function Interrupted(s: State): State
    requires Shaped(s)
  {
    Refilled(s.(played := s.played + Half(s, s.second), second := !s.second), s.second)
  }

  function Next(s: State, step: Step): State
    requires Shaped(s)
  {
    match step
    case Enqueue(buffer) => Enqueued(s, buffer)
    case TopUp => ToppedUp(s)
    case Interrupt => Interrupted(s)
  }

  function Start(slots: nat): (s: State)
    ensures Inv(s)
  {
    var s := State([], 0, [], [], slots, Zeros(SEND_BUFFER_SIZE), false, 0, 0, false, 0, [], false);
    assert s.fifo == Half(s, false) + Half(s, true);
    assert Zeros(SEND_BUFFER_SIZE) + Concat(s.accepted) == s.fifo;
    assert Staged(s) + Unread(s.queue, s.off) == Half(s, false) + Half(s, true);
    s
  }

  // ---------- what every run keeps ----------

  // While paused, a part of the half that is not playing is missing, up to its end, and the DMA is
  // to pause at the end of the other; the queue is empty unless a write is under way.
  predicate Safe(s: State) {
    && Shaped(s)
    && (if s.paused
        then s.fill_size > 0 && s.fill_pos >= Base(!s.second) && s.fill_pos + s.fill_size == Base(!s.second) + HALF
             && s.pause == PauseAt(s.second) && (s.writing || s.queue == [])
        else s.pause == 0)
  }

  // How much of the half that is not playing is ready.
  function Filled(s: State): (n: nat)
    requires Safe(s)
    ensures n <= HALF
  {
    if s.paused then s.fill_pos - Base(!s.second) else HALF
  }

  // What the DMA has played or will play before it reaches anything missing.
  function Staged(s: State): Buf
    requires Safe(s)
  {
    s.played + Half(s, s.second) + s.fifo[Base(!s.second)..Base(!s.second) + Filled(s)]
  }

  // No byte is lost, repeated or moved, and the padding is not among them: two halves of zeros and
  // the accepted buffers are what has been played, what is playing, what is ready, and the queue.
  predicate Conserved(s: State)
    requires Safe(s)
  {
    && Zeros(SEND_BUFFER_SIZE) + Concat(s.accepted) == Staged(s) + Unread(s.queue, s.off)
    && s.accepted == s.completed + s.queue && |s.played| % HALF == 0
  }

  predicate Inv(s: State) {
    Safe(s) && Conserved(s)
  }

  lemma EnqueueInv(s: State, buffer: Buf)
    requires Inv(s) && !s.writing
    ensures Inv(Enqueued(s, buffer))
  {
    var u := Enqueued(s, buffer);
    UnreadAppend(s.queue, s.off, buffer);
    ConcatAppend(s.accepted, [buffer]);
    ConcatOne(buffer);
    Associative(Zeros(SEND_BUFFER_SIZE), Concat(s.accepted), buffer);
    Associative(Staged(s), Unread(s.queue, s.off), buffer);
    assert Staged(u) == Staged(s);
    assert s.completed + (s.queue + [buffer]) == s.completed + s.queue + [buffer];
  }

  // Bytes read into the fifo move from the queue to what is staged.
  lemma StreamMoves(before: Buf, got: Buf, unread: Buf, rest: Buf, all: Buf, x: Buf)
    requires all == (before + x) + unread && unread == got + rest
    ensures all == (before + (x + got)) + rest
  {
    Associative(before + x, got, rest);
    Associative(before, x, got);
  }

  lemma TopUpInv(s: State)
    requires Inv(s) && s.writing
    ensures Inv(ToppedUp(s))
  {
    if s.paused {
      ReadIsPrefix(s.queue, s.off, s.completed, s.fill_size);
      var r, u := TakeFrom(s.queue, s.off, s.completed, s.fill_size), ToppedUp(s);
      var b := Base(!s.second);
      assert u.fifo == Overwrite(s.fifo, s.fill_pos, r.got);
      OverwriteElsewhere(s.fifo, s.fill_pos, r.got, Base(s.second), Base(s.second) + HALF);
      OverwriteAfter(s.fifo, s.fill_pos, r.got, b);
      assert b + Filled(u) == s.fill_pos + |r.got|;
      StreamMoves(s.played + Half(s, s.second), r.got, Unread(s.queue, s.off), Unread(r.q, r.off),
                  Zeros(SEND_BUFFER_SIZE) + Concat(s.accepted), s.fifo[b..s.fill_pos]);
    } else {
      assert Staged(ToppedUp(s)) == Staged(s);
    }
  }

  lemma OverwriteAfter(f: Buf, at: nat, x: Buf, i: nat)
    requires i <= at && at + |x| <= |f|
    ensures Overwrite(f, at, x)[i..at + |x|] == f[i..at] + x
  {
  }

  lemma OverwriteElsewhere(f: Buf, at: nat, x: Buf, i: nat, j: nat)
    requires at + |x| <= |f| && i <= j <= |f| && (j <= at || at + |x| <= i)
    ensures Overwrite(f, at, x)[i..j] == f[i..j]
  {
  }

  // What the fifo holds after an interrupt.
  lemma InterruptFifo(s: State)
    requires Inv(s) && s.pause != PauseAt(s.second)
    ensures var r, u := TakeFrom(s.queue, s.off, s.completed, HALF), Interrupted(s);
      |r.got| <= HALF && |u.fifo| == SEND_BUFFER_SIZE && u.fifo[Base(!s.second)..Base(!s.second) + HALF] == Half(s, !s.second)
      && u.fifo[Base(s.second)..Base(s.second) + |r.got|] == r.got
  {
    ReadIsPrefix(s.queue, s.off, s.completed, HALF);
    var r, b := TakeFrom(s.queue, s.off, s.completed, HALF), Base(s.second);
    var c := Overwrite(s.fifo, b, Zeros(HALF));
    OverwriteElsewhere(s.fifo, b, Zeros(HALF), Base(!s.second), Base(!s.second) + HALF);
    OverwriteElsewhere(c, b, r.got, Base(!s.second), Base(!s.second) + HALF);
    assert Interrupted(s).fifo == Overwrite(c, b, r.got);
  }

  lemma InterruptSafe(s: State)
    requires Inv(s) && s.pause != PauseAt(s.second)
    ensures Safe(Interrupted(s)) && Filled(Interrupted(s)) == |TakeFrom(s.queue, s.off, s.completed, HALF).got|
  {
    ReadIsPrefix(s.queue, s.off, s.completed, HALF);
    InterruptFifo(s);
  }

  // The stream of a state in which the other half plays on and `got` has been taken from the queue.
  lemma SwitchConserved(s: State, u: State, got: Buf)
    requires Inv(s) && Safe(u) && u.second == !s.second && u.played == s.played + Half(s, s.second)
    requires Half(u, u.second) == Half(s, !s.second) && Filled(s) == HALF && Filled(u) == |got|
    requires u.fifo[Base(s.second)..Base(s.second) + |got|] == got
    requires Unread(s.queue, s.off) == got + Unread(u.queue, u.off) && u.accepted == s.accepted
    requires u.accepted == u.completed + u.queue
    ensures Conserved(u)
  {
    var other := Half(s, !s.second);
    assert Staged(s) == u.played + other && Staged(u) == u.played + other + got;
    Associative(u.played + other, got, Unread(u.queue, u.off));
  }

  lemma InterruptInv(s: State)
    requires Inv(s) && s.pause != PauseAt(s.second)
    ensures Inv(Interrupted(s))
  {
    ReadIsPrefix(s.queue, s.off, s.completed, HALF);
    InterruptFifo(s);
    InterruptSafe(s);
    SwitchConserved(s, Interrupted(s), TakeFrom(s.queue, s.off, s.completed, HALF).got);
  }

  lemma StepInv(s: State, step: Step)
    requires Inv(s) && Enabled(s, step)
    ensures Inv(Next(s, step))
  {
    match step
    case Enqueue(buffer) => EnqueueInv(s, buffer);
    case TopUp => TopUpInv(s);
    case Interrupt => InterruptInv(s);
  }

  // ---------- whole runs ----------

  // Every step of the run is enabled when it comes.
  predicate Possible(s: State, steps: seq<Step>)
    requires Inv(s)
    decreases |steps|
  {
    steps == [] ||
    (Enabled(s, steps[0]) &&
     (StepInv(s, steps[0]);
      Possible(Next(s, steps[0]), steps[1..])))
  }

  // The state after a run of writes and interrupts, in any order.
  function After(s: State, steps: seq<Step>): (u: State)
    requires Inv(s) && Possible(s, steps)
    ensures Inv(u)
    decreases |steps|
  {
    if steps == [] then s
    else
      StepInv(s, steps[0]);
      After(Next(s, steps[0]), steps[1..])
  }

  // In every run, the DMA plays whole halves: first the two of zeros the fifo starts with, then
  // consecutive pieces of the accepted buffers. Padding is never played.
  lemma PlayedHalves(slots: nat, steps: seq<Step>, k: nat)
    requires Possible(Start(slots), steps)
    requires (k + 1) * HALF <= |After(Start(slots), steps).played|
    ensures var s := After(Start(slots), steps);
      |s.played| % HALF == 0 && |s.played| <= SEND_BUFFER_SIZE + |Concat(s.accepted)| &&
      s.played[k * HALF..(k + 1) * HALF] ==
        if k < 2 then Zeros(HALF) else Concat(s.accepted)[(k - 2) * HALF..(k - 1) * HALF]
  {
    var s := After(Start(slots), steps);
    PlayedFirst(s);
    ZerosFirst(Concat(s.accepted), k);
    SlicePrefix(s.played, Zeros(SEND_BUFFER_SIZE) + Concat(s.accepted), k * HALF, (k + 1) * HALF);
  }

  lemma SlicePrefix(p: Buf, all: Buf, i: nat, j: nat)
    requires p <= all && i <= j <= |p|
    ensures p[i..j] == all[i..j]
  {
  }

  // The halves of a stream that starts with two halves of zeros.
  lemma ZerosFirst(bytes: Buf, k: nat)
    requires (k + 1) * HALF <= SEND_BUFFER_SIZE + |bytes|
    ensures var all := Zeros(SEND_BUFFER_SIZE) + bytes;
      all[k * HALF..(k + 1) * HALF] == if k < 2 then Zeros(HALF) else bytes[(k - 2) * HALF..(k - 1) * HALF]
  {
  }

  lemma PlayedFirst(s: State)
    requires Inv(s)
    ensures s.played <= Zeros(SEND_BUFFER_SIZE) + Concat(s.accepted)
    ensures |s.played| + HALF <= SEND_BUFFER_SIZE + |Concat(s.accepted)|
  {
    var rest := s.fifo[Base(!s.second)..Base(!s.second) + Filled(s)];
    Associative(s.played, Half(s, s.second), rest);
    Associative(s.played, Half(s, s.second) + rest, Unread(s.queue, s.off));
  }

  // The DMA is held back exactly while the driver is paused, at the half that is playing; between
  // writes, the queue is then empty, all accepted bytes are staged, and the next buffer fills the gap.
  lemma PausedWhenDry(slots: nat, steps: seq<Step>)
    requires Possible(Start(slots), steps)
    ensures var s := After(Start(slots), steps);
      (s.paused <==> !Enabled(s, Interrupt)) &&
      (s.paused && !s.writing ==>
        s.queue == [] && s.fill_size > 0 && s.fill_pos + s.fill_size == Base(!s.second) + HALF &&
        Zeros(SEND_BUFFER_SIZE) + Concat(s.accepted) == Staged(s) && s.completed == s.accepted)
  {
    var s := After(Start(slots), steps);
    assert Staged(s) + [] == Staged(s);
    assert s.completed + [] == s.completed;
  }

  // Every accepted buffer is completed at most once and in order: the completed ones are the first
  // of the accepted ones.
  lemma CompletedInOrder(slots: nat, steps: seq<Step>)
    requires Possible(Start(slots), steps)
    ensures var s := After(Start(slots), steps); s.completed <= s.accepted
  {
  }
}
