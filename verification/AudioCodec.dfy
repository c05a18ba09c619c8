/** The audio codec driver: the write call and the two DMA interrupt handlers, on the fifo in memory. */
module AudioCodec {
  import opened AudioQueue
  import opened AudioStaging

  class Codec {
    const node_list: NodeList
    const send_fifo: array<bv8>
    var paused: bool
    var fill_pos: nat
    var fill_size: nat
    var pause_addr: nat
    // the half the DMA is in, and what it has played
    var second: bool
    ghost var played: Buf
    // a write has queued its buffer and not yet topped up the fifo
    ghost var writing: bool

    constructor (slots: nat)
      requires slots > 0
      ensures Valid() && Here() == Start(slots) && fresh(node_list) && fresh(node_list.node) && fresh(send_fifo)
    {
      node_list := new NodeList(slots);
      send_fifo := new bv8[SEND_BUFFER_SIZE](i => 0);
      paused, fill_pos, fill_size, pause_addr := false, 0, 0, 0;
      second, played, writing := false, [], false;
      new;
      assert send_fifo[..] == Zeros(SEND_BUFFER_SIZE);
    }

    ghost predicate Valid()
      reads this, node_list, node_list.node, send_fifo
    {
      && node_list.Valid() && node_list.Outside(send_fifo) && send_fifo.Length == SEND_BUFFER_SIZE
      && Inv(Here())
    }

    ghost function Here(): State
      reads this, node_list, send_fifo
    {
      State(node_list.queue, node_list.data_offset, node_list.accepted, node_list.completed, node_list.node.Length,
            send_fifo[..], paused, fill_pos, fill_size, second, pause_addr, played, writing)
    }

    // The first half of audio_codec_write
    method WriteNode(buffer: Buf) returns (ok: bool)
      requires Valid() && !writing
      modifies this`writing, node_list, node_list.node
      ensures Valid() && Here() == Enqueued(old(Here()), buffer)
      ensures ok == (|old(node_list.queue)| + 1 < node_list.node.Length)
    {
      EnqueueInv(Here(), buffer);
      ok := node_list.Write(buffer);
      writing := true;
    }

    // The second half of audio_codec_write
    method FillGap()
      requires Valid() && writing
      modifies this, node_list, send_fifo
      ensures Valid() && Here() == ToppedUp(old(Here()))
    {
      TopUpInv(Here());
      TopUpFifo();
    }

    method TopUpFifo()
      requires node_list.Valid() && node_list.Outside(send_fifo) && send_fifo.Length == SEND_BUFFER_SIZE
      requires Shaped(Here())
      modifies this, node_list, send_fifo
      ensures node_list.Valid() && Here() == ToppedUp(old(Here()))
    {
      if paused {
        ReadIsPrefix(node_list.queue, node_list.data_offset, node_list.completed, fill_size);
        var result := node_list.Read(send_fifo, fill_pos, fill_size);
        if result == fill_size {
          paused := false;
          pause_addr := 0;
        } else {
          fill_pos := fill_pos + result;
          fill_size := fill_size - result;
        }
      }
      writing := false;
    }

    // memset of a half
    method Clear(base: nat)
      requires base + HALF <= send_fifo.Length
      modifies send_fifo
      ensures send_fifo[..] == Overwrite(old(send_fifo[..]), base, Zeros(HALF))
    {
      forall i | base <= i < base + HALF { send_fifo[i] := 0; }
    }

    // dac_dma_half_handler and dac_dma_finish_handler: they differ in the half they fill and in the
    // pause address only.
    method Handler(base: nat, pause_at: nat)
      requires node_list.Valid() && node_list.Outside(send_fifo) && send_fifo.Length == SEND_BUFFER_SIZE
      requires base == Base(!second) && pause_at == PauseAt(second)
      modifies this`paused, this`fill_pos, this`fill_size, this`pause_addr, node_list, send_fifo
      ensures node_list.Valid()
      ensures Shaped(old(Here())) ==> Here() == Refilled(old(Here()), !second)
    {
      var empty := node_list.IsEmpty();
      if empty {
        pause_addr := pause_at;
        paused := true;
        fill_pos := base;
        fill_size := HALF;
        Clear(base);
      } else {
        Refill(base, pause_at);
      }
    }

    // The handler when there is something to play.
    method Refill(base: nat, pause_at: nat)
      requires node_list.Valid() && node_list.Outside(send_fifo) && send_fifo.Length == SEND_BUFFER_SIZE
      requires base == Base(!second) && pause_at == PauseAt(second)
      modifies this`paused, this`fill_pos, this`fill_size, this`pause_addr, node_list, send_fifo
      ensures node_list.Valid()
      ensures Shaped(old(Here())) ==> Here() == Refilled(old(Here()), !second)
    {
      Clear(base);
      var result := node_list.Read(send_fifo, base, HALF);
      if result < HALF {
        pause_addr := pause_at;
        paused := true;
        fill_pos := base + result;
        fill_size := HALF - result;
      }
    }

    // The DMA has played a half.
    method Interrupt()
      requires Valid() && pause_addr != PauseAt(second)
      modifies this, node_list, send_fifo
      ensures Valid() && Here() == Interrupted(old(Here()))
    {
      InterruptInv(Here());
      played := played + Half(Here(), second);
      second := !second;
      Handler(Base(!second), PauseAt(second));
    }

    // audio_codec_write, without an interrupt in it
    method Write(buffer: Buf) returns (ok: bool)
      requires Valid() && !writing
      modifies this, node_list, node_list.node, send_fifo
      ensures Valid() && Here() == ToppedUp(Enqueued(old(Here()), buffer))
    {
      ok := WriteNode(buffer);
      FillGap();
    }
  }
}
