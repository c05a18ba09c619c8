/** The sound mixer at work: the ring of samples in memory, and the two playing functions. */
module SoundDelayLine {
  import opened SoundDelay

  const MAX_FIFO_SIZE := 8641

  // Interleaved samples as frames.
  function Frames(s: seq<Sample>): (r: seq<Frame>)
    ensures |r| == |s| / 2
  {
    seq(|s| / 2, i requires 0 <= i < |s| / 2 => Frame(s[2 * i], s[2 * i + 1]))
  }

  // A call's buffer is a whole number of frames, as long as its 16-bit counter can count.
  predicate WholeFrames(s: array<Sample>) {
    s.Length % 2 == 0 && s.Length <= 32766
  }

  class Mixer {
    const fifo: array<Sample>
    var op: nat
    var sample_len: nat
    var started: bool
    var micphone_vol: nat
    var pcm_vol: nat
    // the right samples since the start, and the echo of them
    ghost var history: seq<Sample>
    ghost var echo: seq<Sample>

    constructor ()
      ensures Valid() && fresh(fifo) && !started
    {
      fifo := new Sample[MAX_FIFO_SIZE](i => 0);
      op, sample_len, started, micphone_vol, pcm_vol, history, echo := 0, 0, false, 50, 30, [], [];
    }

    // Once started, the ring holds the last samples of the echo.
    ghost predicate Valid()
      reads this, fifo
    {
      && op <= sample_len < fifo.Length == MAX_FIFO_SIZE && micphone_vol <= 32768 && pcm_vol < 0x1_0000
      && (started ==> IsEcho(echo, history, sample_len + 1) && Holds(fifo[..], op, sample_len, echo))
    }

    // sdly_config
    method Config(freq: nat)
      requires Valid()
      modifies this, fifo
      ensures Valid() && !started && sample_len == (if freq == 8000 then 1440 else 7938)
    {
      forall i | 0 <= i < (if freq == 8000 then 1441 else MAX_FIFO_SIZE) && i < fifo.Length { fifo[i] := 0; }
      sample_len := if freq == 8000 then 8000 * 180 / 1000 else 44100 * 180 / 1000;
      op := sample_len;
      started := false;
    }

    // sdly_start_play
    method StartPlay()
      requires Valid()
      modifies this`op, this`started, this`history, this`echo, fifo
      ensures Valid() && started && history == []
    {
      forall i | 0 <= i <= sample_len { fifo[i] := 0; }
      op := sample_len;
      started := true;
      history, echo := [], [];
    }

    // A sample is stored at the op index, which steps down.
    method Put(sample: Sample)
      requires op <= sample_len < fifo.Length && Holds(fifo[..], op, sample_len, echo)
      modifies this`op, fifo
      ensures op <= sample_len && Holds(fifo[..], op, sample_len, echo + [sample])
    {
      RingStep(fifo[..], op, sample_len, echo, sample);
      ghost var f := fifo[..][op := sample];
      fifo[op] := sample;
      assert fifo[..] == f;
      op := if op == 0 then sample_len else op - 1;
    }

    // The feedback for a frame goes into the slot it came from, and the slot before is next.
    method Tick(right: Sample)
      requires Valid()
      modifies this`op, this`history, this`echo, fifo
      ensures Valid() && history == if started then old(history) + [right] else old(history)
      ensures started ==> |echo| == |old(echo)| + 1 && echo[..|old(echo)|] == old(echo)
      ensures !started ==> op == old(op) && fifo[op] == old(fifo[op])
    {
      if started {
        assert fifo[op] == fifo[..][SlotOf(op, sample_len, 0)];
        EchoStep(echo, history, right, sample_len + 1);
        var half: int := fifo[op] / 2;
        var mix: Sample := Saturate(half + right);
        Put(mix);
        history, echo := history + [right], echo + [mix];
      }
    }

    // The sample the echo plays now, for a left sample. No product leaves 32 bits.
    method Voice(left: Sample) returns (temp: Sample)
      requires Valid()
      ensures temp == Mix(fifo[op], left, micphone_vol)
      ensures started ==> temp == Mix(Past(echo, |history| - sample_len - 1), left, micphone_vol)
    {
      assert fifo[op] == fifo[..][SlotOf(op, sample_len, 0)];
      ProductBound(fifo[op] + left, micphone_vol);
      var t: int := (fifo[op] + left) * micphone_vol;
      assert Int32(t);
      temp := Saturate(t / 16);
    }

    // The first n frames have been played.
    ghost predicate Playing(p: Session, n: nat, out: seq<Sample>)
      reads this, fifo
    {
      && Valid() && n <= |p.frames| && started == p.started && micphone_vol == p.vol && sample_len + 1 == p.N
      && (if started then history == p.h + Rights(p.frames[..n]) else fifo[op] == p.delayed)
      && Voiced(out, p.frames, n, started, p.h, echo, p.delayed, p.vol, p.N)
    }

    // A frame of the microphone.
    method PlayFrame(left: Sample, right: Sample, ghost p: Session, ghost n: nat, ghost out: seq<Sample>)
        returns (temp: Sample)
      requires Playing(p, n, out) && n < |p.frames| && p.frames[n] == Frame(left, right)
      modifies this`op, this`history, this`echo, fifo
      ensures Playing(p, n + 1, out + [temp])
    {
      ghost var e := echo;
      temp := Voice(left);
      Tick(right);
      assert (out + [temp])[..n] == out;
      VoicedMore(out + [temp], p.frames, n, started, p.h, e, echo, p.delayed, p.vol, p.N);
      RightsMore(p.h, p.frames, n);
    }

    ghost function Start(frames: seq<Frame>): Session
      requires Valid()
      reads this, fifo
    {
      Session(frames, history, started, fifo[op], micphone_vol, sample_len + 1)
    }

    // sdly_mixer_single_playing
    method SinglePlaying(sample: array<Sample>)
      requires Valid() && sample != fifo && WholeFrames(sample)
      modifies this`op, this`history, this`echo, fifo, sample
      ensures Valid() && (started ==> history == old(history) + Rights(Frames(old(sample[..]))))
      ensures var out := Voices(old(Start(Frames(sample[..]))));
        2 * |out| == sample.Length && Doubled(sample[..], old(sample[..]), out)
    {
      ghost var p, out: seq<Sample> := Start(Frames(sample[..])), [];
      var i := 0;
      assert p.h + Rights(p.frames[..0]) == p.h;
      while i < sample.Length
        invariant i == 2 * |out| && i <= sample.Length && Playing(p, |out|, out)
        invariant Doubled(sample[..], old(sample[..]), out)
      {
        assert sample[i] == sample[..][i] && sample[i + 1] == sample[..][i + 1];
        assert p.frames[|out|] == Frame(sample[i], sample[i + 1]);
        DoubleFrame(sample, i, p, old(sample[..]), out);
        var temp := sample[i];
        out := out + [temp];
        i := i + 2;
      }
      assert p.frames[..|p.frames|] == p.frames;
      VoicedAll(out, p, echo);
    }

    // sdly_mixer_multi_playing: the echo of the microphone is added to the music at its volume.
    method MultiPlaying(adc: array<Sample>, audio: array<Sample>)
      requires Valid() && adc != fifo && audio != fifo && adc != audio
      requires WholeFrames(adc) && adc.Length <= audio.Length
      modifies this`op, this`history, this`echo, fifo, audio
      ensures Valid() && (started ==> history == old(history) + Rights(Frames(adc[..])))
      ensures Added(audio[..], old(audio[..]), Voices(old(Start(Frames(adc[..])))), pcm_vol)
    {
      ghost var p, out: seq<Sample> := Start(Frames(adc[..])), [];
      var i := 0;
      assert p.h + Rights(p.frames[..0]) == p.h;
      while i < adc.Length
        invariant i == 2 * |out| && i <= adc.Length && Playing(p, |out|, out)
        invariant Added(audio[..], old(audio[..]), out, pcm_vol)
      {
        assert p.frames[|out|] == Frame(adc[i], adc[i + 1]);
        var temp := PlayFrame(adc[i], adc[i + 1], p, |out|, out);
        AddFrame(audio, i, temp, p, old(audio[..]), out);
        out := out + [temp];
        i := i + 2;
      }
      assert p.frames[..|p.frames|] == p.frames;
      VoicedAll(out, p, echo);
    }

    // The echo over both samples of a frame of music.
    method AddFrame(audio: array<Sample>, i: nat, temp: Sample, ghost p: Session, ghost was: seq<Sample>, ghost out: seq<Sample>)
      requires Playing(p, |out| + 1, out + [temp]) && audio != fifo && i == 2 * |out| && i + 1 < audio.Length
      requires Added(audio[..], was, out, pcm_vol)
      modifies audio
      ensures Playing(p, |out| + 1, out + [temp]) && Added(audio[..], was, out + [temp], pcm_vol)
    {
      ghost var s := audio[..];
      assert s[i] == was[i] && s[i + 1] == was[i + 1];
      AddedMore(s, was, out, temp, pcm_vol);
      audio[i] := AddMusic(audio[i], temp);
      audio[i + 1] := AddMusic(audio[i + 1], temp);
      assert audio[..] == s[i := Over(was[i], temp, pcm_vol)][i + 1 := Over(was[i + 1], temp, pcm_vol)];
    }

    // A frame of the microphone, with the echo in both samples.
    method DoubleFrame(sample: array<Sample>, i: nat, ghost p: Session, ghost was: seq<Sample>, ghost out: seq<Sample>)
      requires Playing(p, |out|, out) && sample != fifo && i == 2 * |out| && i + 1 < sample.Length && |out| < |p.frames|
      requires Doubled(sample[..], was, out) && p.frames[|out|] == Frame(sample[i], sample[i + 1])
      modifies this`op, this`history, this`echo, fifo, sample
      ensures Playing(p, |out| + 1, out + [sample[i]]) && Doubled(sample[..], was, out + [sample[i]])
    {
      ghost var s := sample[..];
      var temp := PlayFrame(sample[i], sample[i + 1], p, |out|, out);
      DoubledMore(s, was, out, temp);
      sample[i] := temp;
      sample[i + 1] := temp;
      assert sample[..] == s[i := temp][i + 1 := temp];
    }

    // A sample of music with the voice over it, in 32 bits.
    method AddMusic(music: Sample, temp: Sample) returns (r: Sample)
      requires Valid()
      ensures r == Over(music, temp, pcm_vol)
    {
      MusicBound(music, pcm_vol);
      var data: int := music * pcm_vol;
      assert Int32(data);
      data := data / 16 + temp;
      assert Int32(data);
      r := Saturate(data);
    }
  }

  // What a stopped mixer plays: the delayed sample does not change.
  function Dry(delayed: Sample, frames: seq<Frame>, vol: nat): (r: seq<Sample>)
    ensures |r| == |frames|
  {
    seq(|frames|, i requires 0 <= i < |frames| => Mix(delayed, frames[i].left, vol))
  }

  // Both samples of the first frames are the output sample; the others are as they were.
  ghost predicate Doubled(s: seq<Sample>, was: seq<Sample>, out: seq<Sample>) {
    && |s| == |was| && 2 * |out| <= |s|
    && (forall f :: 0 <= f < |out| ==> s[2 * f] == s[2 * f + 1] == out[f])
    && (forall k :: 2 * |out| <= k < |s| ==> s[k] == was[k])
  }

  lemma DoubledMore(s: seq<Sample>, was: seq<Sample>, out: seq<Sample>, x: Sample)
    requires Doubled(s, was, out) && 2 * |out| + 1 < |s|
    ensures Doubled(s[2 * |out| := x][2 * |out| + 1 := x], was, out + [x])
  {
  }

  function Over(music: Sample, voice: Sample, pcm_vol: nat): (r: Sample)
    ensures Nearest(r, music * pcm_vol / 16 + voice)
  {
    Saturate(music * pcm_vol / 16 + voice)
  }

  lemma MusicBound(music: Sample, vol: nat)
    requires vol < 0x1_0000
    ensures Int32(music * vol)
  {
    var m: int := music;
    if m >= 0 {
      MulMono(m, 32767, vol, 0xFFFF);
    } else {
      MulMono(-m, 32768, vol, 0xFFFF);
      assert m * vol == -((-m) * vol);
    }
  }

  // Every sample of the frames has the output sample over it; music after them is left alone.
  ghost predicate Added(s: seq<Sample>, was: seq<Sample>, out: seq<Sample>, pcm_vol: nat) {
    && |s| == |was| && 2 * |out| <= |s|
    && (forall f :: 0 <= f < |out| ==>
      s[2 * f] == Over(was[2 * f], out[f], pcm_vol) && s[2 * f + 1] == Over(was[2 * f + 1], out[f], pcm_vol))
    && (forall k :: 2 * |out| <= k < |s| ==> s[k] == was[k])
  }

  lemma AddedMore(s: seq<Sample>, was: seq<Sample>, out: seq<Sample>, x: Sample, pcm_vol: nat)
    requires Added(s, was, out, pcm_vol) && 2 * |out| + 1 < |s|
    ensures var i := 2 * |out|;
      Added(s[i := Over(was[i], x, pcm_vol)][i + 1 := Over(was[i + 1], x, pcm_vol)], was, out + [x], pcm_vol)
  {
  }

  // The first n output samples.
  ghost predicate Voiced(out: seq<Sample>, frames: seq<Frame>, n: nat, started: bool, h: seq<Sample>, e: seq<Sample>,
      delayed: Sample, vol: nat, N: nat)
  {
    && N > 0 && n <= |frames| && |out| == n && (started ==> |e| == |h| + n)
    && forall f {:trigger out[f]} :: 0 <= f < n ==>
      out[f] == Mix(if started then Past(e, |h| + f - N) else delayed, frames[f].left, vol)
  }

  lemma VoicedMore(out: seq<Sample>, frames: seq<Frame>, n: nat, started: bool, h: seq<Sample>, e: seq<Sample>,
      f: seq<Sample>, delayed: Sample, vol: nat, N: nat)
    requires n < |frames| && |out| == n + 1 && Voiced(out[..n], frames, n, started, h, e, delayed, vol, N)
    requires started ==> |f| == |e| + 1 && f[..|e|] == e
    requires out[n] == Mix(if started then Past(e, |h| + n - N) else delayed, frames[n].left, vol)
    ensures Voiced(out, frames, n + 1, started, h, f, delayed, vol, N)
  {
    forall k | 0 <= k < n + 1
      ensures out[k] == Mix(if started then Past(f, |h| + k - N) else delayed, frames[k].left, vol)
    {
      if k < n { assert out[k] == out[..n][k]; }
      if started { assert |h| + k - N >= 0 ==> e[|h| + k - N] == f[..|e|][|h| + k - N]; }
    }
  }

  lemma RightsMore(h: seq<Sample>, frames: seq<Frame>, n: nat)
    requires n < |frames|
    ensures h + Rights(frames[..n]) + [frames[n].right] == h + Rights(frames[..n + 1])
  {
  }

  // A call: its frames, and the mixer at its start.
  datatype Session = Session(frames: seq<Frame>, h: seq<Sample>, started: bool, delayed: Sample, vol: nat, N: nat)

  // What the call makes of the frames.
  function Voices(p: Session): (r: seq<Sample>)
    requires p.N > 0
    ensures |r| == |p.frames|
  {
    if p.started then Play(p.h, p.frames, p.vol, p.N) else Dry(p.delayed, p.frames, p.vol)
  }

  lemma VoicedAll(out: seq<Sample>, p: Session, e: seq<Sample>)
    requires Voiced(out, p.frames, |p.frames|, p.started, p.h, e, p.delayed, p.vol, p.N)
    requires p.started ==> IsEcho(e, p.h + Rights(p.frames), p.N)
    ensures out == Voices(p)
  {
    if p.started {
      var all := p.h + Rights(p.frames);
      EchoRecurs(all, p.N);
      assert all + [] == all;
      EchoUnique(e, EchoOf(all, p.N), all, [], p.N, |all|);
      assert e == EchoOf(all, p.N);
    }
  }

  // A place in the ring, counted from the operating one: the ring is filled downwards.
  function SlotOf(op: nat, sample_len: nat, k: nat): int {
    if k <= op then op - k else op + sample_len + 1 - k
  }

  // The sample_len + 1 slots of the ring are the last samples of the echo, oldest first.
  ghost predicate Holds(f: seq<Sample>, op: nat, sample_len: nat, e: seq<Sample>)
    requires op <= sample_len < |f|
  {
    forall k {:trigger SlotOf(op, sample_len, k)} :: 0 <= k <= sample_len ==>
      f[SlotOf(op, sample_len, k)] == Past(e, |e| + k - sample_len - 1)
  }

  // A new sample in the operating slot is the latest, and the next slot holds the oldest.
  lemma RingStep(f: seq<Sample>, op: nat, sample_len: nat, e: seq<Sample>, new_: Sample)
    requires op <= sample_len < |f| && Holds(f, op, sample_len, e)
    ensures Holds(f[op := new_], if op == 0 then sample_len else op - 1, sample_len, e + [new_])
  {
    var next := if op == 0 then sample_len else op - 1;
    forall k | 0 <= k <= sample_len
      ensures f[op := new_][SlotOf(next, sample_len, k)] == Past(e + [new_], |e| + 1 + k - sample_len - 1)
    {
      if k < sample_len { assert SlotOf(next, sample_len, k) == SlotOf(op, sample_len, k + 1) != op; }
    }
  }

  lemma EchoStep(e: seq<Sample>, h: seq<Sample>, right: Sample, N: nat)
    requires IsEcho(e, h, N)
    ensures IsEcho(e + [Feed(Past(e, |h| - N), right)], h + [right], N)
  {
    var f := e + [Feed(Past(e, |h| - N), right)];
    forall t | 0 <= t < |f| ensures RecursAt(f, h + [right], N, t) {
      if t < |e| { assert RecursAt(e, h, N, t); }
    }
  }
}
