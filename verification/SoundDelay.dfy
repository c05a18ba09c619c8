/** The echo line of the sound mixer: a ring of past samples fed back into itself. */
module SoundDelay {
  import opened Sequences

  type Sample = x: int | -32768 <= x <= 32767

  // The 16-bit number nearest to x: there is none on the way to x.
  predicate Nearest(r: Sample, x: int) {
    (r < 32767 ==> x <= r) && (r > -32768 ==> r <= x)
  }

  // sdly_low_pass_filter
  function Saturate(x: int): (r: Sample)
    ensures Nearest(r, x)
  {
    if x > 32767 then 32767 else if x < -32768 then -32768 else x
  }

  predicate Int32(x: int) {
    -0x8000_0000 <= x < 0x8000_0000
  }

  // The microphone's part of an output sample: the delayed sample and the left one, at a volume.
  function Mix(delayed: Sample, left: Sample, vol: nat): (r: Sample)
    ensures Nearest(r, (delayed + left) * vol / 16)
  {
    Saturate(Product(delayed, left, vol) / 16)
  }

  function Product(delayed: Sample, left: Sample, vol: nat): int {
    (delayed + left) * vol
  }

  // The new sample of the echo.
  function Feed(delayed: Sample, right: Sample): (r: Sample)
    ensures Nearest(r, delayed / 2 + right)
  {
    Saturate(delayed / 2 + right)
  }

  // No product overflows 32 bits exactly up to this microphone volume.
  lemma VolumeBound(vol: nat)
    ensures vol <= 32768 <==> forall d: Sample, l: Sample :: Int32(Product(d, l, vol))
  {
    if vol <= 32768 {
      forall d: Sample, l: Sample ensures Int32(Product(d, l, vol)) { ProductBound(d + l, vol); }
    } else {
      var d: Sample, l: Sample := -32768, -32768;
      assert Product(d, l, vol) == -65536 * vol;
    }
  }

  lemma ProductBound(x: int, vol: nat)
    requires -65536 <= x <= 65534 && vol <= 32768
    ensures Int32(x * vol)
  {
    if x >= 0 {
      MulMono(x, 65534, vol, 32768);
    } else {
      MulMono(-x, 65536, vol, 32768);
      assert x * vol == -((-x) * vol);
    }
  }

  lemma MulMono(a: nat, b: nat, c: nat, d: nat)
    requires a <= b && c <= d
    ensures a * c <= b * d
  {
    assert a * c <= b * c <= b * d;
  }

  // ---------- the recurrence ----------

  // A sample of the past; before the start there is silence.
  function Past(e: seq<Sample>, t: int): Sample
    requires t < |e|
  {
    if t < 0 then 0 else e[t]
  }

  // The echo of a history of right samples, with N slots: e(t) is the sample nearest
  // to (e(t - N) >> 1) + right(t).
  ghost predicate IsEcho(e: seq<Sample>, rights: seq<Sample>, N: nat) {
    N > 0 && |e| == |rights| && forall t :: 0 <= t < |e| ==> RecursAt(e, rights, N, t)
  }

  ghost predicate RecursAt(e: seq<Sample>, rights: seq<Sample>, N: nat, t: nat)
    requires N > 0 && t < |e| && |e| == |rights|
  {
    Nearest(e[t], Past(e, t - N) / 2 + rights[t])
  }

  function EchoOf(rights: seq<Sample>, N: nat): (e: seq<Sample>)
    requires N > 0
    ensures |e| == |rights|
  {
    if rights == [] then []
    else
      var n := |rights| - 1;
      var p := EchoOf(rights[..n], N);
      p + [Feed(Past(p, n - N), rights[n])]
  }

  lemma {:induction false} EchoRecurs(rights: seq<Sample>, N: nat)
    requires N > 0
    ensures IsEcho(EchoOf(rights, N), rights, N)
  {
    if rights != [] {
      var n := |rights| - 1;
      EchoRecurs(rights[..n], N);
      var p, e := EchoOf(rights[..n], N), EchoOf(rights, N);
      forall t | 0 <= t < |e| ensures RecursAt(e, rights, N, t) {
        if t < n { assert RecursAt(p, rights[..n], N, t); }
      }
    }
  }

  // The recurrence determines the echo, up to any time by the samples up to then.
  lemma {:induction false} EchoUnique(e: seq<Sample>, f: seq<Sample>, rights: seq<Sample>, more: seq<Sample>, N: nat, t: nat)
    requires IsEcho(e, rights, N) && IsEcho(f, rights + more, N) && t <= |rights|
    ensures forall i :: 0 <= i < t ==> e[i] == f[i]
  {
    if t > 0 {
      EchoUnique(e, f, rights, more, N, t - 1);
      assert RecursAt(e, rights, N, t - 1) && RecursAt(f, rights + more, N, t - 1);
    }
  }

  // A frame's two samples.
  datatype Frame = Frame(left: Sample, right: Sample)

  function Rights(frames: seq<Frame>): (r: seq<Sample>)
    ensures |r| == |frames|
  {
    seq(|frames|, i requires 0 <= i < |frames| => frames[i].right)
  }

  // What the echo line plays for frames, after a history.
  function Play(history: seq<Sample>, frames: seq<Frame>, vol: nat, N: nat): (r: seq<Sample>)
    requires N > 0
    ensures |r| == |frames|
  {
    var e := EchoOf(history + Rights(frames), N);
    seq(|frames|, i requires 0 <= i < |frames| => Mix(Past(e, |history| + i - N), frames[i].left, vol))
  }

  // Splitting frames over calls makes no difference.
  lemma PlaySplit(history: seq<Sample>, a: seq<Frame>, b: seq<Frame>, vol: nat, N: nat)
    requires N > 0
    ensures Play(history, a + b, vol, N) == Play(history, a, vol, N) + Play(history + Rights(a), b, vol, N)
  {
    var h := history + Rights(a);
    assert history + Rights(a + b) == h + Rights(b);
    var e, f := EchoOf(h, N), EchoOf(h + Rights(b), N);
    EchoRecurs(h, N);
    EchoRecurs(h + Rights(b), N);
    EchoUnique(e, f, h, Rights(b), N, |h|);
  }

  // ---------- the impulse response ----------

  // A sample halved k times, each time rounded down.
  function Halved(x: Sample, k: nat): Sample
    decreases k
  {
    if k == 0 then x else Halved(x / 2, k - 1)
  }

  lemma {:induction false} HalvedOnce(x: Sample, k: nat)
    ensures Halved(x, k + 1) == Halved(x, k) / 2
    decreases k
  {
    if k > 0 { HalvedOnce(x / 2, k - 1); }
  }

  // A sample, and silence after it.
  function Impulse(x: Sample, n: nat): (s: seq<Sample>)
    requires n > 0
    ensures |s| == n && s[0] == x && forall t :: 0 < t < n ==> s[t] == 0
  {
    [x] + seq(n - 1, i => 0)
  }

  // The echo of an impulse: it comes back after every N frames, halved once more, and in between
  // there is silence.
  lemma {:induction false} ImpulseAt(e: seq<Sample>, x: Sample, n: nat, N: nat, k: nat, r: nat)
    requires n > 0 && r < N && k * N + r < n && IsEcho(e, Impulse(x, n), N)
    ensures e[k * N + r] == if r == 0 then Halved(x, k) else 0
    decreases k
  {
    assert RecursAt(e, Impulse(x, n), N, k * N + r);
    if k > 0 {
      assert (k - 1) * N == k * N - N;
      ImpulseAt(e, x, n, N, k - 1, r);
      HalvedOnce(x, k - 1);
    }
  }

  // An impulse returns as x / 2 after N frames, as x / 4 after 2 N, and so on.
  lemma ImpulseEcho(x: Sample, n: nat, N: nat, k: nat, r: nat)
    requires r < N && k * N + r < n
    ensures EchoOf(Impulse(x, n), N)[k * N + r] == if r == 0 then Halved(x, k) else 0
  {
    EchoRecurs(Impulse(x, n), N);
    ImpulseAt(EchoOf(Impulse(x, n), N), x, n, N, k, r);
  }

  // An impulse dies away if and only if it is not negative: -1 halved is -1.
  lemma {:induction false} ImpulseEnds(x: Sample, m: nat, k: nat)
    requires 0 - Power2(m) <= x < Power2(m) && k >= m
    ensures Halved(x, k) == if x < 0 then -1 else 0
    decreases k
  {
    if k > 0 { ImpulseEnds(x / 2, if m > 0 then m - 1 else 0, k - 1); }
  }

  // Fifteen halvings are enough.
  lemma DiesIff(x: Sample)
    ensures forall k :: k >= 15 ==> (Halved(x, k) == 0 <==> x >= 0)
  {
    assert Power2(15) == 32768;
    forall k | k >= 15 ensures Halved(x, k) == 0 <==> x >= 0 { ImpulseEnds(x, 15, k); }
  }
}
