/** _mixer_single_channel_data_double_padding: one channel becomes two inside the same block. */
module MixerPadding {

  // The loop: sample i of the source is written twice; the source starts `s` samples into the block.
  function Padded(a: seq<bv16>, s: nat, i: nat, n: nat): (r: seq<bv16>)
    requires i <= n && s + n <= |a| && 2 * n <= |a|
    ensures |r| == |a|
    decreases n - i
  {
    if i == n then a else Padded(a[2 * i := a[s + i]][2 * i + 1 := a[2 * i := a[s + i]][s + i]], s, i + 1, n)
  }

  // The block before the first of the remaining turns: turns so far have doubled their samples.
  ghost predicate Doubled(a: seq<bv16>, s: nat, i: nat, was: seq<bv16>) {
    && |a| == |was| && 2 * i <= |a| && s + i <= |a|
    && (forall k :: 0 <= k < i ==> a[2 * k] == a[2 * k + 1] == was[s + k])
    && (forall k :: 2 * i <= k < |a| ==> a[k] == was[k])
  }

  lemma {:induction false} PaddedDoubles(a: seq<bv16>, s: nat, i: nat, n: nat, was: seq<bv16>)
    requires i <= n && s + n <= |a| && 2 * n <= |a| && n <= s + 1 && Doubled(a, s, i, was)
    ensures Doubled(Padded(a, s, i, n), s, n, was)
    decreases n - i
  {
    if i < n {
      var b := a[2 * i := a[s + i]];
      PaddedDoubles(b[2 * i + 1 := b[s + i]], s, i + 1, n, was);
    }
  }

  // Overlapping: no sample is overwritten before it is read exactly when the source is not longer
  // than one more than its distance; then every sample appears twice.
  lemma DoublesIff(s: nat, n: nat, size: nat)
    requires s + n <= size && 2 * n <= size
    ensures n <= s + 1 <==> forall a: seq<bv16> :: |a| == size ==> Doubled(Padded(a, s, 0, n), s, n, a)
  {
    if n <= s + 1 {
      forall a: seq<bv16> | |a| == size ensures Doubled(Padded(a, s, 0, n), s, n, a) { PaddedDoubles(a, s, 0, n, a); }
    } else {
      var a := Marked(s, size);
      Overrun(a, s, n);
    }
  }

  // A block whose samples are 0 but for the one that is overwritten too early.
  function Marked(s: nat, size: nat): (a: seq<bv16>)
    requires 2 * s + 1 < size
    ensures |a| == size && a[2 * s + 1] == 1 && forall k :: 0 <= k < size && k != 2 * s + 1 ==> a[k] == 0
  {
    seq(size, k => if k == 2 * s + 1 then 1 else 0)
  }

  lemma Overrun(a: seq<bv16>, s: nat, n: nat)
    requires n > s + 1 && s + n <= |a| && 2 * n <= |a| && a == Marked(s, |a|)
    ensures !Doubled(Padded(a, s, 0, n), s, n, a)
  {
    AllZero(a, s, 0, n);
    assert Padded(a, s, 0, n)[2 * (s + 1)] != a[s + (s + 1)];
  }

  // Only the mark is not 0, it is never copied, and it is gone at the end.
  lemma {:induction false} AllZero(a: seq<bv16>, s: nat, i: nat, n: nat)
    requires n > s + 1 && i <= n && s + n <= |a| && 2 * n <= |a|
    requires forall k :: 0 <= k < |a| && (k != 2 * s + 1 || i > s) ==> a[k] == 0
    ensures forall k :: 0 <= k < |a| ==> Padded(a, s, i, n)[k] == 0
    decreases n - i
  {
    if i < n {
      var b := a[2 * i := a[s + i]];
      AllZero(b[2 * i + 1 := b[s + i]], s, i + 1, n);
    }
  }

  // The function in memory, for `len` bytes of 16-bit samples read into the block from `s` on.
  method DoublePadding(block: array<bv16>, s: nat, len: nat) returns (bytes: nat)
    requires s + len / 2 <= block.Length && 2 * (len / 2) <= block.Length
    modifies block
    ensures bytes == len * 2 && block[..] == Padded(old(block[..]), s, 0, len / 2)
  {
    var i := 0;
    while i < len / 2
      invariant 0 <= i <= len / 2
      invariant Padded(block[..], s, i, len / 2) == Padded(old(block[..]), s, 0, len / 2)
    {
      ghost var a := block[..];
      block[2 * i] := block[s + i];
      assert block[..] == a[2 * i := a[s + i]];
      block[2 * i + 1] := block[s + i];
      i := i + 1;
    }
    return len * 2;
  }

  // As the mixer calls it: the microphone's samples are read into the second half of a block.
  method PadHalf(block: array<bv16>, len: nat) returns (bytes: nat)
    requires block.Length % 2 == 0 && len <= block.Length
    modifies block
    ensures bytes == len * 2
    ensures forall i :: 0 <= i < len / 2 ==> block[2 * i] == block[2 * i + 1] == old(block[block.Length / 2 + i])
  {
    PaddedDoubles(block[..], block.Length / 2, 0, len / 2, block[..]);
    bytes := DoublePadding(block, block.Length / 2, len);
    assert Doubled(block[..], block.Length / 2, len / 2, old(block[..]));
  }
}
