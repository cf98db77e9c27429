/** Filling fixed buffers. */
module Buffers {

  /** memcpy behind what the buffer holds so far. */
  method Put<B>(out: array<B>, dst: nat, src: seq<B>) returns (end: nat)
    requires dst + |src| <= out.Length
    modifies out
    ensures end == dst + |src| && out[..end] == old(out[..dst]) + src
  {
    for j := 0 to |src|
      invariant out[..dst + j] == old(out[..dst]) + src[..j]
    {
      out[dst + j] := src[j];
      assert out[..dst + j + 1] == out[..dst + j] + [src[j]];
      assert src[..j + 1] == src[..j] + [src[j]];
    }
    assert src[..|src|] == src;
    end := dst + |src|;
  }

  method PutBoth<B>(out: array<B>, dst: nat, a: seq<B>, b: seq<B>) returns (end: nat)
    requires dst + |a| + |b| <= out.Length
    modifies out
    ensures end == dst + |a| + |b| && out[..end] == old(out[..dst]) + a + b
  {
    end := Put(out, dst, a);
    end := Put(out, end, b);
  }
}
