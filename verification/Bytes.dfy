/** Octets, as the codecs of this project read and write them. */
module Bytes {
  type byte = x: int | 0 <= x < 0x100

  function Zeros(k: nat): (z: seq<byte>)
    ensures |z| == k && forall i :: 0 <= i < k ==> z[i] == 0
  {
    if k == 0 then [] else [0] + Zeros(k - 1)
  }

  /** Copies b into a buffer at an offset; the rest of the buffer stays. */
  method CopyInto(a: array<byte>, to: nat, b: seq<byte>)
    requires to + |b| <= a.Length
    modifies a
    ensures a[..] == old(a[..])[..to] + b + old(a[..])[to + |b|..]
  {
    hide *;
    ghost var was: seq<byte> := a[..];
    var i := 0;
    while i < |b|
      invariant 0 <= i <= |b|
      invariant forall k :: 0 <= k < i ==> a[to + k] == b[k]
      invariant forall k :: (0 <= k < to || to + i <= k < a.Length) ==> a[k] == was[k]
    {
      a[to + i] := b[i];
      i := i + 1;
    }
    assert a[..to] == was[..to] && a[to..to + |b|] == b && a[to + |b|..] == was[to + |b|..];
    assert a[..] == a[..to] + a[to..to + |b|] + a[to + |b|..];
  }
}
