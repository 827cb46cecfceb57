/**
 * The buffer-assembly half of `imageProxyToJpeg`: the camera's Y, U and V
 * planes copied into one NV21 byte array that the JPEG encoder then reads.
 */
module Nv21 {
  import opened JavaIo

  /** `n` zero bytes: what a fresh `ByteArray(n)` holds. */
  function Zeros(n: nat): (z: seq<Byte>)
    ensures |z| == n && forall i :: 0 <= i < n ==> z[i] == 0
  {
    seq(n, _ => 0)
  }

  /** Whether the chroma copy runs: the U plane is non-empty and its pixel stride is 2. */
  predicate CopiesV(uSize: nat, uPixelStride: int)
  {
    uSize > 0 && uPixelStride == 2
  }

  /**
   * The NV21 array `imageProxyToJpeg` assembles. It depends on the U plane's
   * size only: U bytes are read into a scratch array but never stored.
   */
  function Nv21Layout(y: seq<Byte>, uSize: nat, v: seq<Byte>, uPixelStride: int): (nv21: seq<Byte>)
    ensures |nv21| == |y| + uSize + |v|
    ensures nv21[..|y|] == y
    ensures CopiesV(uSize, uPixelStride) ==> nv21[|y|..|y| + |v|] == v
    ensures CopiesV(uSize, uPixelStride) ==> forall i :: |y| + |v| <= i < |nv21| ==> nv21[i] == 0
    ensures !CopiesV(uSize, uPixelStride) ==> forall i :: |y| <= i < |nv21| ==> nv21[i] == 0
  {
    var nv21 := y + if CopiesV(uSize, uPixelStride) then v + Zeros(uSize) else Zeros(uSize + |v|);
    assert nv21[..|y|] == y;
    nv21
  }

  /**
   * `ByteBuffer.get(dst, offset, src.size)` on a buffer positioned at the start
   * of `src`: copies `src` into `dst` from `offset` on, leaving the rest alone.
   */
  method GetInto(src: seq<Byte>, dst: array<Byte>, offset: nat)
    requires offset + |src| <= dst.Length
    modifies dst
    ensures forall k :: 0 <= k < dst.Length ==>
      dst[k] == if offset <= k < offset + |src| then src[k - offset] else old(dst[k])
  {
    for j := 0 to |src|
      invariant forall k :: 0 <= k < dst.Length ==>
        dst[k] == if offset <= k < offset + j then src[k - offset] else old(dst[k])
    {
      dst[offset + j] := src[j];
    }
  }

  /**
   * Allocate `ByteArray(ySize + uSize + vSize)`, copy Y to the front, then loop
   * over the U indices and, on the first pass with U pixel stride 2, rewind
   * the V buffer and copy all of V right after Y and leave the loop.
   */
  method ImageProxyToNv21(y: ByteArray, u: ByteArray, v: ByteArray, uPixelStride: int) returns (nv21: array<Byte>)
    requires |y| + |u| + |v| <= MaxArrayLength
    ensures fresh(nv21)
    ensures nv21[..] == Nv21Layout(y, |u|, v, uPixelStride)
  {
    nv21 := new Byte[|y| + |u| + |v|](_ => 0);
    GetInto(y, nv21, 0);
    assert nv21[..] == y + Zeros(|u| + |v|);
    for i := 0 to |u|
      invariant nv21[..] == y + Zeros(|u| + |v|)
      invariant uPixelStride == 2 ==> i == 0
    {
      if uPixelStride == 2 {
        GetInto(v, nv21, |y|);
        assert nv21[..] == y + (v + Zeros(|u|));
        break;
      }
    }
  }
}
