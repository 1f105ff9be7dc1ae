/** Lane semantics of the AVX-512 operations the GEMV kernels emit, after the
    instruction entries PMADDUBSW, PMADDWD and VPDPBUSD of the Intel 64 and IA-32
    Architectures Software Developer's Manual, Volume 2, and of the vector
    `reinterpret`, broadcast and add that surround them. A vector is the
    sequence of its lane values; an operation reads each lane's bit pattern with
    the signedness the instruction prescribes. */
module Avx512 {
  import opened Machine

  /** `x.astype("int32x16")` for a scalar: the same value in every lane. */
  function Broadcast(x: int, n: nat): (r: seq<int>)
    ensures |r| == n
    ensures forall l :: 0 <= l < n ==> r[l] == x
  {
    seq(n, _ => x)
  }

  /** `reinterpret` from int32xN to int8x(4N): lane b is byte b % 4 of word b / 4. */
  function I32ToI8Lanes(ws: seq<int>): (r: seq<int>)
    ensures |r| == 4 * |ws|
    ensures forall b :: 0 <= b < |r| ==> IsI8(r[b])
  {
    seq(4 * |ws|, b requires 0 <= b < 4 * |ws| => AsSigned8(BytesOfI32(ws[b / 4])[b % 4]))
  }

  /** `reinterpret` from int8x(4N) to int32xN: word l packs bytes 4l..4l+3. */
  function I8ToI32Lanes(bs: seq<int>): (r: seq<int>)
    requires |bs| % 4 == 0
    ensures |r| == |bs| / 4
    ensures forall l :: 0 <= l < |r| ==> IsI32(r[l])
  {
    seq(|bs| / 4, l requires 0 <= l < |bs| / 4 => BitsToI32(bs[4 * l .. 4 * l + 4]))
  }

  /** llvm.x86.avx512.pmaddubs.w.512: 32 int16 lanes, lane j is the saturated
      sum of two products of an unsigned byte of `a` with a signed byte of `b`. */
  function Pmaddubsw(a: seq<int>, b: seq<int>): (r: seq<int>)
    requires |a| == 64 && |b| == 64
    ensures |r| == 32
    ensures forall j :: 0 <= j < 32 ==> IsI16(r[j])
  {
    seq(32, j requires 0 <= j < 32 =>
      SatI16(AsUnsigned8(a[2 * j]) * AsSigned8(b[2 * j])
           + AsUnsigned8(a[2 * j + 1]) * AsSigned8(b[2 * j + 1])))
  }

  /** llvm.x86.avx512.pmaddw.d.512: 16 int32 lanes, lane l is the 32-bit sum of
      the products of int16 lanes 2l and 2l+1. */
  function Pmaddwd(a: seq<int>, b: seq<int>): (r: seq<int>)
    requires |a| == 32 && |b| == 32
    ensures |r| == 16
    ensures forall l :: 0 <= l < 16 ==> IsI32(r[l])
  {
    seq(16, l requires 0 <= l < 16 => Wrap32(a[2 * l] * b[2 * l] + a[2 * l + 1] * b[2 * l + 1]))
  }

  /** Sum of the four products of unsigned bytes of `u` with signed bytes of `s`. */
  function ByteDot4(u: seq<int>, s: seq<int>): int
    requires |u| == 4 && |s| == 4
  {
    AsUnsigned8(u[0]) * AsSigned8(s[0]) + AsUnsigned8(u[1]) * AsSigned8(s[1])
    + AsUnsigned8(u[2]) * AsSigned8(s[2]) + AsUnsigned8(u[3]) * AsSigned8(s[3])
  }

  /** llvm.x86.avx512.vpdpbusd.512: lane l of the accumulator `acc` plus the
      four products of unsigned bytes of `u[l]` with signed bytes of `s[l]`. */
  function Vpdpbusd(acc: seq<int>, u: seq<int>, s: seq<int>): (r: seq<int>)
    requires |acc| == 16 && |u| == 16 && |s| == 16
    ensures |r| == 16
    ensures forall l :: 0 <= l < 16 ==> IsI32(r[l])
  {
    seq(16, l requires 0 <= l < 16 => Wrap32(acc[l] + ByteDot4(BytesOfI32(u[l]), BytesOfI32(s[l]))))
  }

  /** Lane-wise int32 addition, wrapping as the hardware does. */
  function AddI32(a: seq<int>, b: seq<int>): (r: seq<int>)
    requires |a| == |b|
    ensures |r| == |a|
    ensures forall l :: 0 <= l < |a| ==> IsI32(r[l])
    ensures forall l :: 0 <= l < |a| && IsI32(a[l] + b[l]) ==> r[l] == a[l] + b[l]
  {
    seq(|a|, l requires 0 <= l < |a| => Wrap32(a[l] + b[l]))
  }
}
