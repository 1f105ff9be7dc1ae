/** Fixed-width integer arithmetic of the generated x86 code: two's-complement
    wrap-around to 32 bits, signed 16-bit saturation, the unsigned and signed
    readings of an 8-bit pattern, and little-endian packing of bytes into a word
    (which is what a `reinterpret` between `uint8x4` and `int32` does). */
module Machine {

  const TWO8: int := 0x100
  const TWO31: int := 0x8000_0000
  const TWO32: int := 0x1_0000_0000
  const I16_MIN: int := -0x8000
  const I16_MAX: int := 0x7FFF

  predicate IsU8(x: int) { 0 <= x < TWO8 }
  predicate IsI8(x: int) { -0x80 <= x < 0x80 }
  predicate IsI16(x: int) { I16_MIN <= x <= I16_MAX }
  predicate IsI32(x: int) { -TWO31 <= x < TWO31 }

  predicate AllU8(s: seq<int>) { forall i :: 0 <= i < |s| ==> IsU8(s[i]) }
  predicate AllI8(s: seq<int>) { forall i :: 0 <= i < |s| ==> IsI8(s[i]) }

  /** The int32 value whose bit pattern is the low 32 bits of `x`. */
  function Wrap32(x: int): (r: int)
    ensures IsI32(r)
    ensures IsI32(x) ==> r == x
  {
    var u := x % TWO32;
    if u >= TWO31 then u - TWO32 else u
  }

  /** A wrapped value differs from the original by a multiple of 2^32. */
  lemma Wrap32Congruent(x: int)
    ensures (x - Wrap32(x)) % TWO32 == 0
  {
  }

  /** Wrapping is insensitive to an earlier wrap of one summand. */
  lemma Wrap32AddLeft(a: int, b: int)
    ensures Wrap32(Wrap32(a) + b) == Wrap32(a + b)
  {
    var w := Wrap32(a);
    Wrap32Congruent(a);
    var c := (a - w) / TWO32;
    assert a == w + c * TWO32;
    assert (w + b) % TWO32 == (a + b) % TWO32 by {
      ModShift(w + b, c);
    }
  }

  lemma ModShift(x: int, c: int)
    ensures (x + c * TWO32) % TWO32 == x % TWO32
  {
    var q := x / TWO32;
    var m := x % TWO32;
    assert x + c * TWO32 == (q + c) * TWO32 + m;
  }

  /** SaturateToSignedWord of the Intel SDM: clamp to [-32768, 32767]. */
  function SatI16(x: int): (r: int)
    ensures IsI16(r)
    ensures IsI16(x) ==> r == x
    ensures x > I16_MAX ==> r == I16_MAX
    ensures x < I16_MIN ==> r == I16_MIN
  {
    if x > I16_MAX then I16_MAX else if x < I16_MIN then I16_MIN else x
  }

  /** The unsigned reading (ZeroExtend) of the 8-bit pattern of `x`. */
  function AsUnsigned8(x: int): (r: int)
    ensures IsU8(r)
    ensures IsU8(x) ==> r == x
  {
    x % TWO8
  }

  /** The signed reading (SignExtend) of the 8-bit pattern of `x`. */
  function AsSigned8(x: int): (r: int)
    ensures IsI8(r)
    ensures IsI8(x) ==> r == x
    ensures AsUnsigned8(r) == AsUnsigned8(x)
  {
    var b := x % TWO8;
    if b >= 0x80 then b - TWO8 else b
  }

  function Pow256(n: nat): (r: nat)
    ensures r >= 1
  {
    if n == 0 then 1 else TWO8 * Pow256(n - 1)
  }

  /** Little-endian packing: byte 0 is the least significant. */
  function PackLE(bs: seq<int>): int
  {
    if bs == [] then 0 else bs[0] + TWO8 * PackLE(bs[1..])
  }

  /** The `n` low bytes of `u`, least significant first. */
  function UnpackLE(u: int, n: nat): (r: seq<int>)
    decreases n
    ensures |r| == n
    ensures AllU8(r)
  {
    if n == 0 then [] else [u % TWO8] + UnpackLE(u / TWO8, n - 1)
  }

  lemma {:induction false} PackLEBounds(bs: seq<int>)
    requires AllU8(bs)
    ensures 0 <= PackLE(bs) < Pow256(|bs|)
  {
    if bs != [] {
      PackLEBounds(bs[1..]);
    }
  }

  /** Unpacking undoes packing, for byte values. */
  lemma {:induction false} UnpackPackLE(bs: seq<int>)
    requires AllU8(bs)
    ensures UnpackLE(PackLE(bs), |bs|) == bs
  {
    if bs != [] {
      var p := PackLE(bs[1..]);
      var u := bs[0] + TWO8 * p;
      assert u % TWO8 == bs[0] && u / TWO8 == p;
      UnpackPackLE(bs[1..]);
    }
  }

  /** The four bytes of the 32-bit pattern of `w`, least significant first. */
  function BytesOfI32(w: int): (r: seq<int>)
    ensures |r| == 4 && AllU8(r)
  {
    UnpackLE(w % TWO32, 4)
  }

  /** `reinterpret` of four 8-bit patterns as one int32. */
  function BitsToI32(bs: seq<int>): (r: int)
    requires |bs| == 4
    ensures IsI32(r)
  {
    Wrap32(PackLE(seq(4, t requires 0 <= t < 4 => AsUnsigned8(bs[t]))))
  }

  /** Reinterpreting four byte patterns as an int32 and reading its bytes back
      gives the same bit patterns. */
  lemma BytesOfBitsToI32(bs: seq<int>)
    requires |bs| == 4
    ensures forall t :: 0 <= t < 4 ==> BytesOfI32(BitsToI32(bs))[t] == AsUnsigned8(bs[t])
  {
    var us := seq(4, t requires 0 <= t < 4 => AsUnsigned8(bs[t]));
    PackLEBounds(us);
    UnpackPackLE(us);
    var p := PackLE(us);
    assert Pow256(4) == TWO32;
    assert Wrap32(p) % TWO32 == p;
  }
}
