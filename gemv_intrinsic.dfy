/** The 16 x 4 uint8 x int8 GEMV intrinsics for AVX-512 (Skylake) and
    AVX-512 VNNI (Cascade Lake). Each emits three vector stores into the
    16-lane int32 output: `body` overwrites it with the reduction, `reset`
    zeroes it and `update` adds the reduction to it. The reduction is either
    PMADDUBSW followed by PMADDWD with a vector of ones, or one VPDPBUSD when
    the code generator knows that instruction. */
module GemvIntrinsic {
  import opened Wrappers
  import opened Machine
  import opened Avx512
  import opened Buffers

  /** Sum of the element-wise products. */
  function Dot(u: seq<int>, v: seq<int>): int
    requires |u| == |v|
  {
    if u == [] then 0 else u[0] * v[0] + Dot(u[1..], v[1..])
  }

  lemma Dot4(u: seq<int>, v: seq<int>)
    requires |u| == 4 && |v| == 4
    ensures Dot(u, v) == u[0] * v[0] + u[1] * v[1] + u[2] * v[2] + u[3] * v[3]
  {
    assert Dot(u[3..], v[3..]) == u[3] * v[3] + Dot(u[4..], v[4..]);
    assert Dot(u[2..], v[2..]) == u[2] * v[2] + Dot(u[3..], v[3..]) by {
      assert u[2..][1..] == u[3..] && v[2..][1..] == v[3..];
    }
    assert Dot(u[1..], v[1..]) == u[1] * v[1] + Dot(u[2..], v[2..]) by {
      assert u[1..][1..] == u[2..] && v[1..][1..] == v[2..];
    }
  }

  /** `intrinsic_gemv_uint8_int8_compute(M, K)`: the declared computation
      `C[i] = sum over k < K of data[k] * kernel[i][k]`, summed in int32. */
  function GemvCompute(M: nat, K: nat, data: seq<int>, kernel: seq<seq<int>>): (c: seq<int>)
    requires |data| == K && |kernel| == M
    requires forall i :: 0 <= i < M ==> |kernel[i]| == K
    ensures |c| == M
    ensures forall i :: 0 <= i < M ==> IsI32(c[i])
  {
    seq(M, i requires 0 <= i < M => Wrap32(Dot(data, kernel[i])))
  }

  /** The 16 rows of 4 bytes in the 64 bytes the kernel load reads. */
  function Rows(kbytes: seq<int>): (rows: seq<seq<int>>)
    requires |kbytes| == 64
    ensures |rows| == 16 && forall l :: 0 <= l < 16 ==> |rows[l]| == 4
  {
    seq(16, l requires 0 <= l < 16 => kbytes[4 * l .. 4 * l + 4])
  }

  // ---------------------------------------------------------------------------
  // Buffers

  /** `a_buffer`: the K data bytes, stride 1. */
  function DataBuffer(K: int): (b: Buffer)
    ensures b.dtype == "uint8" && b.shape == [K] && SubBlockBinding(b)
  {
    Buffer("a_buffer", "uint8", [K], [Fixed(1)], 1)
  }

  /** `b_buffer`: the M x K kernel, row stride `ldw`, inner stride 1. */
  function KernelBuffer(M: int, K: int): (b: Buffer)
    ensures b.dtype == "int8" && b.shape == [M, K] && SubBlockBinding(b)
  {
    Buffer("b_buffer", "int8", [M, K], [Symbolic("ldw"), Fixed(1)], 1)
  }

  /** Both operands are declared as sub-block bindings (inner stride 1, the
      kernel's row stride a variable, offset factor 1), so tensorization
      accepts any sub-block. The kernel's 64-byte load ignores the row stride,
      so the declared result is computed only for contiguous rows
      (`ContiguousKernelLoad`). */
  lemma GemvBindings(M: int, K: int)
    ensures SubBlockBinding(DataBuffer(K)) && SubBlockBinding(KernelBuffer(M, K))
    ensures DataBuffer(K).strides == [Fixed(1)]
    ensures KernelBuffer(M, K).strides == [Symbolic("ldw"), Fixed(1)]
  {
  }

  /** The kernel load reads the 64 bytes from the buffer's start; element
      `[l][t]` of the kernel lies at `l * ldw + t`. The two agree for every lane
      and element exactly when the row stride is 4. */
  lemma ContiguousKernelLoad(ldw: int)
    ensures (forall l, t :: 0 <= l < 16 && 0 <= t < 4 ==> Offset([ldw, 1], [l, t]) == 4 * l + t)
            <==> ldw == 4
  {
    assert Offset([ldw, 1], [1, 0]) == ldw by {
      assert Offset([1], [0]) == 0;
    }
    if ldw == 4 {
      forall l, t | 0 <= l < 16 && 0 <= t < 4
        ensures Offset([ldw, 1], [l, t]) == 4 * l + t
      {
        assert Offset([1], [t]) == t;
      }
    }
  }

  // ---------------------------------------------------------------------------
  // Emitted phases

  /** The two ways the emitted code reduces: `llvm.x86.avx512.pmaddubs.w.512`
      then `llvm.x86.avx512.pmaddw.d.512` with ones, or
      `llvm.x86.avx512.vpdpbusd.512` from a zero accumulator. */
  datatype Reduction = PairQuad | Vnni

  /** The one vector store each phase emits into the output, given the
      reduction vector `quad_reduction` the kernel computes once. */
  datatype VStore = StoreZero | StoreReduction | StoreAccumulate

  datatype GemvPhases = GemvPhases(reduction: Reduction, body: VStore, reset: VStore, update: VStore)

  /** `_instr(index)`: 1 is reset, 0 is body, anything else is update. */
  function Instr(index: int): (s: VStore)
    ensures s == StoreZero <==> index == 1
    ensures s == StoreReduction <==> index == 0
  {
    if index == 1 then StoreZero
    else if index == 0 then StoreReduction
    else StoreAccumulate
  }

  /** The phases, returned as `(body, reset, update)`. */
  function Phases(r: Reduction): (p: GemvPhases)
    ensures p.reduction == r
    ensures p.reset == StoreZero && p.body == StoreReduction && p.update == StoreAccumulate
  {
    GemvPhases(r, Instr(0), Instr(1), Instr(2))
  }

  /** The Cascade Lake reduction: VPDPBUSD when the intrinsic lookup returned
      a nonzero id, the PMADDUBSW/PMADDWD pair otherwise. */
  function CascadelakeReduction(llvmId: int): (r: Reduction)
    ensures r == Vnni <==> llvmId != 0
  {
    if llvmId != 0 then Vnni else PairQuad
  }

  datatype GemvIntrin = GemvIntrin(data: Buffer, kernel: Buffer, phases: GemvPhases)

  /** `intrinsic_gemv_uint8_int8_skylake(M, K)`. */
  function IntrinsicGemvSkylake(M: int, K: int): (g: GemvIntrin)
    ensures g.data.shape == [K] && g.kernel.shape == [M, K]
    ensures SubBlockBinding(g.data) && SubBlockBinding(g.kernel)
    ensures g.phases.reduction == PairQuad
    ensures g.phases.reset == StoreZero && g.phases.body == StoreReduction && g.phases.update == StoreAccumulate
  {
    GemvIntrin(DataBuffer(K), KernelBuffer(M, K), Phases(PairQuad))
  }

  /** `intrinsic_gemv_uint8_int8_cascadelake(M, K)`, given the id the code
      generator returns for `llvm.x86.avx512.vpdpbusd.512`. */
  function IntrinsicGemvCascadelake(M: int, K: int, llvmId: int): (g: GemvIntrin)
    ensures g.data.shape == [K] && g.kernel.shape == [M, K]
    ensures SubBlockBinding(g.data) && SubBlockBinding(g.kernel)
    ensures g.phases.reduction == Vnni <==> llvmId != 0
    ensures llvmId == 0 ==> g == IntrinsicGemvSkylake(M, K)
    ensures g.phases.reset == StoreZero && g.phases.body == StoreReduction && g.phases.update == StoreAccumulate
  {
    GemvIntrin(DataBuffer(K), KernelBuffer(M, K), Phases(CascadelakeReduction(llvmId)))
  }

  /** The generator wrappers assert `fM == 16 and fK == 4`. */
  datatype GenError = AssertionError

  function GenerateGemvSkylake(M: int, K: int, fM: int, fK: int, axisM: string, axisK: string): (r: Result<GemvIntrin, GenError>)
    ensures r.Ok? <==> fM == 16 && fK == 4
    ensures r.Ok? ==> r.value.phases == Phases(PairQuad)
  {
    if fM == 16 && fK == 4 then Ok(IntrinsicGemvSkylake(fM, fK)) else Err(AssertionError)
  }

  function GenerateGemvCascadelake(M: int, K: int, fM: int, fK: int, axisM: string, axisK: string, llvmId: int): (r: Result<GemvIntrin, GenError>)
    ensures r.Ok? <==> fM == 16 && fK == 4
    ensures r.Ok? ==> r.value.phases == Phases(if llvmId != 0 then Vnni else PairQuad)
  {
    if fM == 16 && fK == 4 then Ok(IntrinsicGemvCascadelake(fM, fK, llvmId)) else Err(AssertionError)
  }

  // ---------------------------------------------------------------------------
  // What the emitted statements compute

  /** The four data bytes reinterpreted as one int32 and broadcast to 16 lanes. */
  function DataWords(data: seq<int>): (w: seq<int>)
    requires |data| == 4
    ensures |w| == 16
  {
    Broadcast(BitsToI32(data), 16)
  }

  /** The 16 int32 lanes of `quad_reduction` for the data bytes and the 64
      kernel bytes. */
  function Reduce(r: Reduction, data: seq<int>, kbytes: seq<int>): (q: seq<int>)
    requires |data| == 4 && |kbytes| == 64
    ensures |q| == 16
    ensures forall l :: 0 <= l < 16 ==> IsI32(q[l])
  {
    match r
    case PairQuad =>
      var pairs := Pmaddubsw(I32ToI8Lanes(DataWords(data)), kbytes);
      Pmaddwd(pairs, Broadcast(1, 32))
    case Vnni =>
      Vpdpbusd(Broadcast(0, 16), DataWords(data), I8ToI32Lanes(kbytes))
  }

  /** The output after one store, from the output before it. */
  function Apply(s: VStore, out: seq<int>, q: seq<int>): (r: seq<int>)
    requires |out| == 16 && |q| == 16
    ensures |r| == 16
  {
    match s
    case StoreZero => Broadcast(0, 16)
    case StoreReduction => q
    case StoreAccumulate => AddI32(q, out)
  }

  /** `vstore(0, v)`: every lane of the output is written at once. */
  method VStoreAll(out: array<int>, v: seq<int>)
    requires out.Length == 16 && |v| == 16
    modifies out
    ensures out[..] == v
  {
    forall l | 0 <= l < 16 {
      out[l] := v[l];
    }
  }

  /** `vstore(0, v + vload(0))`: every lane gets `v` plus its old value, all
      read before any is written. */
  method VStoreAdd(out: array<int>, v: seq<int>)
    requires out.Length == 16 && |v| == 16
    modifies out
    ensures out[..] == AddI32(v, old(out[..]))
  {
    forall l | 0 <= l < 16 {
      out[l] := Wrap32(v[l] + out[l]);
    }
  }

  /** Runs one phase on the 16-lane output buffer, `q` being the reduction. */
  method Execute(s: VStore, out: array<int>, q: seq<int>)
    requires out.Length == 16 && |q| == 16
    modifies out
    ensures out[..] == Apply(s, old(out[..]), q)
  {
    match s
    case StoreZero =>
      VStoreAll(out, Broadcast(0, 16));
    case StoreReduction =>
      VStoreAll(out, q);
    case StoreAccumulate =>
      VStoreAdd(out, q);
  }

  // ---------------------------------------------------------------------------
  // Lane lemmas

  lemma ModFour(l: nat, t: nat)
    requires t < 4
    ensures (4 * l + t) % 4 == t && (4 * l + t) / 4 == l
  {
  }

  /** Byte `4l + t` of the broadcast data, read unsigned, is data byte `t`. */
  lemma BroadcastByte(data: seq<int>, l: nat, t: nat)
    requires |data| == 4 && AllU8(data) && l < 16 && t < 4
    ensures AsUnsigned8(I32ToI8Lanes(DataWords(data))[4 * l + t]) == data[t]
  {
    var w := DataWords(data);
    LaneByte(w, l, t);
    DataWordByte(data, l, t);
    var x := BytesOfI32(w[l])[t];
    assert AsUnsigned8(AsSigned8(x)) == AsUnsigned8(x) == x;
  }

  /** Lane `4l + t` of the int8 view of int32 lanes is byte `t` of lane `l`. */
  lemma LaneByte(ws: seq<int>, l: nat, t: nat)
    requires l < |ws| && t < 4
    ensures I32ToI8Lanes(ws)[4 * l + t] == AsSigned8(BytesOfI32(ws[l])[t])
  {
    var b := 4 * l + t;
    ModFour(l, t);
    assert b / 4 == l && b % 4 == t;
    assert I32ToI8Lanes(ws)[b] == AsSigned8(BytesOfI32(ws[b / 4])[b % 4]);
  }

  /** Byte `t` of each broadcast data word is data byte `t`. */
  lemma DataWordByte(data: seq<int>, l: nat, t: nat)
    requires |data| == 4 && AllU8(data) && l < 16 && t < 4
    ensures BytesOfI32(DataWords(data)[l])[t] == data[t]
  {
    BytesOfBitsToI32(data);
  }

  /** Reinterpreting int8 lanes as int32 words and back gives the same
      lanes. */
  lemma ReinterpretRoundTrip(bs: seq<int>)
    requires |bs| % 4 == 0 && AllI8(bs)
    ensures I32ToI8Lanes(I8ToI32Lanes(bs)) == bs
  {
    var ws := I8ToI32Lanes(bs);
    forall b | 0 <= b < |bs|
      ensures I32ToI8Lanes(ws)[b] == bs[b]
    {
      var l, t := b / 4, b % 4;
      assert b == 4 * l + t;
      LaneByte(ws, l, t);
      WordByte(bs, l, t);
    }
  }

  /** Byte `t` of word `l` of the int32 view, read signed, is int8 lane
      `4l + t`. */
  lemma WordByte(bs: seq<int>, l: nat, t: nat)
    requires |bs| % 4 == 0 && AllI8(bs) && l < |bs| / 4 && t < 4
    ensures AsSigned8(BytesOfI32(I8ToI32Lanes(bs)[l])[t]) == bs[4 * l + t]
  {
    var row := bs[4 * l .. 4 * l + 4];
    BytesOfBitsToI32(row);
    assert AsSigned8(AsUnsigned8(row[t])) == AsSigned8(row[t]);
  }

  /** Byte `t` of kernel word `l`, read signed, is byte `t` of row `l`. */
  lemma KernelWordByte(kbytes: seq<int>, l: nat, t: nat)
    requires |kbytes| == 64 && AllI8(kbytes) && l < 16 && t < 4
    ensures AsSigned8(BytesOfI32(I8ToI32Lanes(kbytes)[l])[t]) == Rows(kbytes)[l][t]
  {
    WordByte(kbytes, l, t);
  }

  /** Lane `2l + h` of PMADDUBSW, when the unsigned bytes of `a` in row `l`
      are the data bytes: the saturated sum of data bytes `2h`, `2h+1` times
      the kernel bytes beside them. */
  lemma PairLane(a: seq<int>, data: seq<int>, kbytes: seq<int>, l: nat, h: nat)
    requires |a| == 64 && |data| == 4 && |kbytes| == 64 && AllI8(kbytes)
    requires l < 16 && h < 2
    requires AsUnsigned8(a[4 * l + 2 * h]) == data[2 * h]
    requires AsUnsigned8(a[4 * l + 2 * h + 1]) == data[2 * h + 1]
    ensures Pmaddubsw(a, kbytes)[2 * l + h]
         == SatI16(data[2 * h] * kbytes[4 * l + 2 * h] + data[2 * h + 1] * kbytes[4 * l + 2 * h + 1])
  {
    assert 2 * (2 * l + h) == 4 * l + 2 * h;
  }

  /** Lane `l` of PMADDUBSW then PMADDWD with ones, for any first operand
      whose unsigned bytes in row `l` are the data bytes. */
  lemma PairQuadRow(a: seq<int>, data: seq<int>, kbytes: seq<int>, l: nat)
    requires |a| == 64 && |data| == 4 && |kbytes| == 64 && AllI8(kbytes) && l < 16
    requires forall t :: 0 <= t < 4 ==> AsUnsigned8(a[4 * l + t]) == data[t]
    ensures Pmaddwd(Pmaddubsw(a, kbytes), Broadcast(1, 32))[l]
         == SatI16(data[0] * kbytes[4 * l] + data[1] * kbytes[4 * l + 1])
          + SatI16(data[2] * kbytes[4 * l + 2] + data[3] * kbytes[4 * l + 3])
  {
    var p := Pmaddubsw(a, kbytes);
    assert AsUnsigned8(a[4 * l + 0]) == data[0] && AsUnsigned8(a[4 * l + 1]) == data[1];
    assert AsUnsigned8(a[4 * l + 2]) == data[2] && AsUnsigned8(a[4 * l + 3]) == data[3];
    PairLane(a, data, kbytes, l, 0);
    PairLane(a, data, kbytes, l, 1);
    PairSum(p, l);
  }

  /** PMADDWD against ones adds int16 lanes `2l` and `2l+1`. */
  lemma PairSum(p: seq<int>, l: nat)
    requires |p| == 32 && l < 16 && IsI16(p[2 * l]) && IsI16(p[2 * l + 1])
    ensures Pmaddwd(p, Broadcast(1, 32))[l] == p[2 * l] + p[2 * l + 1]
  {
  }

  /** Lane `l` of the PMADDUBSW/PMADDWD path: the two saturated pair sums of
      row `l`, added in 32 bits. */
  lemma PairQuadLane(data: seq<int>, kbytes: seq<int>, l: nat)
    requires |data| == 4 && AllU8(data) && |kbytes| == 64 && AllI8(kbytes)
    requires l < 16
    ensures Reduce(PairQuad, data, kbytes)[l]
         == SatI16(data[0] * kbytes[4 * l] + data[1] * kbytes[4 * l + 1])
          + SatI16(data[2] * kbytes[4 * l + 2] + data[3] * kbytes[4 * l + 3])
  {
    var a := I32ToI8Lanes(DataWords(data));
    forall t | 0 <= t < 4
      ensures AsUnsigned8(a[4 * l + t]) == data[t]
    {
      BroadcastByte(data, l, t);
    }
    PairQuadRow(a, data, kbytes, l);
  }

  /** Four unsigned-by-signed byte products, whatever bit patterns carry
      them, sum to the dot product of the byte values; that sum fits in int32. */
  lemma ByteDotValue(bu: seq<int>, bs: seq<int>, data: seq<int>, row: seq<int>)
    requires |bu| == 4 && |bs| == 4 && |data| == 4 && |row| == 4
    requires AllU8(data) && AllI8(row)
    requires forall t :: 0 <= t < 4 ==> AsUnsigned8(bu[t]) == data[t] && AsSigned8(bs[t]) == row[t]
    ensures ByteDot4(bu, bs) == Dot(data, row) && IsI32(Dot(data, row))
  {
    Dot4(data, row);
    ProductBound(data[0], row[0]);
    ProductBound(data[1], row[1]);
    ProductBound(data[2], row[2]);
    ProductBound(data[3], row[3]);
  }

  /** Lane `l` of VPDPBUSD from a zero accumulator, for any operands whose
      lane-`l` bytes are the data and the row. */
  lemma VnniRow(u: seq<int>, w: seq<int>, data: seq<int>, row: seq<int>, l: nat)
    requires |u| == 16 && |w| == 16 && |data| == 4 && |row| == 4 && l < 16
    requires AllU8(data) && AllI8(row)
    requires forall t :: 0 <= t < 4 ==> BytesOfI32(u[l])[t] == data[t] && AsSigned8(BytesOfI32(w[l])[t]) == row[t]
    ensures Vpdpbusd(Broadcast(0, 16), u, w)[l] == Dot(data, row)
  {
    ByteDotValue(BytesOfI32(u[l]), BytesOfI32(w[l]), data, row);
  }

  /** Lane `l` of the VPDPBUSD path: the exact four-term dot product of the data
      with row `l`. */
  lemma VnniLane(data: seq<int>, kbytes: seq<int>, l: nat)
    requires |data| == 4 && AllU8(data) && |kbytes| == 64 && AllI8(kbytes)
    requires l < 16
    ensures Reduce(Vnni, data, kbytes)[l] == Dot(data, Rows(kbytes)[l])
  {
    var u, w, row := DataWords(data), I8ToI32Lanes(kbytes), Rows(kbytes)[l];
    forall t | 0 <= t < 4
      ensures BytesOfI32(u[l])[t] == data[t] && AsSigned8(BytesOfI32(w[l])[t]) == row[t]
    {
      DataWordByte(data, l, t);
      KernelWordByte(kbytes, l, t);
    }
    assert AllI8(row);
    VnniRow(u, w, data, row, l);
  }

  lemma ProductBound(u: int, s: int)
    requires IsU8(u) && IsI8(s)
    ensures -255 * 128 <= u * s <= 255 * 127
  {
    if s >= 0 {
      ScaleNonNeg(u, s);
    } else {
      ScaleNonNeg(u, -s);
    }
  }

  lemma ScaleNonNeg(u: int, s: int)
    requires 0 <= u <= 255 && s >= 0
    ensures 0 <= u * s <= 255 * s
  {
    assert (255 - u) * s >= 0;
  }

  /** The dot product of the data with any kernel row fits in int32, so the
      declared int32 sum never wraps at K = 4. */
  lemma RowDotFits(data: seq<int>, kbytes: seq<int>, l: nat)
    requires |data| == 4 && AllU8(data) && |kbytes| == 64 && AllI8(kbytes) && l < 16
    ensures IsI32(Dot(data, Rows(kbytes)[l]))
    ensures GemvCompute(16, 4, data, Rows(kbytes))[l] == Dot(data, Rows(kbytes)[l])
  {
    var row := Rows(kbytes)[l];
    assert row[0] == kbytes[4 * l] && row[1] == kbytes[4 * l + 1] && row[2] == kbytes[4 * l + 2] && row[3] == kbytes[4 * l + 3];
    Dot4(data, row);
    ProductBound(data[0], row[0]);
    ProductBound(data[1], row[1]);
    ProductBound(data[2], row[2]);
    ProductBound(data[3], row[3]);
  }

  /** With VPDPBUSD the reduction is the declared computation, for every data
      and kernel value. */
  lemma VnniMatchesCompute(data: seq<int>, kbytes: seq<int>)
    requires |data| == 4 && AllU8(data) && |kbytes| == 64 && AllI8(kbytes)
    ensures Reduce(Vnni, data, kbytes) == GemvCompute(16, 4, data, Rows(kbytes))
  {
    forall l | 0 <= l < 16
      ensures Reduce(Vnni, data, kbytes)[l] == GemvCompute(16, 4, data, Rows(kbytes))[l]
    {
      VnniLane(data, kbytes, l);
      RowDotFits(data, kbytes, l);
    }
  }

  /** Neither pair sum of the data with a kernel row leaves the int16 range. */
  predicate PairsFit(data: seq<int>, row: seq<int>)
    requires |data| == 4 && |row| == 4
  {
    IsI16(data[0] * row[0] + data[1] * row[1]) && IsI16(data[2] * row[2] + data[3] * row[3])
  }

  /** Lane `l` of the PMADDUBSW/PMADDWD path is the dot product of the data
      with row `l` whenever both pair sums fit in int16. */
  lemma PairQuadDot(data: seq<int>, kbytes: seq<int>, l: nat)
    requires |data| == 4 && AllU8(data) && |kbytes| == 64 && AllI8(kbytes)
    requires l < 16 && PairsFit(data, Rows(kbytes)[l])
    ensures Reduce(PairQuad, data, kbytes)[l] == Dot(data, Rows(kbytes)[l])
  {
    var row := Rows(kbytes)[l];
    assert row[0] == kbytes[4 * l] && row[1] == kbytes[4 * l + 1] && row[2] == kbytes[4 * l + 2] && row[3] == kbytes[4 * l + 3];
    PairQuadLane(data, kbytes, l);
    Dot4(data, row);
  }

  /** The PMADDUBSW/PMADDWD path computes the declared value in lane `l`
      whenever both pair sums of row `l` fit in int16. */
  lemma PairQuadMatchesCompute(data: seq<int>, kbytes: seq<int>, l: nat)
    requires |data| == 4 && AllU8(data) && |kbytes| == 64 && AllI8(kbytes)
    requires l < 16 && PairsFit(data, Rows(kbytes)[l])
    ensures Reduce(PairQuad, data, kbytes)[l] == GemvCompute(16, 4, data, Rows(kbytes))[l]
  {
    PairQuadDot(data, kbytes, l);
    RowDotFits(data, kbytes, l);
  }

  /** Lane `l` of either reduction is the dot product of the data with row
      `l`, on the PMADDUBSW/PMADDWD path provided its pair sums fit in int16. */
  lemma ReduceLane(r: Reduction, data: seq<int>, kbytes: seq<int>, l: nat)
    requires |data| == 4 && AllU8(data) && |kbytes| == 64 && AllI8(kbytes) && l < 16
    requires r == PairQuad ==> PairsFit(data, Rows(kbytes)[l])
    ensures Reduce(r, data, kbytes)[l] == Dot(data, Rows(kbytes)[l])
  {
    if r == Vnni {
      VnniLane(data, kbytes, l);
    } else {
      PairQuadDot(data, kbytes, l);
    }
  }

  /** The two paths agree on every lane whose pair sums fit in int16. */
  lemma PathsAgree(data: seq<int>, kbytes: seq<int>)
    requires |data| == 4 && AllU8(data) && |kbytes| == 64 && AllI8(kbytes)
    requires forall l :: 0 <= l < 16 ==> PairsFit(data, Rows(kbytes)[l])
    ensures Reduce(PairQuad, data, kbytes) == Reduce(Vnni, data, kbytes)
  {
    VnniMatchesCompute(data, kbytes);
    forall l | 0 <= l < 16
      ensures Reduce(PairQuad, data, kbytes)[l] == Reduce(Vnni, data, kbytes)[l]
    {
      PairQuadMatchesCompute(data, kbytes, l);
    }
  }

  /** Data bytes 255 against kernel bytes 127 saturate both pair sums: the
      fallback path yields 65534 where the declared computation is 129540. */
  lemma PairQuadSaturates()
    ensures Reduce(PairQuad, Broadcast(255, 4), Broadcast(127, 64))[0] == 65534
    ensures GemvCompute(16, 4, Broadcast(255, 4), Rows(Broadcast(127, 64)))[0] == 129540
  {
    SaturatedLane();
    DeclaredLane();
  }

  lemma SaturatedLane()
    ensures Reduce(PairQuad, Broadcast(255, 4), Broadcast(127, 64))[0] == 65534
  {
    var data, kbytes := Broadcast(255, 4), Broadcast(127, 64);
    PairQuadLane(data, kbytes, 0);
    assert SatI16(255 * 127 + 255 * 127) == 32767;
  }

  lemma DeclaredLane()
    ensures GemvCompute(16, 4, Broadcast(255, 4), Rows(Broadcast(127, 64)))[0] == 129540
  {
    var data, kbytes := Broadcast(255, 4), Broadcast(127, 64);
    var row := Rows(kbytes)[0];
    assert row[0] == 127 && row[1] == 127 && row[2] == 127 && row[3] == 127;
    Dot4(data, row);
  }

  // ---------------------------------------------------------------------------
  // Phase lemmas

  /** Reset leaves sixteen zero lanes; body overwrites the output with the
      reduction whatever it held; update adds the reduction to every lane,
      wrapping to int32. */
  lemma PhaseEffects(r: Reduction, out: seq<int>, q: seq<int>)
    requires |out| == 16 && |q| == 16
    ensures var ph := Phases(r);
      && Apply(ph.reset, out, q) == Broadcast(0, 16)
      && Apply(ph.body, out, q) == q
      && (forall l :: 0 <= l < 16 ==> Apply(ph.update, out, q)[l] == Wrap32(q[l] + out[l]))
  {
  }

  /** Every reduction is sixteen lanes wide. */
  predicate Lanes16(qs: seq<seq<int>>)
  {
    forall x :: 0 <= x < |qs| ==> |qs[x]| == 16
  }

  /** Reset followed by one update per reduction of `qs`, in order. */
  function ResetThenUpdates(r: Reduction, out: seq<int>, qs: seq<seq<int>>): (o: seq<int>)
    requires |out| == 16 && Lanes16(qs)
    ensures |o| == 16
    decreases |qs|
  {
    if qs == [] then Apply(Phases(r).reset, out, Broadcast(0, 16))
    else Apply(Phases(r).update, ResetThenUpdates(r, out, qs[..|qs| - 1]), qs[|qs| - 1])
  }

  /** The exact sum of lane `l` over the reductions. */
  function LaneSum(qs: seq<seq<int>>, l: nat): int
    requires Lanes16(qs) && l < 16
    decreases |qs|
  {
    if qs == [] then 0 else LaneSum(qs[..|qs| - 1], l) + qs[|qs| - 1][l]
  }

  /** Reset then updates leave in every lane the sum of the reductions,
      wrapped to int32, whatever the output held before. */
  lemma {:induction false} UpdatesAccumulate(r: Reduction, out: seq<int>, qs: seq<seq<int>>)
    requires |out| == 16 && Lanes16(qs)
    ensures forall l :: 0 <= l < 16 ==> ResetThenUpdates(r, out, qs)[l] == Wrap32(LaneSum(qs, l))
    decreases |qs|
  {
    if qs != [] {
      var front, q := qs[..|qs| - 1], qs[|qs| - 1];
      UpdatesAccumulate(r, out, front);
      forall l | 0 <= l < 16
        ensures ResetThenUpdates(r, out, qs)[l] == Wrap32(LaneSum(qs, l))
      {
        Wrap32AddLeft(LaneSum(front, l), q[l]);
      }
    }
  }

  /** `n` updates with the same reduction add it up `n` times. */
  lemma {:induction false} RepeatedSum(q: seq<int>, n: nat, l: nat)
    requires |q| == 16 && l < 16
    ensures Lanes16(seq(n, _ => q)) && LaneSum(seq(n, _ => q), l) == n * q[l]
  {
    if n > 0 {
      RepeatedSum(q, n - 1, l);
      assert seq(n, _ => q)[..n - 1] == seq(n - 1, _ => q);
    }
  }

  /** On either path, data `[1, 1, 1, 1]` against kernel rows `[1, 0, 0, 0]`
      reduces to sixteen ones. */
  lemma OnesReduction(r: Reduction)
    ensures Reduce(r, Broadcast(1, 4), OnesKernel()) == Broadcast(1, 16)
  {
    forall l | 0 <= l < 16
      ensures Reduce(r, Broadcast(1, 4), OnesKernel())[l] == 1
    {
      OnesLane(r, l);
    }
  }

  /** 64 kernel bytes holding 16 rows `[1, 0, 0, 0]`. */
  function OnesKernel(): (k: seq<int>)
    ensures |k| == 64
  {
    seq(64, b => if b % 4 == 0 then 1 else 0)
  }

  lemma OnesLane(r: Reduction, l: nat)
    requires l < 16
    ensures Reduce(r, Broadcast(1, 4), OnesKernel())[l] == 1
  {
    var data, kbytes := Broadcast(1, 4), OnesKernel();
    assert AllU8(data) && AllI8(kbytes);
    assert kbytes[4 * l] == 1 && kbytes[4 * l + 1] == 0 && kbytes[4 * l + 2] == 0 && kbytes[4 * l + 3] == 0 by {
      ModFour(l, 0);
      ModFour(l, 1);
      ModFour(l, 2);
      ModFour(l, 3);
    }
    if r == Vnni {
      VnniLane(data, kbytes, l);
      Dot4(data, Rows(kbytes)[l]);
    } else {
      PairQuadLane(data, kbytes, l);
    }
  }

  /** Reset, then one update of data `[1, 1, 1, 1]` against kernel rows
      `[1, 0, 0, 0]`, gives sixteen ones, and a second update with the same
      operands sixteen twos, on either path and whatever the output held. */
  lemma OnesAccumulate(r: Reduction, out: seq<int>)
    requires |out| == 16
    ensures var q := Reduce(r, Broadcast(1, 4), OnesKernel());
      && ResetThenUpdates(r, out, [q]) == Broadcast(1, 16)
      && ResetThenUpdates(r, out, [q, q]) == Broadcast(2, 16)
  {
    OnesReduction(r);
    OnesTwice(r, out, Reduce(r, Broadcast(1, 4), OnesKernel()));
  }

  /** Reset then one or two updates with a reduction of sixteen ones. */
  lemma OnesTwice(r: Reduction, out: seq<int>, q: seq<int>)
    requires |out| == 16 && q == Broadcast(1, 16)
    ensures ResetThenUpdates(r, out, [q]) == Broadcast(1, 16)
    ensures ResetThenUpdates(r, out, [q, q]) == Broadcast(2, 16)
  {
    assert [q] == seq(1, _ => q) && [q, q] == seq(2, _ => q);
    UpdatesAccumulate(r, out, [q]);
    UpdatesAccumulate(r, out, [q, q]);
    forall l | 0 <= l < 16
      ensures ResetThenUpdates(r, out, [q])[l] == 1 && ResetThenUpdates(r, out, [q, q])[l] == 2
    {
      RepeatedSum(q, 1, l);
      RepeatedSum(q, 2, l);
    }
  }
}
