/** The GEMV example: its own copy of the 16 x 4 uint8 x int8 intrinsic, the
    reference computation `gemv_uint8_int8` it is tensorized into, and the
    `tile_axes` helper of its schedule. */
module OptGemvVnni {
  import opened Machine
  import opened TileEdge
  import opened GemvIntrinsic

  /** `intrinsic_gemv_uint8_int8(M, K)`: the PMADDUBSW/PMADDWD kernel with its
      phases in the order body, reset, update. */
  function IntrinsicGemvUint8Int8(M: int, K: int): (g: GemvIntrin)
    ensures g == IntrinsicGemvSkylake(M, K)
    ensures g.phases.reduction == PairQuad
    ensures g.phases.body == StoreReduction && g.phases.reset == StoreZero && g.phases.update == StoreAccumulate
  {
    GemvIntrin(DataBuffer(K), KernelBuffer(M, K), Phases(PairQuad))
  }

  // ---------------------------------------------------------------------------
  // The reference computation

  /** `a` is the i x k x 16 x 4 int8 kernel, `b` the k x 4 uint8 data. */
  predicate Shaped(i: nat, k: nat, a: seq<seq<seq<seq<int>>>>, b: seq<seq<int>>)
  {
    && |a| == i && |b| == k
    && (forall kk :: 0 <= kk < k ==> |b[kk]| == 4 && AllU8(b[kk]))
    && (forall ii :: 0 <= ii < i ==> |a[ii]| == k)
    && (forall ii, kk :: 0 <= ii < i && 0 <= kk < k ==> |a[ii][kk]| == 16)
    && (forall ii, kk, l :: 0 <= ii < i && 0 <= kk < k && 0 <= l < 16 ==>
          |a[ii][kk][l]| == 4 && AllI8(a[ii][kk][l]))
  }

  /** The exact sum over the first `n` reduction blocks of output `(ii, l)`. */
  function PartialSum(i: nat, k: nat, a: seq<seq<seq<seq<int>>>>, b: seq<seq<int>>, ii: nat, l: nat, n: nat): int
    requires Shaped(i, k, a, b) && ii < i && l < 16 && n <= k
  {
    if n == 0 then 0 else PartialSum(i, k, a, b, ii, l, n - 1) + Dot(b[n - 1], a[ii][n - 1][l])
  }

  /** `gemv_uint8_int8(i, j, k)`: `c[ii][l]` is the int32 sum over `kk < k`
      and `kki < 4` of `b[kk][kki] * a[ii][kk][l][kki]`. */
  function GemvUint8Int8(i: nat, k: nat, a: seq<seq<seq<seq<int>>>>, b: seq<seq<int>>): (c: seq<seq<int>>)
    requires Shaped(i, k, a, b)
    ensures |c| == i && forall ii :: 0 <= ii < i ==> |c[ii]| == 16
  {
    seq(i, ii requires 0 <= ii < i => seq(16, l requires 0 <= l < 16 => Wrap32(PartialSum(i, k, a, b, ii, l, k))))
  }

  // ---------------------------------------------------------------------------
  // Tensorizing the reference with the intrinsic

  /** The 64 kernel bytes the intrinsic loads for one block: 16 rows of 4,
      row after row. */
  function KernelBlock(rows: seq<seq<int>>): (kb: seq<int>)
    requires |rows| == 16 && forall l :: 0 <= l < 16 ==> |rows[l]| == 4
    ensures |kb| == 64
  {
    seq(64, x requires 0 <= x < 64 => rows[x / 4][x % 4])
  }

  /** Cutting a block's bytes back into rows gives the rows. */
  lemma RowsOfKernelBlock(rows: seq<seq<int>>)
    requires |rows| == 16 && forall l :: 0 <= l < 16 ==> |rows[l]| == 4
    ensures Rows(KernelBlock(rows)) == rows
  {
    var kb := KernelBlock(rows);
    forall l | 0 <= l < 16
      ensures Rows(kb)[l] == rows[l]
    {
      forall t | 0 <= t < 4
        ensures Rows(kb)[l][t] == rows[l][t]
      {
        ModFour(l, t);
      }
    }
  }

  /** The reductions of the blocks of output row `ii`, one per `kk`. */
  function BlockReductions(r: Reduction, i: nat, k: nat, a: seq<seq<seq<seq<int>>>>, b: seq<seq<int>>,
                           ii: nat): (qs: seq<seq<int>>)
    requires Shaped(i, k, a, b) && ii < i
    ensures |qs| == k && Lanes16(qs)
  {
    seq(k, kk requires 0 <= kk < k => Reduce(r, b[kk], KernelBlock(a[ii][kk])))
  }

  /** Every pair sum of every block fits in int16. */
  predicate AllPairsFit(i: nat, k: nat, a: seq<seq<seq<seq<int>>>>, b: seq<seq<int>>)
    requires Shaped(i, k, a, b)
  {
    forall ii, kk, l :: 0 <= ii < i && 0 <= kk < k && 0 <= l < 16 ==> PairsFit(b[kk], a[ii][kk][l])
  }

  /** Lane `l` of the block reduction is the block's dot product. */
  lemma BlockLane(r: Reduction, i: nat, k: nat, a: seq<seq<seq<seq<int>>>>, b: seq<seq<int>>, ii: nat, kk: nat, l: nat)
    requires Shaped(i, k, a, b) && ii < i && kk < k && l < 16
    requires r == PairQuad ==> AllPairsFit(i, k, a, b)
    ensures Reduce(r, b[kk], KernelBlock(a[ii][kk]))[l] == Dot(b[kk], a[ii][kk][l])
  {
    var rows := a[ii][kk];
    RowsOfKernelBlock(rows);
    assert forall t :: 0 <= t < 64 ==> IsI8(KernelBlock(rows)[t]);
    ReduceLane(r, b[kk], KernelBlock(rows), l);
  }

  /** Summing per-block dot products over the first `n` blocks is the
      reference's partial sum. */
  lemma {:induction false} BlockSums(i: nat, k: nat, a: seq<seq<seq<seq<int>>>>, b: seq<seq<int>>,
                                     ii: nat, l: nat, qs: seq<seq<int>>, n: nat)
    requires Shaped(i, k, a, b) && ii < i && l < 16 && n <= k
    requires |qs| == k && Lanes16(qs)
    requires forall kk :: 0 <= kk < k ==> qs[kk][l] == Dot(b[kk], a[ii][kk][l])
    ensures Lanes16(qs[..n]) && LaneSum(qs[..n], l) == PartialSum(i, k, a, b, ii, l, n)
  {
    if n > 0 {
      BlockSums(i, k, a, b, ii, l, qs, n - 1);
      assert qs[..n][..n - 1] == qs[..n - 1];
    }
  }

  /** Tensorized with the intrinsic, every output row is the reference row:
      reset, then one update per reduction block. This holds always with
      VPDPBUSD, and with the PMADDUBSW/PMADDWD kernel this example uses
      provided no pair sum saturates. */
  lemma TensorizedMatchesReference(r: Reduction, i: nat, k: nat, a: seq<seq<seq<seq<int>>>>, b: seq<seq<int>>,
                                   ii: nat, out: seq<int>)
    requires Shaped(i, k, a, b) && ii < i && |out| == 16
    requires r == PairQuad ==> AllPairsFit(i, k, a, b)
    ensures ResetThenUpdates(r, out, BlockReductions(r, i, k, a, b, ii)) == GemvUint8Int8(i, k, a, b)[ii]
  {
    var qs := BlockReductions(r, i, k, a, b, ii);
    UpdatesAccumulate(r, out, qs);
    forall l | 0 <= l < 16
      ensures ResetThenUpdates(r, out, qs)[l] == GemvUint8Int8(i, k, a, b)[ii][l]
    {
      forall kk | 0 <= kk < k
        ensures qs[kk][l] == Dot(b[kk], a[ii][kk][l])
      {
        BlockLane(r, i, k, a, b, ii, kk, l);
      }
      BlockSums(i, k, a, b, ii, l, qs, k);
      assert qs[..k] == qs;
    }
  }

  // ---------------------------------------------------------------------------
  // tile_axes

  /** A loop axis of the schedule: an original axis, or the outer or inner
      part of splitting an axis by a factor. */
  datatype Axis = Root(name: string) | Outer(of: Axis, factor: int) | Inner(of: Axis, factor: int)

  /** `factors[:-1]`. */
  function AllButLast(fs: seq<int>): (r: seq<int>)
    ensures |r| == if fs == [] then 0 else |fs| - 1
  {
    if fs == [] then [] else fs[..|fs| - 1]
  }

  function Reversed<T>(s: seq<T>): (r: seq<T>)
    ensures |r| == |s|
  {
    if s == [] then [] else [s[|s| - 1]] + Reversed(s[..|s| - 1])
  }

  /** The axes that splitting `axis` by each of `fs`, last factor first,
      leaves, outermost first: the innermost is `axis` split by the last
      factor, the outermost what remains after all the splits. */
  function Tiles(axis: Axis, fs: seq<int>): (r: seq<Axis>)
    ensures |r| == |fs| + 1
    decreases |fs|
  {
    if fs == [] then [axis]
    else Tiles(Outer(axis, fs[|fs| - 1]), fs[..|fs| - 1]) + [Inner(axis, fs[|fs| - 1])]
  }

  /** `tile_axes(s, op, axis, factors)`: splits by every factor but the last,
      from the second-last back to the first, and returns the axes outermost
      first. */
  method TileAxes(axis0: Axis, factors: seq<int>) returns (r: seq<Axis>)
    ensures r == Tiles(axis0, AllButLast(factors))
    ensures |r| == if |factors| <= 1 then 1 else |factors|
  {
    var fs := AllButLast(factors);
    var ret: seq<Axis> := [];
    var axis := axis0;
    var j := |fs|;
    assert fs[..j] == fs;
    assert Tiles(axis0, fs) + Reversed(ret) == Tiles(axis0, fs);
    while j > 0
      invariant 0 <= j <= |fs|
      invariant Tiles(axis0, fs) == Tiles(axis, fs[..j]) + Reversed(ret)
      decreases j
    {
      var f := fs[j - 1];
      var inner := Inner(axis, f);
      assert fs[..j][..j - 1] == fs[..j - 1];
      assert Reversed(ret + [inner]) == [inner] + Reversed(ret) by {
        assert (ret + [inner])[..|ret|] == ret;
      }
      axis := Outer(axis, f);
      ret := ret + [inner];
      j := j - 1;
    }
    assert Reversed(ret + [axis]) == [axis] + Reversed(ret) by {
      assert (ret + [axis])[..|ret|] == ret;
    }
    ret := ret + [axis];
    r := Reversed(ret);
  }

  /** Every split factor inside an axis is positive. */
  predicate PositiveSplits(ax: Axis)
  {
    match ax
    case Root(_) => true
    case Outer(of, f) => f > 0 && PositiveSplits(of)
    case Inner(of, f) => f > 0 && PositiveSplits(of)
  }

  /** The number of iterations of an axis when its original axis has `e`:
      an outer part has the ceiling of its axis' count over the factor, an
      inner part the factor. */
  function Extent(ax: Axis, e: nat): nat
    requires PositiveSplits(ax)
  {
    match ax
    case Root(_) => e
    case Outer(of, f) => Blocks(Extent(of, e), f)
    case Inner(_, f) => f
  }

  function ExtentProduct(axes: seq<Axis>, e: nat): nat
    requires forall x :: 0 <= x < |axes| ==> PositiveSplits(axes[x])
  {
    if axes == [] then 1 else ExtentProduct(axes[..|axes| - 1], e) * Extent(axes[|axes| - 1], e)
  }

  /** The tiles of an axis cover it: their iteration counts multiply to at
      least the axis' own count. */
  lemma {:induction false} TilesCover(axis: Axis, fs: seq<int>, e: nat)
    requires PositiveSplits(axis) && forall x :: 0 <= x < |fs| ==> fs[x] > 0
    ensures forall x :: 0 <= x < |fs| + 1 ==> PositiveSplits(Tiles(axis, fs)[x])
    ensures ExtentProduct(Tiles(axis, fs), e) >= Extent(axis, e)
    decreases |fs|
  {
    if fs != [] {
      var f := fs[|fs| - 1];
      var rest := fs[..|fs| - 1];
      var outer := Outer(axis, f);
      TilesCover(outer, rest, e);
      var ts := Tiles(axis, fs);
      assert ts[..|ts| - 1] == Tiles(outer, rest);
      var p := ExtentProduct(Tiles(outer, rest), e);
      assert ExtentProduct(ts, e) == p * f;
      BlocksAndPad(Extent(axis, e), f);
      MulLeMono(Extent(outer, e), p, f);
    }
  }

  /** The example's `tile_axes(sch, c, i, [16, 2])` on a 32-iteration axis
      gives an outer axis of 2 and an inner axis of 16 iterations. */
  lemma ScheduleSplit()
    ensures Tiles(Root("i"), AllButLast([16, 2])) == [Outer(Root("i"), 16), Inner(Root("i"), 16)]
    ensures Extent(Outer(Root("i"), 16), 32) == 2 && Extent(Inner(Root("i"), 16), 32) == 16
  {
    assert AllButLast([16, 2]) == [16];
    assert [16][..0] == [];
  }
}
