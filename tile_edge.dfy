/** Tile-edge arithmetic of the GEMM intrinsic: how many `dim`-sized blocks an
    extent needs, how much zero padding the last block carries, and which extent
    the last tile along an axis has when the axis is split by a factor. */
module TileEdge {

  /** Ceiling block count, `e // dim + (0 if e % dim == 0 else 1)`. */
  function Blocks(e: nat, dim: nat): (n: nat)
    requires dim > 0
    ensures n * dim >= e
    ensures n > 0 ==> (n - 1) * dim < e
  {
    CeilingDivision(e, dim);
    e / dim + (if e % dim == 0 then 0 else 1)
  }

  /** The ceiling quotient covers `e` and one block fewer does not. */
  lemma CeilingDivision(e: nat, dim: nat)
    requires dim > 0
    ensures var n := e / dim + (if e % dim == 0 then 0 else 1);
      n * dim >= e && (n > 0 ==> (n - 1) * dim < e)
  {
    var q, m := e / dim, e % dim;
    assert e == q * dim + m;
    if m != 0 {
      assert (q + 1) * dim == q * dim + dim;
    }
  }

  /** Zero padding, `0 if e % dim == 0 else dim - e % dim`. */
  function Pad(e: nat, dim: nat): (p: nat)
    requires dim > 0
    ensures p < dim
    ensures p == 0 <==> e % dim == 0
    ensures p != 0 ==> e % dim + p == dim
  {
    if e % dim == 0 then 0 else dim - e % dim
  }

  /** The blocks exactly cover the extent plus its padding, the padding is less
      than one block, it vanishes exactly for multiples of `dim`, and the count is
      the least number of blocks that covers the extent. */
  lemma BlocksAndPad(e: nat, dim: nat)
    requires dim > 0
    ensures Blocks(e, dim) * dim == e + Pad(e, dim)
    ensures 0 <= Pad(e, dim) < dim
    ensures Pad(e, dim) == 0 <==> e % dim == 0
    ensures Blocks(e, dim) * dim >= e
    ensures Blocks(e, dim) > 0 ==> (Blocks(e, dim) - 1) * dim < e
    ensures e > 0 ==> Blocks(e, dim) >= 1
  {
    var q, m := e / dim, e % dim;
    assert e == q * dim + m;
    if m != 0 {
      assert Blocks(e, dim) * dim == (q + 1) * dim == q * dim + dim;
    }
  }

  /** Extent of the last tile when `e` is split by `f`: the remainder, or a full
      tile when `f` divides `e`. */
  function LastExtent(e: nat, f: nat): (x: nat)
    requires f > 0
    ensures 0 < x <= f
    ensures x % f == e % f
  {
    if e % f != 0 then e % f else f
  }

  /** Whether tile `t` is the last, partial tile along an axis of extent `e`
      split by `f` (never true when `f` divides `e`). */
  predicate IsPartialTile(e: nat, f: nat, t: int)
    requires f > 0
  {
    e % f != 0 && t == e / f
  }

  /** The number of elements tile `t` of an axis of extent `e` split by `f`
      really holds: a full `f`, or what is left at the end. */
  function TileExtent(e: nat, f: nat, t: nat): nat
    requires f > 0
  {
    if (t + 1) * f <= e then f else if t * f <= e then e - t * f else 0
  }

  lemma LastExtentRange(e: nat, f: nat)
    requires f > 0
    ensures 1 <= LastExtent(e, f) <= f
    ensures LastExtent(e, f) == f <==> e % f == 0
  {
  }

  /** Choosing the last extent exactly for the partial tile gives every tile of
      the axis its true extent. */
  lemma SelectedExtentIsTileExtent(e: nat, f: nat, t: nat)
    requires f > 0
    requires t < Blocks(e, f)
    ensures (if IsPartialTile(e, f, t) then LastExtent(e, f) else f) == TileExtent(e, f, t)
    ensures 1 <= TileExtent(e, f, t) <= f
  {
    var q, m := e / f, e % f;
    assert e == q * f + m;
    if t < q {
      assert (t + 1) * f <= q * f by { MulLeMono(t + 1, q, f); }
    } else {
      assert t == q && m != 0;
      assert t * f <= e;
      assert (t + 1) * f == q * f + f > e;
    }
  }

  lemma MulLeMono(a: nat, b: nat, c: nat)
    requires a <= b
    ensures a * c <= b * c
  {
  }

  /** An extent of 150 takes ten 16-blocks and 10 elements of padding; 160
      takes ten blocks and none. */
  lemma BlocksExamples()
    ensures Blocks(150, 16) == 10 && Pad(150, 16) == 10
    ensures Blocks(160, 16) == 10 && Pad(160, 16) == 0
  {
  }
}
