/** The GEMM compute definition the Gemmini intrinsic tensorizes:
    `c[ii, jj] = sum over kk of a[ii, kk] * b[kk, jj]` on an i x k and a
    k x j operand. Every operand and the result are int8, so the sum is kept
    to its low 8 bits, read as signed. */
module GemmCompute {
  import opened Machine

  /** `m` has `rows` rows of `cols` entries each. */
  predicate IsMatrix(m: seq<seq<int>>, rows: nat, cols: nat)
  {
    |m| == rows && forall r :: 0 <= r < rows ==> |m[r]| == cols
  }

  /** The exact sum of the first `n` products along the reduction axis. */
  function Entry(i: nat, j: nat, k: nat, a: seq<seq<int>>, b: seq<seq<int>>, ii: nat, jj: nat, n: nat): int
    requires IsMatrix(a, i, k) && IsMatrix(b, k, j) && ii < i && jj < j && n <= k
  {
    if n == 0 then 0 else Entry(i, j, k, a, b, ii, jj, n - 1) + a[ii][n - 1] * b[n - 1][jj]
  }

  /** `intrinsic_gemm_int8_compute(i, j, k)` applied to operands `a` and `b`. */
  function GemmInt8Compute(i: nat, j: nat, k: nat, a: seq<seq<int>>, b: seq<seq<int>>): (c: seq<seq<int>>)
    requires IsMatrix(a, i, k) && IsMatrix(b, k, j)
    ensures IsMatrix(c, i, j)
    ensures forall ii, jj :: 0 <= ii < i && 0 <= jj < j ==> IsI8(c[ii][jj])
  {
    seq(i, ii requires 0 <= ii < i =>
      seq(j, jj requires 0 <= jj < j => AsSigned8(Entry(i, j, k, a, b, ii, jj, k))))
  }

  /** An entry whose exact sum fits in int8 is that sum. */
  lemma ExactWhenInRange(i: nat, j: nat, k: nat, a: seq<seq<int>>, b: seq<seq<int>>, ii: nat, jj: nat)
    requires IsMatrix(a, i, k) && IsMatrix(b, k, j) && ii < i && jj < j
    requires IsI8(Entry(i, j, k, a, b, ii, jj, k))
    ensures GemmInt8Compute(i, j, k, a, b)[ii][jj] == Entry(i, j, k, a, b, ii, jj, k)
  {
  }

  /** `m` extended with zeros to `rows` x `cols`. */
  function ZeroPad(m: seq<seq<int>>, r0: nat, c0: nat, rows: nat, cols: nat): (p: seq<seq<int>>)
    requires IsMatrix(m, r0, c0) && r0 <= rows && c0 <= cols
    ensures IsMatrix(p, rows, cols)
    ensures forall r, c :: 0 <= r < rows && 0 <= c < cols && !(r < r0 && c < c0) ==> p[r][c] == 0
    ensures forall r, c :: 0 <= r < r0 && 0 <= c < c0 ==> p[r][c] == m[r][c]
  {
    seq(rows, r requires 0 <= r < rows =>
      seq(cols, c requires 0 <= c < cols => if r < r0 && c < c0 then m[r][c] else 0))
  }

  /** Along the padded reduction axis the partial sums of an original entry
      are those of the original operands, and stop growing past `k`. */
  lemma {:induction false} PaddedEntry(i: nat, j: nat, k: nat, pi: nat, pj: nat, pk: nat,
                                       a: seq<seq<int>>, b: seq<seq<int>>, ii: nat, jj: nat, n: nat)
    requires IsMatrix(a, i, k) && IsMatrix(b, k, j) && ii < i && jj < j && n <= k + pk
    ensures Entry(i + pi, j + pj, k + pk, ZeroPad(a, i, k, i + pi, k + pk), ZeroPad(b, k, j, k + pk, j + pj), ii, jj, n)
         == Entry(i, j, k, a, b, ii, jj, if n <= k then n else k)
  {
    if n > 0 {
      PaddedEntry(i, j, k, pi, pj, pk, a, b, ii, jj, n - 1);
    }
  }

  /** The compute definition on both operands zero-padded by `pi`, `pj`, `pk`. */
  function PaddedCompute(i: nat, j: nat, k: nat, pi: nat, pj: nat, pk: nat, a: seq<seq<int>>, b: seq<seq<int>>): (c: seq<seq<int>>)
    requires IsMatrix(a, i, k) && IsMatrix(b, k, j)
    ensures IsMatrix(c, i + pi, j + pj)
  {
    GemmInt8Compute(i + pi, j + pj, k + pk, ZeroPad(a, i, k, i + pi, k + pk), ZeroPad(b, k, j, k + pk, j + pj))
  }

  /** Zero-padding both operands (by the pad amounts the Gemmini call carries)
      leaves every entry of the original i x j result unchanged, and the
      padded rows and columns of the result are zero. */
  lemma PaddingPreservesResult(i: nat, j: nat, k: nat, pi: nat, pj: nat, pk: nat, a: seq<seq<int>>, b: seq<seq<int>>)
    requires IsMatrix(a, i, k) && IsMatrix(b, k, j)
    ensures forall ii, jj :: 0 <= ii < i && 0 <= jj < j ==>
      PaddedCompute(i, j, k, pi, pj, pk, a, b)[ii][jj]
      == GemmInt8Compute(i, j, k, a, b)[ii][jj]
    ensures forall ii, jj :: 0 <= ii < i + pi && 0 <= jj < j + pj && !(ii < i && jj < j) ==>
      PaddedCompute(i, j, k, pi, pj, pk, a, b)[ii][jj] == 0
  {
    var pa, pb := ZeroPad(a, i, k, i + pi, k + pk), ZeroPad(b, k, j, k + pk, j + pj);
    forall ii, jj | 0 <= ii < i && 0 <= jj < j
      ensures PaddedCompute(i, j, k, pi, pj, pk, a, b)[ii][jj] == GemmInt8Compute(i, j, k, a, b)[ii][jj]
    {
      PaddedEntry(i, j, k, pi, pj, pk, a, b, ii, jj, k + pk);
    }
    forall ii, jj | 0 <= ii < i + pi && 0 <= jj < j + pj && !(ii < i && jj < j)
      ensures PaddedCompute(i, j, k, pi, pj, pk, a, b)[ii][jj] == 0
    {
      ZeroEntry(i + pi, j + pj, k + pk, pa, pb, ii, jj, k + pk, i, j);
    }
  }

  /** A row of `a` or a column of `b` that is all zeros gives zero sums. */
  lemma {:induction false} ZeroEntry(i: nat, j: nat, k: nat, a: seq<seq<int>>, b: seq<seq<int>>,
                                     ii: nat, jj: nat, n: nat, i0: nat, j0: nat)
    requires IsMatrix(a, i, k) && IsMatrix(b, k, j) && ii < i && jj < j && n <= k
    requires !(ii < i0 && jj < j0)
    requires forall c :: 0 <= c < k && ii >= i0 ==> a[ii][c] == 0
    requires forall r :: 0 <= r < k && jj >= j0 ==> b[r][jj] == 0
    ensures Entry(i, j, k, a, b, ii, jj, n) == 0
  {
    if n > 0 {
      ZeroEntry(i, j, k, a, b, ii, jj, n - 1, i0, j0);
    }
  }
}
