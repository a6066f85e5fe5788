/**
 * Convolution kernels and their weight sum.
 *
 * A kernel is a two-level array of weights `k[i][j]`. The convolution engine
 * reads it as `k[fX + fW][fY + fH]` while taking the half-width from
 * `k[0].length` and the half-height from `k.length`; both readings agree only
 * when the kernel is square and of odd size, which `IsKernel` demands. The
 * weight sum reads `k[x][y]` over the same bounds and needs only squareness.
 * Weights are integers so that sums and quotients are exact.
 */
module Kernels {

  type Kernel = seq<seq<int>>

  /** Every inner array is as long as the outer one. */
  predicate IsSquare(k: Kernel) {
    forall i :: 0 <= i < |k| ==> |k[i]| == |k|
  }

  /** Square and of odd size, so the centre tap is `k[Half(k)][Half(k)]`. */
  predicate IsKernel(k: Kernel) {
    |k| % 2 == 1 && IsSquare(k)
  }

  /** The half-width `k.length / 2`, the reach of the kernel from its centre. */
  function Half(k: Kernel): int { |k| / 2 }

  /** Sum of a sequence of weights, accumulated left to right. */
  function Sum(s: seq<int>): int {
    if s == [] then 0 else Sum(s[..|s| - 1]) + s[|s| - 1]
  }

  /** Sum of the first `m` inner arrays, each summed whole. */
  function RowsWeight(k: Kernel, m: nat): int
    requires m <= |k|
  {
    if m == 0 then 0 else RowsWeight(k, m - 1) + Sum(k[m - 1])
  }

  /** The total weight of a kernel: the sum of every entry. */
  function TotalWeight(k: Kernel): int {
    RowsWeight(k, |k|)
  }

  /** `k[0][y] + k[1][y] + ... + k[m-1][y]`: one pass of `getFilterSum`'s inner loop. */
  function ColumnSum(k: Kernel, y: nat, m: nat): int
    requires m <= |k|
    requires forall i :: 0 <= i < m ==> y < |k[i]|
  {
    if m == 0 then 0 else ColumnSum(k, y, m - 1) + k[m - 1][y]
  }

  /**
   * The weights in the order `getFilterSum` visits them: `y` outer, `x` inner,
   * reading `k[x][y]`; here for the first `n` values of `y`.
   */
  function SourceOrderSum(k: Kernel, n: nat): int
    requires n <= |k| && IsSquare(k)
  {
    if n == 0 then 0 else SourceOrderSum(k, n - 1) + ColumnSum(k, n - 1, |k|)
  }

  /** Sum of the first `n` entries of each of the first `m` inner arrays. */
  function PrefixWeight(k: Kernel, m: nat, n: nat): int
    requires m <= |k|
    requires forall i :: 0 <= i < m ==> n <= |k[i]|
  {
    if m == 0 then 0 else PrefixWeight(k, m - 1, n) + Sum(k[m - 1][..n])
  }

  /** Widening every inner prefix by one entry adds one column. */
  lemma {:induction false} PrefixWeightStep(k: Kernel, m: nat, n: nat)
    requires m <= |k|
    requires forall i :: 0 <= i < m ==> n < |k[i]|
    ensures PrefixWeight(k, m, n + 1) == PrefixWeight(k, m, n) + ColumnSum(k, n, m)
  {
    if m > 0 {
      PrefixWeightStep(k, m - 1, n);
      var row := k[m - 1];
      assert row[..n + 1][..n] == row[..n];
    }
  }

  /** Summing column by column equals summing row by row (prefix form). */
  lemma {:induction false} SourceOrderIsPrefixWeight(k: Kernel, n: nat)
    requires IsSquare(k) && n <= |k|
    ensures SourceOrderSum(k, n) == PrefixWeight(k, |k|, n)
  {
    if n == 0 {
      PrefixWeightEmpty(k, |k|);
    } else {
      SourceOrderIsPrefixWeight(k, n - 1);
      PrefixWeightStep(k, |k|, n - 1);
    }
  }

  lemma {:induction false} PrefixWeightEmpty(k: Kernel, m: nat)
    requires m <= |k|
    ensures PrefixWeight(k, m, 0) == 0
  {
    if m > 0 {
      PrefixWeightEmpty(k, m - 1);
    }
  }

  /** With full-width prefixes, the prefix form is the row-by-row total. */
  lemma {:induction false} PrefixWeightIsRowsWeight(k: Kernel, m: nat)
    requires IsSquare(k) && m <= |k|
    ensures PrefixWeight(k, m, |k|) == RowsWeight(k, m)
  {
    if m > 0 {
      PrefixWeightIsRowsWeight(k, m - 1);
      assert k[m - 1][..|k|] == k[m - 1];
    }
  }

  /**
   * Visiting a square kernel in `getFilterSum`'s transposed order still sums every
   * weight exactly once.
   */
  lemma SourceOrderIsTotal(k: Kernel)
    requires IsSquare(k)
    ensures SourceOrderSum(k, |k|) == TotalWeight(k)
  {
    SourceOrderIsPrefixWeight(k, |k|);
    PrefixWeightIsRowsWeight(k, |k|);
  }

  /**
   * The divisor the engine uses: the total weight, or 1 when the weights sum
   * to zero (as for derivative kernels), so that it never divides by zero.
   */
  function Divisor(k: Kernel): (d: int)
    ensures d != 0
    ensures TotalWeight(k) == 0 ==> d == 1
    ensures TotalWeight(k) != 0 ==> d == TotalWeight(k)
  {
    if TotalWeight(k) == 0 then 1 else TotalWeight(k)
  }
}
