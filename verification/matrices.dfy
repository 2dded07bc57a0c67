/** Integer matrices and the mathematical product both programs compute. */
module Matrices {

  /** A matrix is a sequence of rows; nothing forces the rows to have equal length. */
  type Matrix = seq<seq<int>>

  /** `M` has exactly `rows` rows, each of exactly `cols` entries. */
  predicate IsShape(M: Matrix, rows: nat, cols: nat)
  {
    |M| == rows && forall i :: 0 <= i < |M| ==> |M[i]| == cols
  }

  /** Every read of `A[i][k] * B[k][j]` with `k < m` stays inside the rows. */
  predicate DotDefined(A: Matrix, B: Matrix, i: nat, j: nat, m: nat)
  {
    i < |A| && m <= |A[i]| && m <= |B| && forall k :: 0 <= k < m ==> j < |B[k]|
  }

  /** The dot product of row `i` of `A` with column `j` of `B`, over the first `m` terms. */
  function Dot(A: Matrix, B: Matrix, i: nat, j: nat, m: nat): int
    requires DotDefined(A, B, i, j, m)
    decreases m
  {
    if m == 0 then 0 else Dot(A, B, i, j, m - 1) + A[i][m - 1] * B[m - 1][j]
  }

  /**
   * The reads a triple-loop product makes stay in bounds, when the inner
   * dimension is taken from `A[0]` and the column count from `B[0]`: both
   * matrices have a first row and, when there is a column to compute (only
   * then is any entry read), every row of `A` has at least `|A[0]|` entries
   * and the first `|A[0]|` rows of `B` exist and have at least `|B[0]|` entries.
   */
  predicate InBounds(A: Matrix, B: Matrix)
  {
    && |A| > 0
    && |B| > 0
    && (|B[0]| > 0 ==>
          && (forall i :: 0 <= i < |A| ==> |A[i]| >= |A[0]|)
          && |B| >= |A[0]|
          && (forall k :: 0 <= k < |A[0]| ==> |B[k]| >= |B[0]|))
  }

  /** The classical rectangular situation: `A` is n×m and `B` is m×p with n, m > 0. */
  predicate Conformable(A: Matrix, B: Matrix)
  {
    && |A| > 0
    && |A[0]| > 0
    && IsShape(A, |A|, |A[0]|)
    && |B| == |A[0]|
    && IsShape(B, |B|, |B[0]|)
  }

  /** The reference product: entry (i, j) is the dot product over `|A[0]|` terms. */
  function Product(A: Matrix, B: Matrix): (C: Matrix)
    requires InBounds(A, B)
    ensures IsShape(C, |A|, |B[0]|)
  {
    seq(|A|, i requires 0 <= i < |A| =>
      seq(|B[0]|, j requires 0 <= j < |B[0]| => Dot(A, B, i, j, |A[0]|)))
  }

  /** A matrix of the product's shape whose every entry is the dot product is the product. */
  lemma CellwiseIsProduct(A: Matrix, B: Matrix, C: Matrix)
    requires InBounds(A, B)
    requires IsShape(C, |A|, |B[0]|)
    requires forall i, j :: 0 <= i < |A| && 0 <= j < |B[0]| ==> C[i][j] == Dot(A, B, i, j, |A[0]|)
    ensures C == Product(A, B)
  {
    assert forall i :: 0 <= i < |A| ==> C[i] == Product(A, B)[i];
  }
}
