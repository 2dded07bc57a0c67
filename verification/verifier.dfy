/**
 * The tester's independent check of a claimed matrix product
 * (`verifyMatrixMultiplication` in tester/main.go).
 */
module Verifier {
  import opened Matrices

  /**
   * The inputs on which the tester's verifier runs to completion instead of
   * panicking on an index out of range. With no row in `A` nothing is read.
   * Otherwise `B[0]` is read before the shape guard, so `B` needs a row; only
   * when the guard passes are the later rows of `A`, the rows of `B` and
   * every row of the claimed result read, so only then must those reads stay
   * in bounds (just the first result row's length is checked by the guard).
   */
  predicate VerifyDefined(A: Matrix, B: Matrix, R: Matrix)
  {
    || |A| == 0
    || (&& |B| > 0
        && (|R| == |A| && |R[0]| == |B[0]| ==>
              InBounds(A, B) && forall i :: 0 <= i < |R| ==> |R[i]| >= |B[0]|))
  }

  /**
   * What the verifier accepts: `A` has a row, the claimed result has `|A|`
   * rows and a first row of `|B[0]|` entries, and every entry (i, j) with
   * `i < |A|`, `j < |B[0]|` equals the dot product over `|A[0]|` terms.
   */
  predicate Accepts(A: Matrix, B: Matrix, R: Matrix)
    requires VerifyDefined(A, B, R)
  {
    && |A| > 0
    && |R| == |A|
    && |R[0]| == |B[0]|
    && forall i, j :: 0 <= i < |A| && 0 <= j < |B[0]| ==> R[i][j] == Dot(A, B, i, j, |A[0]|)
  }

  /** The triple loop of the source, returning false at the first mismatch. */
  method Verify(A: Matrix, B: Matrix, R: Matrix) returns (ok: bool)
    requires VerifyDefined(A, B, R)
    ensures |A| == 0 ==> !ok
    ensures |A| > 0 && (|R| != |A| || |R[0]| != |B[0]|) ==> !ok
    ensures ok <==> Accepts(A, B, R)
  {
    var n := |A|;
    if n == 0 {
      return false;
    }
    var m := |A[0]|;
    var p := |B[0]|;
    if |R| != n || |R[0]| != p {
      return false;
    }
    var i := 0;
    while i < n
      invariant 0 <= i <= n
      invariant forall r, c :: 0 <= r < i && 0 <= c < p ==> R[r][c] == Dot(A, B, r, c, m)
    {
      var j := 0;
      while j < p
        invariant 0 <= j <= p
        invariant forall r, c :: 0 <= r < i && 0 <= c < p ==> R[r][c] == Dot(A, B, r, c, m)
        invariant forall c :: 0 <= c < j ==> R[i][c] == Dot(A, B, i, c, m)
      {
        var expected := 0;
        var k := 0;
        while k < m
          invariant 0 <= k <= m
          invariant expected == Dot(A, B, i, j, k)
        {
          expected := expected + A[i][k] * B[k][j];
          k := k + 1;
        }
        if R[i][j] != expected {
          return false;
        }
        j := j + 1;
      }
      i := i + 1;
    }
    return true;
  }

  /**
   * The guard decides before any entry past the first rows is read: a
   * row-count mismatch is rejected even when later rows of `A` are short,
   * and when no column is to be compared, short rows of `A` are never read.
   */
  lemma ShapeGuardExamples()
    ensures VerifyDefined([[1], []], [[1]], []) && !Accepts([[1], []], [[1]], [])
    ensures VerifyDefined([[1, 2]], [[1]], []) && !Accepts([[1, 2]], [[1]], [])
    ensures VerifyDefined([[1], []], [[]], [[], []]) && Accepts([[1], []], [[]], [[], []])
  {
  }

  /** The true product of in-bounds operands is accepted. */
  lemma AcceptsProduct(A: Matrix, B: Matrix)
    requires InBounds(A, B)
    ensures VerifyDefined(A, B, Product(A, B))
    ensures Accepts(A, B, Product(A, B))
  {
  }

  /**
   * For a claimed result of the right rectangular shape, acceptance is
   * exactly equality with the true product.
   */
  lemma AcceptsExactlyProduct(A: Matrix, B: Matrix, R: Matrix)
    requires InBounds(A, B)
    requires IsShape(R, |A|, |B[0]|)
    ensures VerifyDefined(A, B, R)
    ensures Accepts(A, B, R) <==> R == Product(A, B)
  {
    var C := Product(A, B);
    if Accepts(A, B, R) {
      assert forall i :: 0 <= i < |A| ==> R[i] == C[i];
    }
  }

  /** Changing a single entry of an accepted result makes it rejected. */
  lemma OneWrongCellRejects(A: Matrix, B: Matrix, R: Matrix, i: nat, j: nat, v: int)
    requires VerifyDefined(A, B, R) && Accepts(A, B, R)
    requires i < |A| && j < |B[0]|
    requires v != R[i][j]
    ensures VerifyDefined(A, B, R[i := R[i][j := v]])
    ensures !Accepts(A, B, R[i := R[i][j := v]])
  {
    var R' := R[i := R[i][j := v]];
    assert R'[i][j] == v;
  }

  /**
   * As written, the shape guard reads only the first row of the claimed
   * result, so a result whose second row carries an extra entry is accepted
   * although it is not a 2×1 matrix.
   */
  lemma AcceptsRaggedResult()
    ensures VerifyDefined([[1], [1]], [[1]], [[1], [1, 99]])
    ensures Accepts([[1], [1]], [[1]], [[1], [1, 99]])
    ensures !IsShape([[1], [1, 99]], 2, 1)
  {
    var A: Matrix := [[1], [1]];
    var B: Matrix := [[1]];
    assert Dot(A, B, 0, 0, 1) == 1;
    assert Dot(A, B, 1, 0, 1) == 1;
  }

  /**
   * The verifier with the full n×p shape check the comment before the guard
   * announces: it never panics on malformed input, compares the shape of
   * every row of the claimed result, and accepts exactly the true product of
   * an n×m and an m×p matrix with n, m > 0 (with m = 0 the matrix `B` has no
   * first row to read the column count p from).
   */
  method VerifyTotal(A: Matrix, B: Matrix, R: Matrix) returns (ok: bool)
    ensures ok <==> Conformable(A, B) && IsShape(R, |A|, |B[0]|) && R == Product(A, B)
  {
    if !Conformable(A, B) || !IsShape(R, |A|, |B[0]|) {
      return false;
    }
    AcceptsExactlyProduct(A, B, R);
    ok := Verify(A, B, R);
  }
}
