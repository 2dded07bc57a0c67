/**
 * The compute server under test (bentchmarks/node-js/main.js): its matrix
 * product and the decision each POST request ends in.
 */
module Server {
  import opened Results
  import opened Matrices
  import opened Protocol

  /**
   * The triple loop on a zero-filled `|mA|`×`|mB[0]|` matrix, adding
   * `mA[i][k] * mB[k][j]` into cell (i, j) for `k < |mA[0]|`.
   */
  method Multiply(mA: Matrix, mB: Matrix) returns (mC: Matrix)
    requires InBounds(mA, mB)
    ensures |mC| == |mA|
    ensures forall i :: 0 <= i < |mC| ==> |mC[i]| == |mB[0]|
    ensures forall i, j :: 0 <= i < |mA| && 0 <= j < |mB[0]| ==> mC[i][j] == Dot(mA, mB, i, j, |mA[0]|)
    ensures |mA[0]| == 0 ==> forall i, j :: 0 <= i < |mC| && 0 <= j < |mC[i]| ==> mC[i][j] == 0
  {
    var rowsA := |mA|;
    var colsA := |mA[0]|;
    var colsB := |mB[0]|;
    mC := seq(rowsA, _ => seq(colsB, _ => 0));
    var i := 0;
    while i < rowsA
      invariant 0 <= i <= rowsA
      invariant IsShape(mC, rowsA, colsB)
      invariant forall r, c :: 0 <= r < i && 0 <= c < colsB ==> mC[r][c] == Dot(mA, mB, r, c, colsA)
      invariant forall r, c :: i <= r < rowsA && 0 <= c < colsB ==> mC[r][c] == 0
    {
      var j := 0;
      while j < colsB
        invariant 0 <= j <= colsB
        invariant IsShape(mC, rowsA, colsB)
        invariant forall r, c :: 0 <= r < i && 0 <= c < colsB ==> mC[r][c] == Dot(mA, mB, r, c, colsA)
        invariant forall c :: 0 <= c < j ==> mC[i][c] == Dot(mA, mB, i, c, colsA)
        invariant forall c :: j <= c < colsB ==> mC[i][c] == 0
        invariant forall r, c :: i < r < rowsA && 0 <= c < colsB ==> mC[r][c] == 0
      {
        var k := 0;
        while k < colsA
          invariant 0 <= k <= colsA
          invariant IsShape(mC, rowsA, colsB)
          invariant forall r, c :: 0 <= r < i && 0 <= c < colsB ==> mC[r][c] == Dot(mA, mB, r, c, colsA)
          invariant forall c :: 0 <= c < j ==> mC[i][c] == Dot(mA, mB, i, c, colsA)
          invariant mC[i][j] == Dot(mA, mB, i, j, k)
          invariant forall c :: j < c < colsB ==> mC[i][c] == 0
          invariant forall r, c :: i < r < rowsA && 0 <= c < colsB ==> mC[r][c] == 0
        {
          mC := mC[i := mC[i][j := mC[i][j] + mA[i][k] * mB[k][j]]];
          k := k + 1;
        }
        j := j + 1;
      }
      i := i + 1;
    }
  }

  /** The JSON body of a POST, once parsed. */
  datatype Payload = Payload(taskName: string, matrixA: Matrix, matrixB: Matrix)

  /** A request: its HTTP method and its body, `None` when the body is not valid JSON. */
  datatype Request = Request(verb: string, body: Option<Payload>)

  /** One element of the results file. The timestamp is supplied by the caller. */
  datatype ResultEntry = ResultEntry(timestamp: string, taskName: string, matrixA: Matrix, matrixB: Matrix, result: Matrix)

  /**
   * Where `multiplyMatrices` raises a TypeError: reading the first row of an
   * empty operand, or, once a column is to be computed, reading a row of `mB`
   * past its end.
   */
  predicate Throws(mA: Matrix, mB: Matrix)
  {
    |mA| == 0 || |mB| == 0 || (|mB[0]| > 0 && |mB| < |mA[0]|)
  }

  /**
   * A request is handled by the model when its product, if reached and not
   * raising, reads only existing entries (short rows would yield NaN).
   */
  predicate Handled(req: Request)
  {
    (req.verb == "POST" && req.body.Some? && req.body.value.taskName == MatrixMultiplication &&
     !Throws(req.body.value.matrixA, req.body.value.matrixB))
      ==> InBounds(req.body.value.matrixA, req.body.value.matrixB)
  }

  /**
   * `requestListener`: 404 for anything but POST; 500 when the body does not
   * parse or the product raises; 400 for an unknown task; otherwise 200 and
   * one new entry at the end of the results list.
   */
  method Handle(req: Request, existing: seq<ResultEntry>, now: string)
    returns (status: int, results: seq<ResultEntry>)
    requires Handled(req)
    ensures req.verb != "POST" ==> status == 404
    ensures req.verb == "POST" && req.body.None? ==> status == 500
    ensures req.verb == "POST" && req.body.Some? && req.body.value.taskName != MatrixMultiplication ==>
              status == 400
    ensures req.verb == "POST" && req.body.Some? && req.body.value.taskName == MatrixMultiplication ==>
              (status == 500 <==> Throws(req.body.value.matrixA, req.body.value.matrixB))
    ensures status == 200 <==>
              req.verb == "POST" && req.body.Some? && req.body.value.taskName == MatrixMultiplication &&
              !Throws(req.body.value.matrixA, req.body.value.matrixB)
    ensures status != 200 ==> results == existing
    ensures status == 200 ==>
              && |results| == |existing| + 1
              && results[..|existing|] == existing
              && results[|existing|] == ResultEntry(now, MatrixMultiplication, req.body.value.matrixA,
                                                    req.body.value.matrixB,
                                                    Product(req.body.value.matrixA, req.body.value.matrixB))
  {
    results := existing;
    if req.verb != "POST" {
      return 404, results;
    }
    if req.body.None? {
      return 500, results;
    }
    var Payload(taskName, matrixA, matrixB) := req.body.value;
    if taskName != MatrixMultiplication {
      return 400, results;
    }
    if Throws(matrixA, matrixB) {
      return 500, results;
    }
    var multiplicationResult := Multiply(matrixA, matrixB);
    CellwiseIsProduct(matrixA, matrixB, multiplicationResult);
    var resultObj := ResultEntry(now, taskName, matrixA, matrixB, multiplicationResult);
    results := results + [resultObj];
    status := 200;
  }
}
