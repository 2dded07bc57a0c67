/**
 * The two programs together: the server answers a task, writes its entry to
 * the results file as JSON, and the tester reads that entry back and checks it.
 */
module Pipeline {
  import opened Results
  import opened Matrices
  import opened Protocol
  import Convert
  import Verifier
  import Server
  import ServerOutput

  /** The JSON object the server writes for one results-file entry. */
  function EntryObject(e: Server.ResultEntry): ServerOutput.Entry
  {
    map[
      "timestamp" := JString(e.timestamp),
      "taskName" := JString(e.taskName),
      "matrixA" := JArray(Convert.Encode(e.matrixA)),
      "matrixB" := JArray(Convert.Encode(e.matrixB)),
      "result" := JArray(Convert.Encode(e.result))
    ]
  }

  /**
   * A matrix-multiplication request with in-bounds operands is answered with
   * 200, and the entry it appends is reported correct by the tester.
   */
  method ServeThenCheck(A: Matrix, B: Matrix, existing: seq<Server.ResultEntry>, now: string)
    returns (status: int, verdict: ServerOutput.Verdict)
    requires InBounds(A, B)
    ensures status == 200
    ensures verdict == ServerOutput.Correct
  {
    var req := Server.Request("POST", Some(Server.Payload(MatrixMultiplication, A, B)));
    var results;
    status, results := Server.Handle(req, existing, now);
    var obj := EntryObject(results[|existing|]);
    Convert.DecodeEncode(A);
    Convert.DecodeEncode(B);
    Convert.DecodeEncode(Product(A, B));
    Verifier.AcceptsProduct(A, B);
    verdict := ServerOutput.CheckEntry(obj);
  }

  /** The corrected verifier accepts what the server computes for rectangular operands. */
  method MultiplyThenVerifyTotal(A: Matrix, B: Matrix) returns (ok: bool)
    requires Conformable(A, B)
    ensures ok
  {
    var C := Server.Multiply(A, B);
    CellwiseIsProduct(A, B, C);
    ok := Verifier.VerifyTotal(A, B, C);
  }
}
