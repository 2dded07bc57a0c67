/** The tester's per-entry check of a results file written by the server (`testServerOutput`). */
module ServerOutput {
  import opened Matrices
  import opened Protocol
  import Convert
  import Verifier

  /** The report for one entry of the results file. */
  datatype Verdict = Correct | Incorrect | UnknownKind(taskName: string)

  /** One decoded entry: a JSON object whose fields are read with ignored type assertions. */
  type Entry = map<string, Json>

  function EntryName(e: Entry): string { AsString(Field(e, "taskName")) }
  function EntryA(e: Entry): Matrix { Convert.Decoded(AsArray(Field(e, "matrixA"))) }
  function EntryB(e: Entry): Matrix { Convert.Decoded(AsArray(Field(e, "matrixB"))) }
  function EntryR(e: Entry): Matrix { Convert.Decoded(AsArray(Field(e, "result"))) }

  /** A matrix-multiplication entry on which the verifier does not panic. */
  predicate Checkable(e: Entry)
  {
    EntryName(e) == MatrixMultiplication ==> Verifier.VerifyDefined(EntryA(e), EntryB(e), EntryR(e))
  }

  /** Converts the three matrices, then verifies only entries of the known kind. */
  method CheckEntry(e: Entry) returns (v: Verdict)
    requires Checkable(e)
    ensures EntryName(e) != MatrixMultiplication ==> v == UnknownKind(EntryName(e))
    ensures EntryName(e) == MatrixMultiplication ==>
              (v == Correct <==> Verifier.Accepts(EntryA(e), EntryB(e), EntryR(e)))
    ensures EntryName(e) == MatrixMultiplication ==> !v.UnknownKind?
  {
    var taskName := EntryName(e);
    var convA := Convert.ConvertMatrix(AsArray(Field(e, "matrixA")));
    var convB := Convert.ConvertMatrix(AsArray(Field(e, "matrixB")));
    var convR := Convert.ConvertMatrix(AsArray(Field(e, "result")));
    if taskName == MatrixMultiplication {
      var ok := Verifier.Verify(convA, convB, convR);
      v := if ok then Correct else Incorrect;
    } else {
      v := UnknownKind(taskName);
    }
  }

  /** The report `v` is the one the source prints for entry `e`. */
  predicate Judged(e: Entry, v: Verdict)
    requires Checkable(e)
  {
    if EntryName(e) != MatrixMultiplication then v == UnknownKind(EntryName(e))
    else !v.UnknownKind? && (v == Correct <==> Verifier.Accepts(EntryA(e), EntryB(e), EntryR(e)))
  }

  /** Every entry is judged on its own, one report per entry, in file order. */
  method CheckEntries(entries: seq<Entry>) returns (verdicts: seq<Verdict>)
    requires forall i :: 0 <= i < |entries| ==> Checkable(entries[i])
    ensures |verdicts| == |entries|
    ensures forall i :: 0 <= i < |entries| ==> Judged(entries[i], verdicts[i])
  {
    verdicts := [];
    var i := 0;
    while i < |entries|
      invariant 0 <= i <= |entries|
      invariant |verdicts| == i
      invariant forall r :: 0 <= r < i ==> Judged(entries[r], verdicts[r])
    {
      var v := CheckEntry(entries[i]);
      verdicts := verdicts + [v];
      i := i + 1;
    }
  }
}
