/** The tester's conversion of a decoded JSON matrix to integers (`convertMatrix`). */
module Convert {
  import opened Matrices
  import opened Protocol

  /** The elements of `data` that are arrays, as their item lists, in input order. */
  function ArrayRows(data: seq<Json>): seq<seq<Json>>
  {
    if |data| == 0 then []
    else
      var last := data[|data| - 1];
      ArrayRows(data[..|data| - 1]) + (if last.JArray? then [last.items] else [])
  }

  /** One cell: a number keeps its value, anything else becomes 0. */
  function CellValue(v: Json): int
  {
    if v.JNumber? then v.n else 0
  }

  /** The converted matrix described declaratively, row by row and cell by cell. */
  function Decoded(data: seq<Json>): Matrix
  {
    var rows := ArrayRows(data);
    seq(|rows|, i requires 0 <= i < |rows| =>
      seq(|rows[i]|, c requires 0 <= c < |rows[i]| => CellValue(rows[i][c])))
  }

  /** Decoding one more element appends its converted row when it is an array. */
  lemma DecodedSnoc(data: seq<Json>)
    requires |data| > 0
    ensures var last := data[|data| - 1];
      Decoded(data) == Decoded(data[..|data| - 1]) +
        (if last.JArray?
         then [seq(|last.items|, c requires 0 <= c < |last.items| => CellValue(last.items[c]))]
         else [])
  {
  }

  /** The loop of the source: skip non-array rows, coerce each cell of the others. */
  method ConvertMatrix(data: seq<Json>) returns (result: Matrix)
    ensures |result| == |ArrayRows(data)|
    ensures forall i :: 0 <= i < |result| ==> |result[i]| == |ArrayRows(data)[i]|
    ensures forall i, c :: 0 <= i < |result| && 0 <= c < |result[i]| ==>
              result[i][c] == CellValue(ArrayRows(data)[i][c])
    ensures result == Decoded(data)
  {
    result := [];
    var idx := 0;
    while idx < |data|
      invariant 0 <= idx <= |data|
      invariant result == Decoded(data[..idx])
    {
      assert data[..idx + 1][..idx] == data[..idx];
      var row := data[idx];
      if row.JArray? {
        var rowSlice := row.items;
        var intRow := seq(|rowSlice|, _ => 0);
        var c := 0;
        while c < |rowSlice|
          invariant 0 <= c <= |rowSlice|
          invariant |intRow| == |rowSlice|
          invariant forall c' :: 0 <= c' < c ==> intRow[c'] == CellValue(rowSlice[c'])
        {
          if rowSlice[c].JNumber? {
            intRow := intRow[c := rowSlice[c].n];
          } else {
            intRow := intRow[c := 0];
          }
          c := c + 1;
        }
        assert intRow == seq(|rowSlice|, c requires 0 <= c < |rowSlice| => CellValue(rowSlice[c]));
        result := result + [intRow];
      }
      DecodedSnoc(data[..idx + 1]);
      idx := idx + 1;
    }
    assert data[..|data|] == data;
  }

  /** Splitting the input splits the kept rows the same way, so input order is kept. */
  lemma {:induction false} ArrayRowsAppend(a: seq<Json>, b: seq<Json>)
    ensures ArrayRows(a + b) == ArrayRows(a) + ArrayRows(b)
    decreases |b|
  {
    if |b| == 0 {
      assert a + b == a;
    } else {
      var b' := b[..|b| - 1];
      assert (a + b)[..|a + b| - 1] == a + b';
      ArrayRowsAppend(a, b');
    }
  }

  /** An element that is not an array contributes no row. */
  lemma NonArrayDropped(a: seq<Json>, v: Json, b: seq<Json>)
    requires !v.JArray?
    ensures ArrayRows(a + [v] + b) == ArrayRows(a + b)
  {
    ArrayRowsAppend(a + [v], b);
    ArrayRowsAppend(a, [v]);
    ArrayRowsAppend(a, b);
    assert ArrayRows([v]) == ArrayRows([]) + [];
  }

  /** The JSON form of an integer matrix, as the server writes it. */
  function Encode(M: Matrix): seq<Json>
  {
    seq(|M|, i requires 0 <= i < |M| => JArray(seq(|M[i]|, c requires 0 <= c < |M[i]| => JNumber(M[i][c]))))
  }

  lemma {:induction false} ArrayRowsOfEncoded(M: Matrix)
    ensures |ArrayRows(Encode(M))| == |M|
    ensures forall i :: 0 <= i < |M| ==> ArrayRows(Encode(M))[i] == Encode(M)[i].items
    decreases |M|
  {
    if |M| > 0 {
      var M' := M[..|M| - 1];
      assert Encode(M)[..|M| - 1] == Encode(M');
      ArrayRowsOfEncoded(M');
    }
  }

  /** Converting the JSON form of a matrix gives back that matrix. */
  lemma DecodeEncode(M: Matrix)
    ensures Decoded(Encode(M)) == M
  {
    ArrayRowsOfEncoded(M);
    var D := Decoded(Encode(M));
    assert forall i :: 0 <= i < |M| ==> D[i] == M[i];
  }
}
