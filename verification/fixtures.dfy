/** The tester's random fixture matrices (`generateRandomMatrix`). */
module Fixtures {
  import opened Matrices

  /** Exclusive upper bound of the generated entries (`rand.Intn(10)`). */
  const Bound: int := 10

  /**
   * The `k`-th value the process-wide generator hands out, reduced into
   * `[0, Bound)`. The generator itself is a parameter: `source(k)` is its
   * `k`-th raw draw.
   */
  function Draw(source: nat -> int, k: nat): (d: int)
    ensures 0 <= d < Bound
  {
    source(k) % Bound
  }

  /**
   * A `rows`×`cols` matrix filled row by row from consecutive draws starting
   * at position `start`; the next unused position is `start + rows * cols`.
   */
  method GenerateMatrix(rows: nat, cols: nat, source: nat -> int, start: nat) returns (m: Matrix, next: nat)
    ensures IsShape(m, rows, cols)
    ensures forall i, j :: 0 <= i < rows && 0 <= j < cols ==> 0 <= m[i][j] < Bound
    ensures forall i, j :: 0 <= i < rows && 0 <= j < cols ==> m[i][j] == Draw(source, start + i * cols + j)
    ensures next == start + rows * cols
  {
    m := seq(rows, _ => []);
    next := start;
    var i := 0;
    while i < rows
      invariant 0 <= i <= rows
      invariant |m| == rows
      invariant next == start + i * cols
      invariant forall r :: 0 <= r < i ==> |m[r]| == cols
      invariant forall r, c :: 0 <= r < i && 0 <= c < cols ==> m[r][c] == Draw(source, start + r * cols + c)
    {
      var rowData := seq(cols, _ => 0);
      var j := 0;
      while j < cols
        invariant 0 <= j <= cols
        invariant |rowData| == cols
        invariant forall c :: 0 <= c < j ==> rowData[c] == Draw(source, next + c)
      {
        rowData := rowData[j := Draw(source, next + j)];
        j := j + 1;
      }
      m := m[i := rowData];
      next := next + cols;
      i := i + 1;
    }
  }
}
