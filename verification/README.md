# Matrix-multiplication benchmark harness, modelled in Dafny

The repository pairs a Go tester with a Node.js compute server. The tester
creates matrix-multiplication tasks (`add_task`), sends them to the server and
times them (`run_tests`), and re-checks the results file the server writes
(`test_server_output`). The server multiplies the two matrices of each POSTed
task and appends the result to that file.

This project models the arithmetic and the in-memory data steps of both
programs. Matrices are `seq<seq<int>>` values.

- `Matrices` holds the shared mathematics: the dot product `Dot`, the bounds
  condition `InBounds` under which a triple-loop product reads only existing
  entries, the rectangular case `Conformable`, and the reference `Product`.
- `Verifier` models `verifyMatrixMultiplication` as a triple-loop method. It is
  proved equal to the declarative predicate `Accepts`, and `Accepts` is proved
  to hold exactly for the true product.
- `Convert` models `convertMatrix` on decoded JSON values (`Protocol.Json`).
- `ServerOutput` models the per-entry loop of `testServerOutput`.
- `SizeToken` models the `RxC` argument: `strings.Split` on `'x'`, then
  `strconv.Atoi` on each piece. It includes Go's 64-bit range check.
- `Fixtures` models `generateRandomMatrix`. The random generator is a parameter
  `source: nat -> int`, and the k-th draw is reduced into `[0, 10)`.
- `Catalog` models the task catalog, the append step, and the whole
  `addTask` decision on a catalog that has already been loaded.
- `Server` models `multiplyMatrices` and the status code and results-list
  update of `requestListener`.
- `Pipeline` composes the two programs. A product the server writes as JSON
  is converted back by the tester and judged correct.

The Go verifier panics on some inputs instead of returning false. It reads
`B[0]` without checking that `B` has a row. Once its shape guard passes, it
reads later rows of `A`, the first `len(A[0])` rows of `B` and every row of
the result without checking their lengths; the guard itself checks only the
result's row count and the length of its first row. These unguarded reads
are stated as the precondition `Verifier.VerifyDefined`, which constrains the
later rows only when the guard passes. The comment before the guard
(tester/main.go:85) announces an n × p check of the result.
`Verifier.VerifyTotal` performs that check on every row, returns false
instead of panicking on any input, and needs no precondition. It asks for
A to have at least one column, because otherwise B has no first row to read
the column count from.

## Model

| member | source | states |
|---|---|---|
| Verifier.Verify | tester/main.go:77-103 | returns false when A has no rows; returns false on a row-count or first-row-length mismatch before comparing cells; otherwise returns true iff every cell (i, j), i < rows(A), j < len(B[0]), equals the sum over k < len(A[0]) of A[i][k]*B[k][j] |
| Verifier.ShapeGuardExamples | tester/main.go:78-88 | the guard rejects A=[[1],[]], B=[[1]], R=[] and A=[[1,2]], B=[[1]], R=[] before any later row is read, and A=[[1],[]], B=[[]], R=[[],[]] is accepted without reading A's short second row |
| Verifier.AcceptsProduct | tester/main.go:90-102 | the true product of in-bounds operands passes the verifier's check |
| Verifier.AcceptsExactlyProduct | tester/main.go:90-102 | for a claimed result of shape rows(A) × cols(B), the verifier accepts it iff it equals the true product (both directions) |
| Verifier.OneWrongCellRejects | tester/main.go:97-99 | changing any single cell of an accepted result makes the verifier reject it |
| Verifier.AcceptsRaggedResult | tester/main.go:86 | the shape guard reads only the first row, so A=[[1],[1]], B=[[1]], R=[[1],[1,99]] is accepted although R is not 2×1 |
| Verifier.VerifyTotal | tester/main.go:77-103 | corrected verifier: defined on every input, and true iff A is n×m and B is m×p with n, m > 0, R is n×p, and R is the true product |
| Convert.ConvertMatrix | tester/main.go:53-74 | one output row per array element of the input, in input order; each row as long as its source row; numeric cells keep their value and other cells become 0 |
| Convert.ArrayRowsAppend | tester/main.go:56-60 | the kept rows of a concatenation are the kept rows of each part, in order |
| Convert.NonArrayDropped | tester/main.go:57-59 | an element that is not an array contributes no row, wherever it stands |
| Convert.DecodeEncode | tester/main.go:61-70 | converting the JSON form of an integer matrix gives back that matrix |
| ServerOutput.CheckEntry | tester/main.go:207-225 | an entry whose name is not matrix_multiplication is reported as an unknown kind; a matrix_multiplication entry is reported correct iff the verifier accepts its converted matrices |
| ServerOutput.CheckEntries | tester/main.go:206-226 | one report per entry, in file order, each depending on its own entry only |
| Fixtures.Draw | tester/main.go:45 | every draw lies in [0, 10) |
| Fixtures.GenerateMatrix | tester/main.go:40-49 | exactly `rows` rows of `cols` entries each, every entry in [0, 10), filled row by row from consecutive draws |
| SizeToken.Split | tester/main.go:232 | splitting always yields at least one piece |
| SizeToken.SplitCount | tester/main.go:232-233 | the number of pieces is one more than the number of 'x' characters |
| SizeToken.SplitJoin | tester/main.go:232 | joining the pieces with 'x' gives back the token |
| SizeToken.SplitPiecesFree | tester/main.go:232 | no piece contains 'x' |
| SizeToken.SplitAround | tester/main.go:232-233 | two 'x'-free strings joined by one 'x' split into exactly those two pieces |
| SizeToken.Atoi | tester/main.go:238-247 | a parsed value fits Go's 64-bit int and the text starts with a digit or a sign |
| SizeToken.AtoiShow | tester/main.go:238-247 | the decimal text of any natural number up to 2^63-1 parses back to that number |
| SizeToken.ParseSize | tester/main.go:232-247 | parsed sizes fit Go's 64-bit int |
| SizeToken.ParseSizeFormat | tester/main.go:232-236 | the format error happens exactly when the token does not contain exactly one 'x' |
| SizeToken.ParseSizeOk | tester/main.go:232-247 | a successful parse reads the two pieces on either side of the single 'x' |
| SizeToken.ParseSizeShow | tester/main.go:232-247 | two decimal sizes written around an 'x' parse back to those sizes |
| SizeToken.ParseTwoByThree | tester/main.go:232-247 | the token "2x3" parses to rows 2, columns 3 |
| Catalog.Append | tester/main.go:270 | the catalog grows by one task at the end and the earlier tasks are unchanged and in order |
| Catalog.AppendThenDropLast | tester/main.go:264-270 | removing the appended task gives back the original catalog |
| Catalog.AddTask | tester/main.go:230-280 | a bad size token fails and a non-matrix task name leaves the catalog alone; otherwise negative sizes fail, and valid sizes R, C append exactly one matrix_multiplication task with A of shape R×C and B of shape C×R, entries in [0, 10), earlier tasks unchanged |
| Catalog.FixturePairMultiplies | tester/main.go:256-257 | for R, C > 0 the generated pair is multipliable (cols(A) == rows(B)) and its product is R×R |
| Server.Multiply | bentchmarks/node-js/main.js:8-22 | the product has rows(mA) rows of len(mB[0]) entries; each cell is the sum over k < len(mA[0]) of mA[i][k]*mB[k][j]; every cell is 0 when len(mA[0]) is 0 |
| Server.Handle | bentchmarks/node-js/main.js:25-77 | non-POST gives 404; an unparsable body gives 500; an unknown task name gives 400; a product that raises gives 500; only a successful product gives 200; every non-200 answer leaves the results list unchanged; 200 appends exactly one entry with the product, earlier entries unchanged |
| Pipeline.ServeThenCheck | bentchmarks/node-js/main.js:38-62 | a matrix_multiplication request with in-bounds operands gets 200, and the tester reports the entry it writes as correct |
| Pipeline.MultiplyThenVerifyTotal | bentchmarks/node-js/main.js:8-22 | the server's product of rectangular operands passes the corrected verifier |

## Findings

| source | as written | input that shows it | evidently intended | confidence | as-written member | corrected member |
|---|---|---|---|---|---|---|
| tester/main.go:86 | the shape check compares only `len(result[0])` with the column count | A=[[1],[1]], B=[[1]], R=[[1],[1,99]] is accepted; a shorter later row panics instead | every row of the result has exactly `len(B[0])` entries, and any shape mismatch is a plain failure | not executed | Verifier.AcceptsRaggedResult | Verifier.VerifyTotal |

## Left out

- Verifier.Verify: the precondition `VerifyDefined` excludes the inputs on which the Go code panics with an index out of range. These are an empty B when A has a row. Once the shape guard passes, they also include rows of A shorter than A[0], too few or too short rows of B, and result rows shorter than the first. The panic itself is not modelled. `Verifier.VerifyTotal` handles these inputs.
- Verifier.Verify: the precondition also excludes some inputs that do not panic. If the guard passes but a later row is short, Go may still return false at an earlier mismatching cell before it reaches that row. An example is A=[[1],[]], B=[[1]], R=[[5],[0]]. Stating the exact point of the first out-of-range read would mean following the loop's early exit cell by cell.
- Verifier.Verify: Go's `int` is 64 bits wide, so the running sum wraps around on overflow. The model uses unbounded integers.
- ServerOutput.CheckEntries: the precondition `Checkable` carries over `VerifyDefined` to the converted matrices of matrix_multiplication entries. It excludes the entries on which the Go verifier panics, which abort the whole run in the source. Like `Verifier.Verify`, it also excludes entries that fail at an earlier mismatching cell before reaching a short row.
- ServerOutput.CheckEntry: the same `Checkable` precondition applies, with the same reasons.
- Server.Multiply: the precondition `InBounds` excludes operands whose rows are too short when there is a column to compute. JavaScript reads `undefined` there and yields NaN cells rather than raising. NaN is a floating-point value, and the model's cells are integers. Empty operands, which raise a TypeError, are handled by `Server.Handle` as a 500.
- Server.Multiply: JavaScript arithmetic is on floating-point Numbers. The model computes exact integers, and rounding of large sums is not modelled.
- Server.Handle: the precondition `Handled` excludes requests whose rows are too short. The JavaScript product reads `undefined` there and yields NaN cells rather than raising. Operands that are missing or are not arrays are not represented, because the payload is already typed.
- Server.Handle: reading and parsing the existing results file is left out as file I/O. A corrupt file gives 500 in the source. The model receives the existing list as a parameter and the timestamp as the `now` parameter.
- Convert.ConvertMatrix: JSON numbers are decoded to float64 and truncated with `int(...)` in the source. The model's `JNumber` already holds the integer, so floating point is left out.
- Fixtures.GenerateMatrix: `rand.Intn(10)` and the time-based `rand.Seed` are replaced by an arbitrary raw source reduced modulo 10. The generator's algorithm and its seeding are not modelled.
- Catalog.AddTask: in the source a negative size makes `make` panic. The model reports `Failed(NegativeSize)`; in both cases the process ends without writing the catalog.
- Catalog.AddTask: `loadTasksFile` and `saveTasksFile` are file I/O and JSON. The model takes the loaded catalog and returns the new one. A missing file is modelled by passing an empty catalog.
- `runTests` is left out. It does HTTP POSTs, wall-clock timing and prints a report: network, clock and console I/O.
- The HTTP server (`createServer`, `listen`), response bodies and headers, `main`'s command dispatch, logging, printing and `os.Exit` are left out as I/O and process control.
