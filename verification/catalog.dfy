/** The task catalog and the tester's add_task command (`addTask`). */
module Catalog {
  import opened Matrices
  import opened Protocol
  import opened SizeToken
  import Fixtures

  /** One task of the catalog file. */
  datatype Task = Task(taskName: string, matrixA: Matrix, matrixB: Matrix)

  /** The catalog file's content: the tasks in insertion order, duplicates allowed. */
  datatype TasksFile = TasksFile(tasks: seq<Task>)

  /** Adds one task after the existing ones. */
  function Append(tf: TasksFile, t: Task): (r: TasksFile)
    ensures |r.tasks| == |tf.tasks| + 1
    ensures r.tasks[..|tf.tasks|] == tf.tasks
    ensures r.tasks[|tf.tasks|] == t
  {
    TasksFile(tf.tasks + [t])
  }

  /** Appending and then dropping the last task gives back the catalog. */
  lemma AppendThenDropLast(tf: TasksFile, t: Task)
    ensures TasksFile(Append(tf, t).tasks[..|tf.tasks|]) == tf
    ensures Append(tf, t).tasks[|Append(tf, t).tasks| - 1] == t
  {
  }

  /** Why add_task stopped before touching the catalog. */
  datatype AddError = BadSize(reason: SizeError) | NegativeSize

  /** What add_task does with the catalog. */
  datatype AddOutcome =
    | Added(file: TasksFile)
    | UnknownTask(taskName: string)
    | Failed(error: AddError)

  /** The shape promise of a new matrix-multiplication task built from sizes R and C. */
  predicate FixturePair(t: Task, rows: nat, cols: nat)
  {
    && t.taskName == MatrixMultiplication
    && IsShape(t.matrixA, rows, cols)
    && IsShape(t.matrixB, cols, rows)
    && (forall i, j :: 0 <= i < rows && 0 <= j < cols ==> 0 <= t.matrixA[i][j] < Fixtures.Bound)
    && (forall i, j :: 0 <= i < cols && 0 <= j < rows ==> 0 <= t.matrixB[i][j] < Fixtures.Bound)
  }

  /**
   * The add_task command on an already loaded catalog `tf`: parse the size
   * token, then, for a matrix-multiplication task only, generate A as R×C and
   * B as C×R from one stream of draws and append the task.
   */
  method AddTask(tf: TasksFile, taskName: string, sizeArg: string, source: nat -> int)
    returns (outcome: AddOutcome)
    ensures ParseSize(sizeArg).Err? ==> outcome == Failed(BadSize(ParseSize(sizeArg).error))
    ensures ParseSize(sizeArg).Ok? && taskName != MatrixMultiplication ==> outcome == UnknownTask(taskName)
    ensures ParseSize(sizeArg).Ok? && taskName == MatrixMultiplication &&
            (ParseSize(sizeArg).value.0 < 0 || ParseSize(sizeArg).value.1 < 0) ==>
              outcome == Failed(NegativeSize)
    ensures outcome.Added? <==>
              ParseSize(sizeArg).Ok? && taskName == MatrixMultiplication &&
              ParseSize(sizeArg).value.0 >= 0 && ParseSize(sizeArg).value.1 >= 0
    ensures outcome.Added? ==>
              && |outcome.file.tasks| == |tf.tasks| + 1
              && outcome.file.tasks[..|tf.tasks|] == tf.tasks
              && FixturePair(outcome.file.tasks[|tf.tasks|], ParseSize(sizeArg).value.0, ParseSize(sizeArg).value.1)
  {
    var parsed := ParseSize(sizeArg);
    if parsed.Err? {
      return Failed(BadSize(parsed.error));
    }
    var (rowsA, colsA) := parsed.value;
    if taskName != MatrixMultiplication {
      return UnknownTask(taskName);
    }
    if rowsA < 0 || colsA < 0 {
      return Failed(NegativeSize);
    }
    var matrixA, next := Fixtures.GenerateMatrix(rowsA, colsA, source, 0);
    var matrixB, _ := Fixtures.GenerateMatrix(colsA, rowsA, source, next);
    var newTask := Task(MatrixMultiplication, matrixA, matrixB);
    outcome := Added(Append(tf, newTask));
  }

  /**
   * A task built from sizes R, C > 0 can be multiplied: A's columns match B's
   * rows and the product is R×R.
   */
  lemma FixturePairMultiplies(t: Task, rows: nat, cols: nat)
    requires FixturePair(t, rows, cols)
    requires rows > 0 && cols > 0
    ensures Conformable(t.matrixA, t.matrixB)
    ensures InBounds(t.matrixA, t.matrixB)
    ensures IsShape(Product(t.matrixA, t.matrixB), rows, rows)
  {
  }
}
