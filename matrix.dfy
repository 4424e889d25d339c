/** `matrixProblem`: transposition by `matrix[0].map((col, i) => matrix.map(row => row[i]))`. */
module Matrix {
  import opened Js

  /** Every row is as long as the first one: an M x N matrix. */
  predicate IsRectangular<T>(m: seq<seq<T>>)
  {
    forall i :: 0 <= i < |m| ==> |m[i]| == |m[0]|
  }

  /** `matrix.map(row => row[i])`: the `i`-th entry of every row, in row order. */
  function Column<T>(m: seq<seq<T>>, i: nat): (c: seq<T>)
    requires forall j :: 0 <= j < |m| ==> i < |m[j]|
    ensures |c| == |m|
    ensures forall j :: 0 <= j < |m| ==> c[j] == m[j][i]
  {
    if m == [] then [] else [m[0][i]] + Column(m[1..], i)
  }

  /** The part of `matrix[0].map(...)` from index `i` on: one column per entry
      of the first row. */
  function ColumnsFrom<T>(m: seq<seq<T>>, i: nat): (t: seq<seq<T>>)
    requires |m| > 0 && IsRectangular(m) && i <= |m[0]|
    ensures |t| == |m[0]| - i
    ensures forall k :: 0 <= k < |t| ==> |t[k]| == |m|
    ensures forall k, j :: 0 <= k < |t| && 0 <= j < |m| ==> t[k][j] == m[j][i + k]
    decreases |m[0]| - i
  {
    if i == |m[0]| then [] else [Column(m, i)] + ColumnsFrom(m, i + 1)
  }

  /** The exercise on an M x N matrix. With no rows, `matrix[0]` is undefined
      and calling `map` on it throws a TypeError; otherwise the result is the
      N x M matrix whose entry [i][j] is the input's entry [j][i]. */
  function MatrixProblem<T>(m: seq<seq<T>>): (r: Result<seq<seq<T>>>)
    requires IsRectangular(m)
    ensures |m| == 0 <==> r == Err(TypeError)
    ensures |m| > 0 ==> r.Ok? && |r.value| == |m[0]|
    ensures |m| > 0 ==> forall i :: 0 <= i < |r.value| ==> |r.value[i]| == |m|
    ensures |m| > 0 ==> forall i, j :: 0 <= i < |r.value| && 0 <= j < |m| ==> r.value[i][j] == m[j][i]
  {
    if |m| == 0 then Err(TypeError) else Ok(ColumnsFrom(m, 0))
  }

  /** Transposing an M x N matrix with M, N >= 1 twice gives it back. */
  lemma TransposeTwice<T>(m: seq<seq<T>>)
    requires IsRectangular(m) && |m| > 0 && |m[0]| > 0
    ensures MatrixProblem(m).Ok?
    ensures IsRectangular(MatrixProblem(m).value)
    ensures MatrixProblem(MatrixProblem(m).value) == Ok(m)
  {
    var t := MatrixProblem(m).value;
    assert |t[0]| == |m|;
    var tt := MatrixProblem(t).value;
    assert |tt| == |m|;
    forall j | 0 <= j < |m|
      ensures tt[j] == m[j]
    {
      assert |tt[j]| == |t| == |m[j]|;
      forall i | 0 <= i < |m[j]|
        ensures tt[j][i] == m[j][i]
      {
        assert tt[j][i] == t[i][j];
      }
    }
    assert tt == m;
  }

  /** The example [[1, 2], [3, 4]] becomes [[1, 3], [2, 4]]. */
  lemma TransposeExample()
    ensures MatrixProblem([[1, 2], [3, 4]]) == Ok([[1, 3], [2, 4]])
  {
    var t := MatrixProblem([[1, 2], [3, 4]]).value;
    assert t[0] == [1, 3];
    assert t[1] == [2, 4];
    assert t == [[1, 3], [2, 4]];
  }
}
