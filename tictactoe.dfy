/** `ticTacToeProblem`: the winner of a finished 3 x 3 game of noughts and
    crosses. Each cell is one character, so `line.join('')` is the line itself. */
module TicTacToe {
  import opened Js
  import Matrix

  /** A 3 x 3 field. */
  predicate IsField(f: seq<seq<char>>)
  {
    |f| == 3 && forall i :: 0 <= i < 3 ==> |f[i]| == 3
  }

  /** Some row, column or diagonal of `f` is `s` three times. */
  predicate HasLine(f: seq<seq<char>>, s: char)
    requires IsField(f)
  {
    (exists i :: 0 <= i < 3 && f[i][0] == s && f[i][1] == s && f[i][2] == s) ||
    (exists j :: 0 <= j < 3 && f[0][j] == s && f[1][j] == s && f[2][j] == s) ||
    (f[0][0] == s && f[1][1] == s && f[2][2] == s) ||
    (f[0][2] == s && f[1][1] == s && f[2][0] == s)
  }

  /** The value of `result` once the symbols in `symbols` have been checked in
      order: the last one that has a line, or `null`. */
  function LastWinner(f: seq<seq<char>>, symbols: seq<char>): Option<char>
    requires IsField(f)
  {
    if symbols == [] then None
    else if HasLine(f, symbols[|symbols| - 1]) then Some(symbols[|symbols| - 1])
    else LastWinner(f, symbols[..|symbols| - 1])
  }

  /** `registerWin`: `result` becomes `symb` when some line equals `winLine`,
      and keeps its value otherwise. */
  method RegisterWin(lines: seq<seq<char>>, winLine: seq<char>, symb: char, result: Option<char>)
    returns (result': Option<char>)
    ensures result' == if winLine in lines then Some(symb) else result
  {
    result' := result;
    for k := 0 to |lines|
      invariant result' == if winLine in lines[..k] then Some(symb) else result
    {
      assert lines[..k + 1] == lines[..k] + [lines[k]];
      if lines[k] == winLine {
        result' := Some(symb);
      }
    }
    assert lines[..|lines|] == lines;
  }

  /** What the checks of one symbol look at: the rows, the rows of the
      transposed field, and the two diagonals. */
  lemma LinesOfField(f: seq<seq<char>>, s: char)
    requires IsField(f)
    ensures Matrix.IsRectangular(f) && Matrix.MatrixProblem(f).Ok?
    ensures HasLine(f, s) <==>
      [s, s, s] in f || [s, s, s] in Matrix.MatrixProblem(f).value ||
      [f[0][0], f[1][1], f[2][2]] == [s, s, s] || [f[0][2], f[1][1], f[2][0]] == [s, s, s]
  {
    var w := [s, s, s];
    var t := Matrix.MatrixProblem(f).value;
    if exists i :: 0 <= i < 3 && f[i][0] == s && f[i][1] == s && f[i][2] == s {
      var i :| 0 <= i < 3 && f[i][0] == s && f[i][1] == s && f[i][2] == s;
      assert f[i] == w;
    }
    if w in f {
      var i :| 0 <= i < 3 && f[i] == w;
      assert f[i][0] == s && f[i][1] == s && f[i][2] == s;
    }
    if exists j :: 0 <= j < 3 && f[0][j] == s && f[1][j] == s && f[2][j] == s {
      var j :| 0 <= j < 3 && f[0][j] == s && f[1][j] == s && f[2][j] == s;
      assert t[j] == w;
    }
    if w in t {
      var j :| 0 <= j < 3 && t[j] == w;
      assert f[0][j] == s && f[1][j] == s && f[2][j] == s;
    }
  }

  /** The exercise: `'x'` when crosses have a line (they are checked last,
      so they win even if noughts have one too), else `'o'` when noughts
      have one, else `'draw'`. */
  method TicTacToeProblem(field: seq<seq<char>>) returns (r: string)
    requires IsField(field)
    ensures HasLine(field, 'x') ==> r == "x"
    ensures !HasLine(field, 'x') && HasLine(field, 'o') ==> r == "o"
    ensures r == "draw" <==> !HasLine(field, 'x') && !HasLine(field, 'o')
  {
    var result: Option<char> := None;
    var symbols := ['o', 'x'];
    for k := 0 to |symbols|
      invariant result == LastWinner(field, symbols[..k])
    {
      var symb := symbols[k];
      var winLine := [symb, symb, symb];
      LinesOfField(field, symb);
      result := RegisterWin(field, winLine, symb, result);
      var transposed := Matrix.MatrixProblem(field);
      result := RegisterWin(transposed.value, winLine, symb, result);
      var mainDiagonal := [field[0][0], field[1][1], field[2][2]];
      var appendDiagonal := [field[0][2], field[1][1], field[2][0]];
      if mainDiagonal == winLine || appendDiagonal == winLine {
        result := Some(symb);
      }
      assert symbols[..k + 1][..k] == symbols[..k];
    }
    assert symbols[..2] == symbols;
    r := if result.None? then "draw" else [result.value];
  }

  /** A full top row of crosses, a full main diagonal of noughts, and a field
      with no line. */
  lemma TicTacToeExamples()
    ensures HasLine([['x', 'x', 'x'], ['o', 'o', 'x'], ['x', 'o', 'o']], 'x')
    ensures HasLine([['o', 'x', 'x'], ['x', 'o', 'o'], ['x', 'x', 'o']], 'o')
    ensures !HasLine([['o', 'x', 'x'], ['x', 'o', 'o'], ['x', 'x', 'o']], 'x')
    ensures !HasLine([['x', 'o', 'x'], ['x', 'o', 'o'], ['o', 'x', 'x']], 'x')
    ensures !HasLine([['x', 'o', 'x'], ['x', 'o', 'o'], ['o', 'x', 'x']], 'o')
  {
    var f := [['x', 'x', 'x'], ['o', 'o', 'x'], ['x', 'o', 'o']];
    assert f[0][0] == 'x' && f[0][1] == 'x' && f[0][2] == 'x';
  }
}
