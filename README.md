# Warm-up exercises, modelled in Dafny

This project models `warmup.js`, a flat library of independent exercise
functions:

- the century of a year;
- a HEX colour decoded to an RGB text;
- the n-th Fibonacci number;
- matrix transposition;
- a phone-number format check;
- a count of smiling glyphs;
- the winner of a tic-tac-toe game.

Each function becomes one Dafny module:

| module | source function | file |
|---|---|---|
| `Century` | `centuryByYearProblem` | `century.dfy` |
| `Colors` | `colorsProblem` | `colors.dfy` |
| `Fibonacci` | `fibonacciProblem` | `fibonacci.dfy` |
| `Matrix` | `matrixProblem` | `matrix.dfy` |
| `Phone` | `phoneProblem` | `phone.dfy` |
| `Smiles` | `smilesProblem` | `smiles.dfy` |
| `TicTacToe` | `ticTacToeProblem` | `tictactoe.dfy` |

Two helper modules support them:

- `Js` (`js.dfy`) covers what the exercises see of JavaScript:
  - the `typeof` of an argument, as the datatype `JsValue = Number | Str | OtherValue`;
  - the thrown `TypeError` and `RangeError`, as the error side of a `Result`;
  - `null`, as `Option.None`;
  - the decimal text a template literal writes for a non-negative integer.
- `Pattern` (`pattern.dfy`) turns the two anchored regular expressions into
  sequences of one-character tokens. `Matches(p, s)` is `/^p$/.test(s)`.

Which code is imperative follows the source:

- `fibonacciProblem` changes its variables step by step in a `while` loop, so
  it is a method with a loop.
- `colorsProblem` pushes into an array in a `for` loop, so it is a method with
  a loop.
- `ticTacToeProblem` overwrites a captured `result` from nested `forEach`
  callbacks. It is a method with a loop over the two symbols, calling
  `RegisterWin`, which has its own loop over lines.
- The other functions are single expressions. They are Dafny functions.

Each imperative method is proved against a specification function:

- `Fib` for `FibonacciProblem`;
- `Slices` and `RgbText` for `ColorsProblem`;
- `HasLine` for `TicTacToeProblem`.

The properties are proved about those functions.

Where the code, its documentation comments and the intended behaviour
disagree, the model follows the code:

- **Colours.** The 3-digit form is decoded as the code decodes it: slices of
  two characters. A corrected decoder sits beside it (see Findings).
- **Smiles.** `smilesProblem` counts which glyphs are present, not how often
  they occur. A corrected counter sits beside it (see Findings).
- **Matrix guard.** The guard `if (!isMatrix)` of `matrixProblem` tests the
  function object, not a call, so it never throws. A shape precondition stands
  in for it. The only TypeError the model keeps is the one the code really
  throws: with no rows, `matrix[0].map` reads `map` of `undefined`.
- **Phone format.** The doc comment writes the phone format with en-dashes.
  The code's pattern, which the model follows, uses ASCII hyphens.

## Model

| member | source | states |
|---|---|---|
| `Js.DecimalString` | warmup.js:59 | the text of a channel value is made of decimal digits only, is at least one character long, has one character exactly when the value is below 10, and has no leading zero |
| `Js.DecimalRoundTrip` | warmup.js:59 | reading the decimal text of `n` back gives `n`, so distinct channel values are written differently |
| `Js.DigitChar` | warmup.js:59 | the character of a digit below 10 is an ASCII digit whose value is that digit |
| `Js.IsInteger` | warmup.js:74 | `Number.isInteger(x)` on a finite number: `x` equals its own floor (definition) |
| `Js.DigitValue` | warmup.js:150 | an ASCII digit has a value below 10 |
| `Pattern.Repeat` | warmup.js:150 | the counted repetition `t{n}` is `n` copies of the token `t` |
| `Pattern.Literal` | warmup.js:150 | a literal part of a pattern is one literal token per character, in order |
| `Pattern.Matches` | warmup.js:49-50 | the anchored test `/^p$/.test(s)`: an empty pattern matches only the empty string; otherwise the first token accepts the first character and the rest of the pattern matches the rest of the string (definition) |
| `Pattern.MatchesIff` | warmup.js:49-50 | an anchored pattern matches a string exactly when the string has one character per token and each token accepts its character (both directions) |
| `Century.Ceil` | warmup.js:34 | `Math.ceil(x)` is the integer `c` with `c - 1 < x <= c` |
| `Century.CenturyByYear` | warmup.js:25-35 | TypeError for a non-number; RangeError for a negative year; otherwise a century `C >= 0` with `100 * (C - 1) < year <= 100 * C`, so year 0 gives 0 |
| `Century.CenturyOfYear` | warmup.js:30-34 | for an integer year `>= 0`, the century is the only `C` with `100 * (C - 1) < year <= 100 * C` |
| `Century.CenturyExamples` | warmup.js:18-35 | years 100, 101 and 2000 are in centuries 1, 2 and 20; year -1 is a RangeError; a string is a TypeError |
| `Colors.HexDigitValue` | warmup.js:56 | a hexadecimal digit of either case has a value below 16 |
| `Colors.HexValue` | warmup.js:56 | `parseInt(s, 16)` of one digit is its value, of two digits is 16 times the first digit's value plus the second's, and of at most two digits is below 256 |
| `Colors.ShortForm` | warmup.js:49 | the alternative `#[0-9A-Fa-f]{3}`: a literal `#` and three hexadecimal-digit tokens (definition) |
| `Colors.LongForm` | warmup.js:49 | the alternative `#[0-9A-Fa-f]{6}`: a literal `#` and six hexadecimal-digit tokens (definition) |
| `Colors.IsHexColor` | warmup.js:49-52 | the colour format accepts exactly the strings of length 4 or 7 that start with `#` and continue with hexadecimal digits of either case (both directions) |
| `Colors.ColorsProblem` | warmup.js:44-60 | TypeError for a non-string; RangeError exactly for strings outside the format; otherwise the text `(a, b, c)` of the numbers the slicing loop collects, with `undefined` for a missing one |
| `Colors.Slices` | warmup.js:55-57 | the numbers the `for` loop pushes from index `j` on: `parseInt(s.substring(j, j + 2), 16)`, then the same two characters further, until `j` reaches the length; the last slice is one character when it runs past the end (definition) |
| `Colors.Channel` | warmup.js:59 | `${color[k]}`: the decimal text of entry `k`, or `undefined` past the end of the array (definition) |
| `Colors.RgbText` | warmup.js:59 | the template literal `(${color[0]}, ${color[1]}, ${color[2]})` (definition) |
| `Colors.RgbTextOfPair` | warmup.js:59 | a two-element array is written `(x, y, undefined)` |
| `Colors.RgbTextOfTriple` | warmup.js:59 | a three-element array is written `(x, y, z)` |
| `Colors.LongColorChannels` | warmup.js:54-59 | a 6-digit colour gives exactly the three channels of the digit pairs at [1..3), [3..5) and [5..7), each in [0, 255] |
| `Colors.ShortColorChannels` | warmup.js:55-57 | a 3-digit colour gives only two numbers, the pair at [1..3) and the value of the last digit alone, so the blue channel is written `undefined` |
| `Colors.ShortColorAsWritten` | warmup.js:55-59 | `#FFF` is accepted and comes out as `(255, 15, undefined)` |
| `Colors.WhiteExample` | warmup.js:39-42 | `#FFFFFF` comes out as `(255, 255, 255)`, the example of the doc comment |
| `Colors.BlackExample` | warmup.js:54-59 | `#000000` comes out as `(0, 0, 0)` |
| `Colors.HexChar` | warmup.js:56 | each value below 16 has a hexadecimal digit whose value it is |
| `Colors.HexPair` | warmup.js:56 | each channel value below 256 has a two-digit hexadecimal text whose `parseInt(.., 16)` is that value |
| `Colors.HexColorRoundTrip` | warmup.js:49-59 | for every triple in [0, 255], its `#RRGGBB` colour is accepted and decodes to the same three numbers |
| `Colors.Channels` | warmup.js:54-57 | the corrected channels of a colour are three values, each in [0, 255] |
| `Colors.Expand` | warmup.js:49 | the 6-digit colour that a 3-digit one abbreviates is in the format |
| `Colors.DecodeColor` | warmup.js:44-60 | corrected decoder: the same errors as the code; the same text as the code on 6-digit colours; on `#abc`, the code's text for `#aabbcc` |
| `Colors.DecodeColorExamples` | warmup.js:54-59 | the corrected decoder writes `#FFF` as `(255, 255, 255)` and `#000` as `(0, 0, 0)` |
| `Fibonacci.FibonacciProblem` | warmup.js:69-91 | TypeError for a non-number, checked first; then RangeError for a number below 1 or with a fractional part; otherwise F(n) with F(1) = F(2) = 1. The loop keeps `previousValue = F(count)` and `currentValue = F(count + 1)` |
| `Fibonacci.FibPositive` | warmup.js:78-90 | every Fibonacci number from the first on is at least 1 |
| `Fibonacci.FibExamples` | warmup.js:62-67 | F(1) = F(2) = 1 and F(10) = 55 |
| `Matrix.Column` | warmup.js:104 | `matrix.map(row => row[i])` has one entry per row, the `i`-th entry of that row |
| `Matrix.ColumnsFrom` | warmup.js:104 | the outer `map` from index `i` on gives one column per remaining entry of the first row, and each column has one entry per row |
| `Matrix.MatrixProblem` | warmup.js:99-105 | no rows are a TypeError (reading `map` of `undefined`); an M x N matrix gives an N x M matrix whose entry [i][j] is the input's [j][i] |
| `Matrix.TransposeTwice` | warmup.js:93-97 | transposing gives a rectangular matrix, and transposing an M x N matrix with M, N >= 1 twice gives it back |
| `Matrix.TransposeExample` | warmup.js:104 | `[[1, 2], [3, 4]]` becomes `[[1, 3], [2, 4]]` |
| `Phone.PhonePattern` | warmup.js:150 | `^8-800-\d{3}-\d{2}-\d{2}$` as tokens: the literal `8-800-`, three digits, `-`, two digits, `-`, two digits (definition) |
| `Phone.PatternIsShape` | warmup.js:150 | the pattern `^8-800-\d{3}-\d{2}-\d{2}$` matches exactly when the string has 15 characters, starts with `8-800-`, has dashes at positions 9 and 12 and ASCII digits at 6-8, 10-11 and 13-14 (both directions) |
| `Phone.PhoneProblem` | warmup.js:145-151 | TypeError for a non-string; otherwise true exactly for strings of that shape |
| `Phone.PhoneExamples` | warmup.js:140-151 | `8-800-555-35-35` is accepted and `8-800-555-3-35` is not; a number is a TypeError |
| `Smiles.FirstMatch` | warmup.js:164 | a non-global match finds the first occurrence at or after the start, or reports `null` exactly when there is none |
| `Smiles.MatchOrEmpty` | warmup.js:164 | `(text.match(p) \|\| [])` has length 1 when `p` occurs in the text and 0 otherwise |
| `Smiles.SmilesProblem` | warmup.js:159-165 | TypeError for a non-string; otherwise (1 if `:-)` occurs, else 0) plus (1 if `(-:` occurs, else 0), so at most 2 |
| `Smiles.OccurrencesPositive` | warmup.js:153-157 | the number of starting positions of a glyph at or after an index is positive exactly when the glyph occurs there |
| `Smiles.ContainsIffCounted` | warmup.js:153-157 | a glyph is present in the text exactly when its occurrence count is positive |
| `Smiles.Occurrences` | warmup.js:153-157 | the number of indices from `from` on where a glyph starts, counted one index at a time (definition) |
| `Smiles.Starts` | warmup.js:153-157 | the set of indices at or after `from` where a glyph starts (definition) |
| `Smiles.OccurrencesAreStarts` | warmup.js:153-157 | for every text, glyph and index, the occurrence count from that index is the number of indices at or after it where the glyph starts |
| `Smiles.SmileCount` | warmup.js:153-157 | corrected counter: TypeError for a non-string; otherwise the number of indices where `:-)` starts plus the number where `(-:` starts, for every text |
| `Smiles.SmileCountZero` | warmup.js:153-157 | the corrected count is 0 exactly when neither glyph occurs in the text |
| `Smiles.PresenceBelowCount` | warmup.js:164 | the code as written never reports more than the occurrence count, and agrees with it when each glyph occurs at most once |
| `Smiles.AbsentFirstChar` | warmup.js:153-157 | a glyph whose first character does not appear in the text from an index on occurs there zero times |
| `Smiles.SmileTwice` | warmup.js:164 | `:-)` occurs in `:-) :-)` at indices 0 and 4, and exactly twice |
| `Smiles.ReverseSmileAbsent` | warmup.js:164 | `(-:` does not occur in `:-) :-)` |
| `Smiles.TwoSmilesPresent` | warmup.js:164 | on `:-) :-)` the code as written gives 1 |
| `Smiles.TwoSmilesCounted` | warmup.js:153-157 | on `:-) :-)` the corrected count is 2 |
| `Smiles.TwoSmilesExample` | warmup.js:164 | on `:-) :-)` the code gives 1 while the occurrence count is 2 |
| `Smiles.SmilesExamples` | warmup.js:159-165 | `(-:` gives 1 and the empty text 0 |
| `TicTacToe.LastWinner` | warmup.js:174-200 | the value of `result` after the `forEach` has checked a prefix of the symbols: the last checked symbol that has a line, or `null` (definition) |
| `TicTacToe.RegisterWin` | warmup.js:180-188 | after `registerWin`, `result` is the symbol when some line equals the winning line, and is unchanged otherwise |
| `TicTacToe.LinesOfField` | warmup.js:190-198 | a symbol has a row, column or diagonal exactly when the rows, the rows of the transposed field, or the two diagonals contain its winning line |
| `TicTacToe.TicTacToeProblem` | warmup.js:173-203 | `x` whenever crosses have a line, even if noughts have one too, since crosses are checked last; `o` when only noughts have one; `draw` exactly when neither has one |
| `TicTacToe.TicTacToeExamples` | warmup.js:167-171 | a full top row of crosses and a full main diagonal of noughts are lines; a field with no complete line has no line for either symbol |

## Findings

| source | as written | input that shows it | evidently intended | confidence | as-written member | corrected member |
|---|---|---|---|---|---|---|
| warmup.js:55-57 | the loop takes 2-character slices from index 1 also in the 3-digit form, so the form yields a pair, a single digit, and no third channel | `#FFF` gives `(255, 15, undefined)` | each digit of the 3-digit form stands for itself twice: `#FFF` gives `(255, 255, 255)` (the format accepts the form, and the doc comment promises an RGB colour) | high; not executed | `Colors.ShortColorAsWritten` | `Colors.DecodeColor` |
| warmup.js:164 | `match` with a string pattern builds a non-global RegExp, which yields at most one match, so the sum is the number of glyph kinds present | `:-) :-)` gives 1 | the number of smiling glyphs in the text, as the doc comment (warmup.js:154, 157) says: `:-) :-)` gives 2 | medium; not executed | `Smiles.TwoSmilesExample` | `Smiles.SmileCount` |

## Left out

- `abProblem` (warmup.js:10-16) is floating-point addition with a `typeof` guard. There is nothing to state beyond `a + b`.
- `numberSystemProblem` (warmup.js:126-138) is a wrapper over the built-in `Number.prototype.toString(radix)`, whose float and negative-number behaviour is outside the model. Its own range guard `!(2 <= targetNs <= 36)` is always false: the left comparison yields a boolean, which is at most 36. Any RangeError therefore comes from the built-in.
- `isMatrix` (warmup.js:107-116) duck-types on runtime attributes. It never returns `true`, and nothing calls it. `Matrix.IsRectangular` is a precondition in its place.
- `module.exports` (warmup.js:205-215) is packaging.
- Numbers are exact rationals (`real`). Floating-point rounding, `NaN`, the infinities and `-0` are not modelled. Consequences:
  - JavaScript's `Math.ceil(year / 100)` agrees with `Century.CenturyByYear` only while the division is exact enough.
  - JavaScript's Fibonacci numbers lose precision above 2^53 and become `Infinity` beyond F(1476). `Fibonacci.FibonacciProblem` returns the exact integer.
  - In JavaScript `count++` (warmup.js:87) stops growing at 2^53, because 2^53 + 1 rounds back to 2^53. So `while (count !== n)` (warmup.js:83) never ends for an integer `n` above 2^53. `Fibonacci.FibonacciProblem` counts exactly and returns F(n) for every integer `n >= 1`.
- Matrix.MatrixProblem: requires a rectangular matrix. On ragged rows, JavaScript fills the missing entries with `undefined` and ignores entries past the first row's length; the model does not cover that.
- TicTacToe.TicTacToeProblem: requires a 3 x 3 field of single characters. The source does not check the shape; its documentation guarantees it. With multi-character cell strings, `line.join('')` could equal the winning line without every cell being the symbol; cells of one character exclude this.
- `typeof` checks come first in the model, ahead of every other condition. `ticTacToeProblem` has no such check, and `matrixProblem`'s check is vacuous, so both take typed sequences.
- `parseInt` is modelled only on strings of hexadecimal digits, the only strings it receives after the format check. Its handling of signs, spaces and invalid digits is not needed.
- The smile patterns `:-[)]` and `[(]-:` are character classes of one character each. They are modelled as the literal glyphs `:-)` and `(-:`.
