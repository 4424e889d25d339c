/** The two fixed-shape regular expressions of the exercises, `^...$`
    anchored and built only from literal characters, character classes and
    counted repetition, written as sequences of one-character tokens. */
module Pattern {
  import opened Js

  /** One position of an anchored pattern: a literal character, `\d`, or `[0-9A-Fa-f]`. */
  datatype Token = Lit(c: char) | Digit | HexDigit

  predicate Accepts(t: Token, c: char)
  {
    match t
    case Lit(d) => c == d
    case Digit => IsDigit(c)
    case HexDigit => IsHexChar(c)
  }

  /** `t{n}`: the token `t` repeated `n` times. */
  function Repeat(t: Token, n: nat): (p: seq<Token>)
    ensures |p| == n
    ensures forall i :: 0 <= i < n ==> p[i] == t
  {
    if n == 0 then [] else [t] + Repeat(t, n - 1)
  }

  /** The literal text `s`, one token per character. */
  function Literal(s: string): (p: seq<Token>)
    ensures |p| == |s|
    ensures forall i :: 0 <= i < |s| ==> p[i] == Lit(s[i])
  {
    if s == [] then [] else [Lit(s[0])] + Literal(s[1..])
  }

  /** The anchored test `/^p$/.test(s)`: `s` is matched by `p` from its first
      character to its last. */
  predicate Matches(p: seq<Token>, s: string)
  {
    if p == [] then s == []
    else s != [] && Accepts(p[0], s[0]) && Matches(p[1..], s[1..])
  }

  /** A string matches exactly when it has one character per token and each
      token accepts its character. */
  lemma {:induction false} MatchesIff(p: seq<Token>, s: string)
    ensures Matches(p, s) <==> |s| == |p| && forall i :: 0 <= i < |s| ==> Accepts(p[i], s[i])
  {
    if p != [] && s != [] {
      MatchesIff(p[1..], s[1..]);
      if |s| == |p| && forall i :: 0 <= i < |s| ==> Accepts(p[i], s[i]) {
        forall i | 0 <= i < |s| - 1
          ensures Accepts(p[1..][i], s[1..][i])
        {
          assert Accepts(p[i + 1], s[i + 1]);
        }
      }
      if Matches(p, s) {
        forall i | 0 <= i < |s|
          ensures Accepts(p[i], s[i])
        {
          if i > 0 {
            assert Accepts(p[1..][i - 1], s[1..][i - 1]);
          }
        }
      }
    }
  }
}
