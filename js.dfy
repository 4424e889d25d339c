/** What the exercises see of JavaScript: the `typeof` of an argument, the two
    error classes they throw, and how a non-negative integer number is turned
    into text inside a template literal. */
module Js {

  /** An argument as the `typeof` tests see it. A number is an exact rational:
      floating-point rounding, NaN and the infinities are not modelled. */
  datatype JsValue = Number(value: real) | Str(text: string) | OtherValue

  /** The error classes the exercises throw. */
  datatype JsError = TypeError | RangeError

  /** A return value, or the error thrown instead. */
  datatype Result<T> = Ok(value: T) | Err(error: JsError)

  /** A value or JavaScript's `null`. */
  datatype Option<T> = None | Some(value: T)

  /** `Number.isInteger` on a finite number. */
  predicate IsInteger(x: real)
  {
    x == x.Floor as real
  }

  /** An ASCII decimal digit, as the `\d` and `[0-9]` classes of a RegExp match it. */
  predicate IsDigit(c: char)
  {
    '0' <= c <= '9'
  }

  /** A character of the class `[0-9A-Fa-f]`. */
  predicate IsHexChar(c: char)
  {
    IsDigit(c) || 'A' <= c <= 'F' || 'a' <= c <= 'f'
  }

  function DigitValue(c: char): (d: nat)
    requires IsDigit(c)
    ensures d < 10
  {
    c as int - '0' as int
  }

  function DigitChar(d: nat): (c: char)
    requires d < 10
    ensures IsDigit(c) && DigitValue(c) == d
  {
    ('0' as int + d) as char
  }

  predicate AllDigits(s: string)
  {
    forall i :: 0 <= i < |s| ==> IsDigit(s[i])
  }

  /** The decimal text of a non-negative integer number, as a template
      literal `${n}` writes it: digits only, no leading zero. */
  function DecimalString(n: nat): (s: string)
    ensures AllDigits(s)
    ensures (|s| == 1) == (n < 10) && |s| >= 1
    ensures |s| > 1 ==> s[0] != '0'
  {
    if n < 10 then [DigitChar(n)] else DecimalString(n / 10) + [DigitChar(n % 10)]
  }

  /** The number a string of decimal digits denotes. */
  function DecimalValue(s: string): nat
    requires AllDigits(s)
  {
    if s == [] then 0 else DecimalValue(s[..|s| - 1]) * 10 + DigitValue(s[|s| - 1])
  }

  /** Reading back the text of `n` gives `n`. */
  lemma {:induction false} DecimalRoundTrip(n: nat)
    ensures DecimalValue(DecimalString(n)) == n
  {
    var s := DecimalString(n);
    if n >= 10 {
      DecimalRoundTrip(n / 10);
      assert s[..|s| - 1] == DecimalString(n / 10);
    }
  }
}
