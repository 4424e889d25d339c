/** `fibonacciProblem`: the n-th Fibonacci number by a two-accumulator loop. */
module Fibonacci {
  import opened Js

  /** The Fibonacci numbers: F(0) = 0, F(1) = F(2) = 1, F(n) = F(n-1) + F(n-2). */
  function Fib(n: nat): nat
  {
    if n == 0 then 0 else if n == 1 then 1 else Fib(n - 1) + Fib(n - 2)
  }

  /** The exercise: a TypeError for a non-number, then a RangeError for a
      number below 1 or with a fractional part, else F(n) with F(1) = F(2) = 1. */
  method FibonacciProblem(v: JsValue) returns (r: Result<nat>)
    ensures !v.Number? ==> r == Err(TypeError)
    ensures v.Number? && (v.value < 1.0 || !IsInteger(v.value)) ==> r == Err(RangeError)
    ensures v.Number? && v.value >= 1.0 && IsInteger(v.value) ==> r == Ok(Fib(v.value.Floor))
  {
    if !v.Number? {
      return Err(TypeError);
    }
    if v.value < 1.0 || !IsInteger(v.value) {
      return Err(RangeError);
    }
    var n: nat := v.value.Floor;
    var previousValue: nat := 1;
    var currentValue: nat := 1;
    var count: nat := 1;
    while count != n
      invariant 1 <= count <= n
      invariant previousValue == Fib(count) && currentValue == Fib(count + 1)
      decreases n - count
    {
      var nextValue := currentValue + previousValue;
      previousValue := currentValue;
      currentValue := nextValue;
      count := count + 1;
    }
    return Ok(previousValue);
  }

  /** Every term from the first on is positive. */
  lemma {:induction false} FibPositive(n: nat)
    requires n >= 1
    ensures Fib(n) >= 1
  {
    if n > 2 {
      FibPositive(n - 1);
    }
  }

  /** The first two terms are 1 and the tenth is 55. */
  lemma FibExamples()
    ensures Fib(1) == 1 && Fib(2) == 1 && Fib(10) == 55
  {
    assert Fib(3) == 2;
    assert Fib(5) == 5;
    assert Fib(7) == 13;
    assert Fib(9) == 34;
  }
}
