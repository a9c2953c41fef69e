/**
  fibLin: the iterative Fibonacci function, checked against the recursive definition
  of the sequence 0, 1, 1, 2, 3, 5, 8, 13, 21, 34, 55, ...
 */
module Fibonacci {
  import opened JsRuntime

  /** F(0) = 0, F(1) = 1, F(n) = F(n - 1) + F(n - 2). */
  function Fib(n: nat): nat {
    if n < 2 then n else Fib(n - 1) + Fib(n - 2)
  }

  /**
    fibLin(n). For 0 and 1 it returns n at once; otherwise the loop runs for
    i = 1 .. n - 1 and returns `sum`. For a negative n the loop never runs and `sum`
    is still undefined, here `None`. `steps` counts the iterations of the loop.
   */
  method FibLin(n: int) returns (r: Option<nat>, ghost steps: nat)
    ensures n >= 0 ==> r == Some(Fib(n))
    ensures n < 0 ==> r == None
    ensures n >= 2 ==> steps == n - 1
    ensures n < 2 ==> steps == 0
  {
    steps := 0;
    if n == 0 || n == 1 {
      return Some(n), steps;
    }
    var fib1: nat := 0;
    var fib2: nat := 1;
    var sum: Option<nat> := None;
    var i := 1;
    while i < n
      invariant n >= 2 ==> 1 <= i <= n
      invariant n < 2 ==> i == 1
      invariant fib1 == Fib(i - 1) && fib2 == Fib(i)
      invariant sum == if i == 1 then None else Some(fib2)
      invariant steps == i - 1
    {
      sum := Some(fib1 + fib2);
      fib1 := fib2;
      fib2 := sum.value;
      i := i + 1;
      steps := steps + 1;
    }
    return sum, steps;
  }

  /** The tenth number is 55, as in the listing of the sequence. */
  lemma FibTen()
    ensures Fib(10) == 55
  {
  }

  /** The value the script prints: fibLin(40). */
  lemma FibForty()
    ensures Fib(40) == 102334155
  {
    // consecutive pairs, each a few unfoldings above the previous one
    assert Fib(15) == 610 && Fib(16) == 987;
    assert Fib(21) == 10946 && Fib(22) == 17711;
    assert Fib(27) == 196418 && Fib(28) == 317811;
    assert Fib(33) == 3524578 && Fib(34) == 5702887;
    assert Fib(38) == 39088169 && Fib(39) == 63245986;
  }
}
