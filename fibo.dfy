/** `examples/fibo1.rs` (recursive) and `examples/fibo2.rs` (iterative),
    against the standard Fibonacci numbers F(0) = 0, F(1) = 1. */
module Fibo {

  /** The standard Fibonacci numbers. */
  function Fib(k: nat): nat
  {
    if k < 2 then k else Fib(k - 1) + Fib(k - 2)
  }

  /** `fibo1.rs`'s `fibo`: n itself for n <= 2 (also for 0 and negative n),
      otherwise the sum of the two previous values. */
  function FiboRecursive(n: int): int
    decreases if n <= 2 then 0 else n
  {
    if n <= 2 then n else FiboRecursive(n - 1) + FiboRecursive(n - 2)
  }

  /** From 1 on, `fibo1`'s `fibo(n)` is F(n + 1): 1, 2, 3, 5, 8, ... */
  lemma {:induction false} FiboRecursiveIsFib(n: int)
    requires n >= 1
    ensures FiboRecursive(n) == Fib(n + 1)
    decreases n
  {
    if n > 2 {
      FiboRecursiveIsFib(n - 1);
      FiboRecursiveIsFib(n - 2);
    }
  }

  /** `fibo2.rs`'s `fibo`: (n1, n2) start at (1, 1) and advance m - 1 times. */
  method FiboIterative(m: int) returns (r: int)
    ensures m <= 1 ==> r == 1
    ensures m >= 1 ==> r == Fib(m + 1)
  {
    var n1, n2 := 1, 1;
    if m > 1 {
      for j := 1 to m
        invariant n1 == Fib(j) && n2 == Fib(j + 1)
      {
        var tmp := n1 + n2;
        n1 := n2;
        n2 := tmp;
      }
    }
    r := n2;
  }

  /** The two files' functions agree from 1 on and differ at 0 (1 against 0)
      and below. */
  lemma IterativeAgreesFromOne(m: int)
    ensures m >= 1 ==> FiboRecursive(m) == Fib(m + 1)
    ensures m <= 0 ==> FiboRecursive(m) != 1
  {
    if m >= 1 {
      FiboRecursiveIsFib(m);
    }
  }
}
