/** `examples/recursion5.rs`: the binomial coefficient by a running quotient
    x_j = C(n - t + j, j), after first replacing k by n - k when that is
    smaller. */
module Recursion5 {

  import opened Ints
  import opened Binomials

  /** `binomial`: C(n, k) for 0 <= k <= n. Outside that range the swapped k
      is negative, the loop `1..t+1` is empty and the answer is 1. */
  method Binomial(n0: int, k0: int) returns (r: int)
    ensures r == if 0 <= k0 <= n0 then Choose(n0, k0) else 1
  {
    var k := k0;
    if k > n0 - k {
      k := n0 - k;
    }
    var t := k;
    var n, previousX := n0 - k + 1, 1;
    if t + 1 > 1 {
      for j := 1 to t + 1
        invariant n == n0 - t + j && n0 - t >= t
        invariant previousX == Choose(n - 1, j - 1)
      {
        Absorption(n, j);
        DivExact(Choose(n, j), j);
        n, previousX := n + 1, TruncDiv(n * previousX, j);
      }
    }
    r := previousX;
    if 0 <= k0 <= n0 {
      if t <= 0 {
        ChooseDiagonal(n0);
      } else if k0 > n0 - k0 {
        Symmetry(n0, k0);
      }
    }
  }

  /** Above n the two versions part ways: `binomial_recursive` gives 0 while
      `binomial` gives 1. */
  lemma RecursiveIsZeroAboveN(n: nat, k: nat)
    requires k > n
    ensures BinomialRecursive(n, k) == 0
  {
    BinomialRecursiveIsChoose(n, k);
    ChooseAbove(n, k);
  }

  /** Within range the recursive version is C(n, k) too. */
  lemma RecursiveWithinRange(n: nat, k: nat)
    requires k <= n
    ensures BinomialRecursive(n, k) == Choose(n, k) == Choose(n, n - k)
  {
    BinomialRecursiveIsChoose(n, k);
    Symmetry(n, k);
  }
}
