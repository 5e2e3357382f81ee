/** `examples/recursion4.rs`: the binomial coefficient's absorption
    recursion, and the loop the "time-travelling secret feature" turns it
    into, which multiplies into `lmul` and `rdiv` and divides once at the end. */
module Recursion4 {

  import opened Ints
  import opened Binomials

  /** `binomial`: while k > 0, (n, k, lmul, rdiv) := (n-1, k-1, lmul n, k rdiv);
      then lmul / rdiv. A k <= 0 skips the loop and gives 1. */
  method Binomial(n0: int, k0: int) returns (r: int)
    ensures k0 <= 0 ==> r == 1
    ensures k0 >= 0 ==> r == TruncDiv(Falling(n0, k0), Fact(k0))
    ensures n0 >= 0 && k0 >= 0 ==> r == Choose(n0, k0)
  {
    var n, k, lmul, rdiv := n0, k0, 1, 1;
    while k > 0
      invariant k0 <= 0 ==> k == k0 && lmul == 1 && rdiv == 1
      invariant k0 > 0 ==> 0 <= k <= k0
      invariant k0 > 0 ==> lmul * Falling(n, k) == Falling(n0, k0)
      invariant k0 > 0 ==> rdiv * Fact(k) == Fact(k0) && rdiv > 0
      decreases k
    {
      LoopStep(lmul, n, k);
      LoopStep(rdiv, k, k);
      n, k, lmul, rdiv := n - 1, k - 1, lmul * n, k * rdiv;
    }
    r := TruncDiv(lmul, rdiv);
    if n0 >= 0 && k0 >= 0 {
      FallingIsFactChoose(n0, k0);
      DivExact(Choose(n0, k0), Fact(k0));
    }
  }

  /** One loop iteration keeps `acc * Falling(n, k)` (and, with n := k,
      `acc * Fact(k)`) in place. */
  lemma LoopStep(acc: int, n: int, k: nat)
    requires k > 0
    ensures acc * Falling(n, k) == (acc * n) * Falling(n - 1, k - 1)
    ensures acc * Fact(k) == (acc * k) * Fact(k - 1)
  {
  }

  /** `main` asserts `binomial_recursive(3000, 10) == binomial(3000, 10)`:
      for every n >= 0 and k >= 0 both are C(n, k). */
  lemma RecursiveAgreesWithChoose(n: nat, k: nat)
    ensures BinomialRecursive(n, k) == Choose(n, k)
    ensures TruncDiv(Falling(n, k), Fact(k)) == Choose(n, k)
  {
    BinomialRecursiveIsChoose(n, k);
    FallingIsFactChoose(n, k);
    DivExact(Choose(n, k), Fact(k));
  }
}
