/** Binomial coefficients: Pascal's rule as the reference definition, and
    the recursive absorption-identity version that `examples/recursion4.rs`
    and `examples/recursion5.rs` both define. */
module Binomials {

  import opened Ints

  /** C(n, k) by Pascal's rule. */
  function Choose(n: nat, k: nat): nat
  {
    if k == 0 then 1 else if n == 0 then 0 else Choose(n - 1, k - 1) + Choose(n - 1, k)
  }

  /** k!, which is the falling power of k of length k. */
  function Fact(k: nat): (f: nat)
    ensures f >= 1
    ensures f == Falling(k, k)
  {
    if k == 0 then 1 else k * Fact(k - 1)
  }

  /** n (n-1) ... (n-k+1) */
  function Falling(n: int, k: nat): int
    decreases k
  {
    if k == 0 then 1 else n * Falling(n - 1, k - 1)
  }

  /** `binomial_recursive`: C(n, 0) = 1 and C(n, k) = n C(n-1, k-1) / k, with
      `i128`'s truncating division. */
  function BinomialRecursive(n: int, k: nat): int
    decreases k
  {
    if k == 0 then 1 else TruncDiv(n * BinomialRecursive(n - 1, k - 1), k)
  }

  lemma {:induction false} ChooseAbove(n: nat, k: nat)
    requires k > n
    ensures Choose(n, k) == 0
  {
    if n > 0 {
      ChooseAbove(n - 1, k - 1);
      ChooseAbove(n - 1, k);
    }
  }

  lemma {:induction false} ChooseDiagonal(n: nat)
    ensures Choose(n, n) == 1
  {
    if n > 0 {
      ChooseDiagonal(n - 1);
      ChooseAbove(n - 1, n);
    }
  }

  /** The absorption identity n C(n-1, k-1) = k C(n, k). */
  lemma {:induction false} Absorption(n: nat, k: nat)
    requires n >= 1 && k >= 1
    ensures n * Choose(n - 1, k - 1) == k * Choose(n, k)
    decreases n
  {
    if n == 1 {
      if k > 1 {
        ChooseAbove(0, k - 1);
        ChooseAbove(1, k);
      }
    } else if k == 1 {
      Absorption(n - 1, 1);
    } else {
      Absorption(n - 1, k);
      Absorption(n - 1, k - 1);
      AbsorptionStep(n, k, Choose(n - 2, k - 2), Choose(n - 2, k - 1), Choose(n - 1, k - 1), Choose(n - 1, k));
    }
  }

  /** The arithmetic of one Pascal step of the absorption identity. */
  lemma AbsorptionStep(n: int, k: int, a: int, b: int, c: int, d: int)
    requires c == a + b
    requires (n - 1) * b == k * d && (n - 1) * a == (k - 1) * c
    ensures n * c == k * (c + d)
  {
    calc {
      n * c;
      (n - 1) * c + c;
      (n - 1) * a + (n - 1) * b + c;
      (k - 1) * c + k * d + c;
      k * (c + d);
    }
  }

  /** C(n, k) = C(n, n-k). */
  lemma {:induction false} Symmetry(n: nat, k: nat)
    requires k <= n
    ensures Choose(n, k) == Choose(n, n - k)
  {
    if k == 0 || k == n {
      ChooseDiagonal(n);
    } else {
      Symmetry(n - 1, k - 1);
      Symmetry(n - 1, k);
      assert n - k == (n - 1 - k) + 1;
    }
  }

  /** The falling factorial is k! C(n, k), also when k > n (both are 0). */
  lemma {:induction false} FallingIsFactChoose(n: nat, k: nat)
    ensures Falling(n, k) == Fact(k) * Choose(n, k)
  {
    if k > 0 {
      if n == 0 {
        ChooseAbove(0, k);
      } else {
        FallingIsFactChoose(n - 1, k - 1);
        Absorption(n, k);
        FallingStep(n, k, Fact(k - 1), Choose(n - 1, k - 1), Choose(n, k));
      }
    }
  }

  /** The arithmetic of one step of the falling factorial. */
  lemma FallingStep(n: int, k: int, f: int, c: int, ck: int)
    requires n * c == k * ck
    ensures n * (f * c) == (k * f) * ck
  {
    calc {
      n * (f * c);
      f * (n * c);
      f * (k * ck);
      (k * f) * ck;
    }
  }

  lemma DivExact(x: nat, k: nat)
    requires k > 0
    ensures TruncDiv(k * x, k) == x
  {
    MulDivCancel(x, k);
  }

  /** For n >= 0 the recursive version is exact and equals C(n, k), including
      0 for k > n. */
  lemma {:induction false} BinomialRecursiveIsChoose(n: nat, k: nat)
    ensures BinomialRecursive(n, k) == Choose(n, k)
  {
    if k > 0 {
      if n == 0 {
        ChooseAbove(0, k);
      } else {
        BinomialRecursiveIsChoose(n - 1, k - 1);
        Absorption(n, k);
        DivExact(Choose(n, k), k);
      }
    }
  }
}
