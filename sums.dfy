/** Reference sums over integer ranges, defined from the top of the range
    down, independently of the bottom-up recursions they specify. */
module Sums {

  /** Σ { j | lo <= j <= hi, p(j) }. */
  function SumIf(lo: int, hi: int, p: int -> bool): int
    decreases if lo > hi then 0 else hi - lo + 1
  {
    if lo > hi then 0 else SumIf(lo, hi - 1, p) + (if p(hi) then hi else 0)
  }

  predicate Any(j: int) { true }

  /** Rust's `j % 2 != 0`: the truncated remainder is non-zero exactly when
      the Euclidean one is. */
  predicate IsOdd(j: int) { j % 2 != 0 }

  predicate IsEven(j: int) { j % 2 == 0 }

  /** Σ_{j=lo}^{hi} j */
  function RangeSum(lo: int, hi: int): int
  {
    SumIf(lo, hi, Any)
  }

  /** Peeling the lowest element of a non-empty range. */
  lemma {:induction false} SumIfLow(lo: int, hi: int, p: int -> bool)
    requires lo <= hi
    ensures SumIf(lo, hi, p) == (if p(lo) then lo else 0) + SumIf(lo + 1, hi, p)
    decreases hi - lo
  {
    if lo < hi {
      SumIfLow(lo, hi - 1, p);
    }
  }

  /** Gauss: twice the sum of lo..hi is (lo + hi) times the number of terms. */
  lemma {:induction false} RangeSumClosed(lo: int, hi: int)
    requires lo <= hi + 1
    ensures 2 * RangeSum(lo, hi) == (lo + hi) * (hi - lo + 1)
    decreases hi - lo + 1
  {
    if lo <= hi {
      RangeSumClosed(lo, hi - 1);
      assert (lo + hi) * (hi - lo + 1) == (lo + hi - 1) * (hi - lo) + 2 * hi;
    }
  }

  /** Odd and even terms split the whole range. */
  lemma {:induction false} OddEvenSplit(lo: int, hi: int)
    ensures SumIf(lo, hi, IsOdd) + SumIf(lo, hi, IsEven) == RangeSum(lo, hi)
    decreases if lo > hi then 0 else hi - lo + 1
  {
    if lo <= hi {
      OddEvenSplit(lo, hi - 1);
    }
  }
}
