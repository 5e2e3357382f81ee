/** `examples/recursion2.rs`: a loop sum over a `usize` range and three
    spellings of the same recursive sum. */
module Recursion2 {

  import opened Ints
  import opened Sums

  const MAX: int := 300_000_000

  /** `i as usize` for an `i64` argument: negative values wrap past 2^64. */
  function AsUsize(i: int): (u: int)
    requires -0x8000_0000_0000_0000 <= i
    ensures 0 <= u && (i >= 0 ==> u == i) && (i < 0 ==> u > MAX)
  {
    if i < 0 then i + 0x1_0000_0000_0000_0000 else i
  }

  /** `f0`: adds every j of `i as usize..=MAX as usize` into an accumulator.
      A negative start wraps to a huge `usize`, so the range is empty. */
  method F0(i: int) returns (n: int)
    requires -0x8000_0000_0000_0000 <= i
    ensures n == if i >= 0 then RangeSum(i, MAX) else 0
  {
    n := 0;
    var start := AsUsize(i);
    if start > MAX {
      return;
    }
    for j := start to MAX + 1
      invariant n + RangeSum(j, MAX) == RangeSum(start, MAX)
    {
      SumIfLow(j, MAX, Any);
      n := n + j;
    }
  }

  /** Every partial sum of `f0`'s loop fits in `i64`. */
  lemma PartialSumsFitI64(lo: int, hi: int)
    requires 0 <= lo <= hi + 1 && hi <= MAX
    ensures 0 <= RangeSum(lo, hi) <= I64_MAX
  {
    RangeSumClosed(lo, hi);
    if lo <= hi {
      MulBound(lo + hi, hi - lo + 1, 2 * MAX, MAX + 1);
    }
  }

  lemma MulBound(a: int, b: int, c: int, d: int)
    requires 0 <= a <= c && 0 <= b <= d
    ensures 0 <= a * b <= c * d
  {
    assert a * b <= c * b;
    assert c * b <= c * d;
  }

  /** `f1` */
  function F1(i: int): int
    decreases if i >= MAX then 0 else MAX - i
  {
    if i >= MAX then i else i + F1(i + 1)
  }

  /** `f2`, with the test reversed. */
  function F2(i: int): int
    decreases if i >= MAX then 0 else MAX - i
  {
    if i < MAX then i + F2(i + 1) else i
  }

  /** `f3`, binding the recursive result first. */
  function F3(i: int): int
    decreases if i >= MAX then 0 else MAX - i
  {
    if i >= MAX then i else var r := F3(i + 1); i + r
  }

  /** The three recursive spellings are one function, which sums i..MAX. */
  lemma {:induction false} RecursiveVersionsAgree(i: int)
    ensures F1(i) == F2(i) == F3(i)
    ensures i <= MAX ==> F1(i) == RangeSum(i, MAX)
    decreases if i >= MAX then 0 else MAX - i
  {
    if i < MAX {
      RecursiveVersionsAgree(i + 1);
      SumIfLow(i, MAX, Any);
    } else if i == MAX {
      assert SumIf(MAX, MAX - 1, Any) == 0;
    }
  }
}
