/** `examples/recursion3.rs`: turning a non-tail recursion into a tail call,
    then into a one-shot loop, then into a tidy `while` loop. */
module Recursion3 {

  import opened Sums

  const MAX: int := 2_000_000

  /** `ex_a_recursive` */
  function ExARecursive(i: int): int
    decreases if i >= MAX then 0 else MAX - i
  {
    if i >= MAX then i else i + ExARecursive(i + 1)
  }

  /** `ex_a_tailcall`: the pending additions travel in the accumulator `c`. */
  function ExATailcall(i: int, c: int): int
    decreases if i >= MAX then 0 else MAX - i
  {
    if i >= MAX then i + c else ExATailcall(i + 1, c + i)
  }

  /** The accumulator carries exactly the work the recursion leaves pending. */
  lemma {:induction false} TailcallIsRecursive(i: int, c: int)
    ensures ExATailcall(i, c) == c + ExARecursive(i)
    decreases if i >= MAX then 0 else MAX - i
  {
    if i < MAX {
      TailcallIsRecursive(i + 1, c + i);
    }
  }

  /** The recursion sums i..MAX for i <= MAX. */
  lemma {:induction false} RecursiveSum(i: int)
    requires i <= MAX
    ensures ExARecursive(i) == RangeSum(i, MAX)
    decreases MAX - i
  {
    if i < MAX {
      RecursiveSum(i + 1);
      SumIfLow(i, MAX, Any);
    } else {
      assert SumIf(MAX, MAX - 1, Any) == 0;
    }
  }

  /** `ex_a_oneshot`: each tail call becomes a reassignment of (i, c). */
  method ExAOneshot(i0: int, c0: int) returns (r: int)
    ensures r == ExATailcall(i0, c0)
  {
    var i, c := i0, c0;
    while true
      invariant ExATailcall(i, c) == ExATailcall(i0, c0)
      decreases if i >= MAX then 0 else MAX - i
    {
      if i >= MAX {
        return i + c;
      }
      i, c := i + 1, c + i;
    }
  }

  /** `ex_a_final`: the tidy loop. */
  method ExAFinal(i0: int) returns (r: int)
    ensures r == ExARecursive(i0)
  {
    var i, c := i0, 0;
    while i < MAX
      invariant c + ExARecursive(i) == ExARecursive(i0)
      decreases MAX - i
    {
      i, c := i + 1, c + i;
    }
    r := c + i;
  }

  /** The four versions agree on every input; `main` prints them at 0. */
  lemma VersionsAgree(i: int)
    ensures ExATailcall(i, 0) == ExARecursive(i)
    ensures 0 <= i <= MAX ==> 2 * ExARecursive(i) == (i + MAX) * (MAX - i + 1)
  {
    TailcallIsRecursive(i, 0);
    if 0 <= i <= MAX {
      RecursiveSum(i);
      RangeSumClosed(i, MAX);
    }
  }
}
