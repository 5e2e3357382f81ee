/** `examples/iter2.rs`: a `for` range over `0..v.len()` is fixed when the
    loop starts, so pushing inside the loop does not extend it. */
module Iter2 {

  import opened Ints
  import opened Sums
  import Seqs
  import opened Vecs

  /** 0 + 1 + ... + (n - 1) */
  function SumBelow(n: nat): int
  {
    RangeSum(0, n - 1)
  }

  /** The sum below n is n (n - 1) / 2, whatever the vector holds. */
  lemma SumBelowClosed(n: nat)
    ensures 2 * SumBelow(n) == n * (n - 1)
  {
    RangeSumClosed(0, n - 1);
  }

  /** `case01`: the length is read once into `n`; the `usize` sum is cast
      `as i32`. */
  method Case01(v: seq<I32>) returns (r: int)
    ensures r == WrapI32(SumBelow(|v|))
  {
    var acc := 0;
    var n := |v|;
    for i := 0 to n
      invariant acc == SumBelow(i)
    {
      acc := acc + i;
    }
    r := WrapI32(acc);
  }

  /** `case02`: the range's bound is `v.len()` itself. */
  method Case02(v: Vec<I32>) returns (r: int)
    ensures r == WrapI32(SumBelow(|v.elems|))
  {
    var acc := 0;
    for i := 0 to v.Len()
      invariant acc == SumBelow(i)
    {
      acc := acc + i;
    }
    r := WrapI32(acc);
  }

  /** `case03`: pushes a 1 on every iteration, yet iterates only over the
      original length, appending exactly that many 1s. */
  method Case03(v: Vec<I32>) returns (r: int)
    modifies v
    ensures r == WrapI32(SumBelow(|old(v.elems)|))
    ensures v.elems == old(v.elems) + Seqs.Repeat(1, |old(v.elems)|)
  {
    var acc := 0;
    ghost var original := v.elems;
    for i := 0 to v.Len()
      invariant acc == SumBelow(i)
      invariant v.elems == original + Seqs.Repeat(1, i)
    {
      acc := acc + i;
      RepeatSnoc(1, i);
      v.Push(1);
    }
    r := WrapI32(acc);
  }

  lemma RepeatSnoc(x: I32, n: nat)
    ensures Seqs.Repeat(x, n + 1) == Seqs.Repeat(x, n) + [x]
  {
    assert Seqs.Repeat(x, n + 1)[..n] == Seqs.Repeat(x, n);
  }

  /** After `case03` the vector is twice as long, its first half untouched. */
  lemma Case03Shape(original: seq<I32>)
    ensures |original + Seqs.Repeat(1, |original|)| == 2 * |original|
    ensures (original + Seqs.Repeat(1, |original|))[..|original|] == original
  {
  }

  /** `main`'s vectors of length 6 and 10 give 15 and 45. */
  lemma MainValues()
    ensures WrapI32(SumBelow(6)) == 15 && WrapI32(SumBelow(10)) == 45
  {
    SumBelowClosed(6);
    SumBelowClosed(10);
  }
}
