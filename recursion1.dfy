/** `examples/recursion1.rs`: a recursive range sum, two loop rewrites of it
    (one of which never terminates below `MAX`) and a parity-filtered sum. */
module Recursion1 {

  import opened Wrappers
  import opened Sums

  const MAX: int := 2000

  /** `f1`: i when i >= MAX, otherwise i + f1(i + 1). */
  function F1(i: int): int
    decreases if i >= MAX then 0 else MAX - i
  {
    if i >= MAX then i else i + F1(i + 1)
  }

  /** `f1` sums i..MAX when i <= MAX and returns i itself above MAX. */
  lemma {:induction false} F1Sum(i: int)
    ensures i <= MAX ==> F1(i) == RangeSum(i, MAX)
    ensures i >= MAX ==> F1(i) == i
    decreases if i >= MAX then 0 else MAX - i
  {
    if i < MAX {
      F1Sum(i + 1);
      SumIfLow(i, MAX, Any);
    } else if i == MAX {
      assert SumIf(MAX, MAX - 1, Any) == 0;
    }
  }

  /** What `g1` returns, `None` standing for a loop that never exits: below
      MAX nothing in the inner loop changes `i`. */
  function G1Outcome(ini: int): Option<int>
  {
    if ini >= MAX then Some(0) else None
  }

  /** `g1`, run for at most `fuel + 1` passes of its inner loop. Whatever the
      bound, it stops only when ini >= MAX, and then with 0. */
  method G1(ini: int, fuel: nat) returns (r: Option<int>)
    ensures r == G1Outcome(ini)
  {
    var i, acc := ini, 0;
    var passes := 0;
    while passes <= fuel
      invariant i == ini && acc == 0
      invariant passes > 0 ==> i < MAX
    {
      if i >= MAX {
        return Some(acc);
      }
      passes := passes + 1;
    }
    return None;
  }

  /** `g1_v0`: adds i..=MAX into `r` with a loop. */
  method G1V0(ini: int) returns (r: int)
    ensures r == RangeSum(ini, MAX)
  {
    var i := ini;
    r := 0;
    if i > MAX {
      return;
    }
    while i <= MAX
      invariant ini <= i <= MAX + 1
      invariant r + RangeSum(i, MAX) == RangeSum(ini, MAX)
      decreases MAX + 1 - i
    {
      SumIfLow(i, MAX, Any);
      r := r + i;
      i := i + 1;
    }
  }

  /** `g1_v0` agrees with `f1` exactly up to MAX: above it `g1_v0` returns 0
      and `f1` returns its argument. */
  lemma G1V0AgreesWithF1(ini: int)
    ensures RangeSum(ini, MAX) == F1(ini) <==> ini <= MAX
  {
    F1Sum(ini);
  }

  /** `g2`: declares its variables and returns 0. */
  function G2(ini: int): int
  {
    0
  }

  /** Wherever `g1` stops, `g2` gives the same answer. */
  lemma G2AgreesWhereG1Stops(ini: int)
    ensures G1Outcome(ini).Some? <==> ini >= MAX
    ensures G1Outcome(ini).Some? ==> G1Outcome(ini).value == G2(ini)
  {
  }

  /** `f2` as written: keeps i exactly when `i % 2 != 0`. */
  function F2(i: int): int
    decreases if i >= MAX then 0 else MAX - i
  {
    if i < MAX then
      (if i % 2 != 0 then i + F2(i + 1) else F2(i + 1))
    else if i % 2 != 0 then i else 0
  }

  /** `f2` sums the odd numbers of i..MAX (and of i alone above MAX). */
  lemma {:induction false} F2SumsOdd(i: int)
    ensures F2(i) == SumIf(i, if i <= MAX then MAX else i, IsOdd)
    decreases if i >= MAX then 0 else MAX - i
  {
    if i < MAX {
      F2SumsOdd(i + 1);
      SumIfLow(i, MAX, IsOdd);
    } else {
      SumIfLow(i, i, IsOdd);
    }
  }

  /** Its documentation promises the even numbers; just below MAX the two
      already differ: f2(1999) = 1999, but the even numbers of 1999..2000 sum
      to 2000. */
  lemma F2IsNotEvenSum()
    ensures F2(MAX - 1) == 1999
    ensures SumIf(MAX - 1, MAX, IsEven) == 2000
  {
    SumIfLow(MAX - 1, MAX, IsEven);
    SumIfLow(MAX, MAX, IsEven);
  }

  /** `f2` as documented: keeps i exactly when it is even. */
  function F2Even(i: int): int
    decreases if i >= MAX then 0 else MAX - i
  {
    if i < MAX then
      (if i % 2 == 0 then i + F2Even(i + 1) else F2Even(i + 1))
    else if i % 2 == 0 then i else 0
  }

  /** The documented function sums the even numbers of i..MAX. */
  lemma {:induction false} F2EvenSumsEven(i: int)
    ensures F2Even(i) == SumIf(i, if i <= MAX then MAX else i, IsEven)
    decreases if i >= MAX then 0 else MAX - i
  {
    if i < MAX {
      F2EvenSumsEven(i + 1);
      SumIfLow(i, MAX, IsEven);
    } else {
      SumIfLow(i, i, IsEven);
    }
  }

  /** Between them the two versions sum the whole range, as `f1` does. */
  lemma F2PlusF2EvenIsF1(i: int)
    requires i <= MAX
    ensures F2(i) + F2Even(i) == F1(i)
  {
    F2SumsOdd(i);
    F2EvenSumsEven(i);
    OddEvenSplit(i, MAX);
    F1Sum(i);
  }
}
