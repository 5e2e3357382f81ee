/** `examples/macro1.rs`: the run-time behaviour of its `macro_rules!`
    expansions: `test!`, `find_min!` and the element-wise operations that
    `op!` generates (instantiated by `dry!` at `u32`). */
module Macro1 {

  import opened Wrappers
  import opened Ints
  import opened Vecs

  // ----- test! -----

  /** The keyword that selects the arm of `test!`. */
  datatype Connective = And | Or

  /** `test!(left; and right)` evaluates `left && right`, `test!(left; or right)`
      evaluates `left || right`. */
  function Test(left: bool, keyword: Connective, right: bool): (r: bool)
    ensures keyword == And ==> (r <==> left && right)
    ensures keyword == Or ==> (r <==> left || right)
  {
    match keyword
    case And => left && right
    case Or => left || right
  }

  /** `macro_overload`'s two uses both print `true`. */
  lemma MacroOverloadExamples()
    ensures Test(1 + 1 == 2, And, 2 * 2 == 4)
    ensures Test(true, Or, false)
  {
  }

  // ----- find_min! -----

  function Min(a: int, b: int): int { if a <= b then a else b }

  /** `find_min!(x)` is x; `find_min!(x, ys...)` is min(x, find_min!(ys...)). */
  function FindMin(args: seq<int>): (m: int)
    requires |args| >= 1
    ensures m in args
    ensures forall k :: 0 <= k < |args| ==> m <= args[k]
  {
    if |args| == 1 then args[0] else Min(args[0], FindMin(args[1..]))
  }

  /** `macro_repeat` prints 1, 2 and 4. */
  lemma MacroRepeatExamples()
    ensures FindMin([1]) == 1
    ensures FindMin([1 + 2, 2]) == 2
    ensures FindMin([5, 2 * 3, 4]) == 4
  {
  }

  // ----- op! -----

  /** The operator an `op!` instance applies. */
  datatype BinOp = Add | Mul | Sub

  function Exact(op: BinOp, x: int, y: int): int
  {
    match op
    case Add => x + y
    case Mul => x * y
    case Sub => x - y
  }

  /** The `u32` operation, `None` where it overflows or underflows (a panic). */
  function Apply(op: BinOp, x: U32, y: U32): (r: Option<U32>)
    ensures r.Some? <==> 0 <= Exact(op, x, y) <= U32_MAX
    ensures r.Some? ==> r.value == Exact(op, x, y)
  {
    var v := Exact(op, x, y);
    if 0 <= v <= U32_MAX then Some(v) else None
  }

  /** `sub_assign` on `u32` needs every ys[i] <= xs[i]. */
  lemma SubUnderflow(x: U32, y: U32)
    ensures Apply(Sub, x, y).None? <==> y > x
  {
  }

  /** `add_assign`, `mul_assign`, `sub_assign`: `assert_equal_len!` panics
      on differing lengths before anything changes; then each xs[i] becomes
      xs[i] op ys[i], panicking at the first element that overflows. */
  method OpAssign(op: BinOp, xs: Vec<U32>, ys: seq<U32>) returns (panicked: bool)
    modifies xs
    ensures |xs.elems| == |old(xs.elems)|
    ensures panicked <==> (|old(xs.elems)| != |ys| ||
      exists k :: 0 <= k < |ys| && Apply(op, old(xs.elems)[k], ys[k]).None?)
    ensures |old(xs.elems)| != |ys| ==> xs.elems == old(xs.elems)
    ensures !panicked ==> forall k :: 0 <= k < |ys| ==> xs.elems[k] == Apply(op, old(xs.elems)[k], ys[k]).value
  {
    if xs.Len() != |ys| {
      return true;
    }
    ghost var x0 := xs.elems;
    for i := 0 to |ys|
      invariant |xs.elems| == |ys|
      invariant forall k :: 0 <= k < i ==> Apply(op, x0[k], ys[k]).Some? && xs.elems[k] == Apply(op, x0[k], ys[k]).value
      invariant forall k :: i <= k < |ys| ==> xs.elems[k] == x0[k]
    {
      var r := Apply(op, xs.elems[i], ys[i]);
      if r.None? {
        return true;
      }
      xs.Set(i, r.value);
    }
    return false;
  }

  /** `dry!`'s checks: element-wise 1 + 2 = 3, 2 * 3 = 6 and 3 - 2 = 1 at
      every size, so no instance panics and the results are constant. */
  lemma DryTriples(op: BinOp, x: U32, y: U32, z: U32)
    requires (op, x, y, z) in {(Add, 1, 2, 3), (Mul, 2, 3, 6), (Sub, 3, 2, 1)}
    ensures Apply(op, x, y) == Some(z)
  {
  }
}
