/** `examples/flow.rs`: control flow — a `loop` that breaks with a value,
    `match` guards and range bindings, `iter_mut`, `while let` and a
    `let … else` parser. */
module Flow {

  import opened Wrappers
  import opened Ints
  import Text
  import opened Vecs

  /** `loop_ret`: count up and break with twice the counter at 10. */
  method LoopRet() returns (counter: int, result: int)
    ensures counter == 10 && result == 20
  {
    counter := 0;
    while true
      invariant 0 <= counter < 10
      decreases 10 - counter
    {
      counter := counter + 1;
      if counter == 10 {
        return counter, counter * 2;
      }
    }
  }

  /** `iter_mut`: every "Ferris" becomes "Savio", the other names stay. */
  method IterMut(names: Vec<string>)
    modifies names
    ensures |names.elems| == |old(names.elems)|
    ensures forall k :: 0 <= k < |names.elems| ==>
      names.elems[k] == if old(names.elems)[k] == "Ferris" then "Savio" else old(names.elems)[k]
  {
    ghost var original := names.elems;
    for i := 0 to names.Len()
      invariant |names.elems| == |original|
      invariant forall k :: 0 <= k < i ==> names.elems[k] == if original[k] == "Ferris" then "Savio" else original[k]
      invariant forall k :: i <= k < |original| ==> names.elems[k] == original[k]
    {
      var name := names.elems[i];
      names.Set(i, if name == "Ferris" then "Savio" else name);
    }
  }

  datatype Temperature = Celsius(c: I32) | Fahrenheit(f: I32)

  /** The four arms of `guards`, in order. */
  datatype GuardArm = AboveThirtyC | AtMostThirtyC | AboveEightySixF | AtMostEightySixF

  /** `guards`: the arm a temperature selects. */
  function Guard(t: Temperature): (arm: GuardArm)
    ensures arm == AboveThirtyC <==> t.Celsius? && t.c > 30
    ensures arm == AtMostThirtyC <==> t.Celsius? && t.c <= 30
    ensures arm == AboveEightySixF <==> t.Fahrenheit? && t.f > 86
    ensures arm == AtMostEightySixF <==> t.Fahrenheit? && t.f <= 86
  {
    match t
    case Celsius(c) => if c > 30 then AboveThirtyC else AtMostThirtyC
    case Fahrenheit(f) => if f > 86 then AboveEightySixF else AtMostEightySixF
  }

  /** The four arms of `binding`'s `match age()`. */
  datatype AgeArm = NotYetOne | Child | Teen | Old

  /** `binding`: 0, 1..=12, 13..=19 and the rest; every `u32` reaches exactly
      one arm. */
  function Binding(age: U32): (arm: AgeArm)
    ensures arm == NotYetOne <==> age == 0
    ensures arm == Child <==> 1 <= age <= 12
    ensures arm == Teen <==> 13 <= age <= 19
    ensures arm == Old <==> age >= 20
  {
    if age == 0 then NotYetOne
    else if 1 <= age <= 12 then Child
    else if 13 <= age <= 19 then Teen
    else Old
  }

  /** `main`'s inputs: 35 degrees Celsius, age 15. */
  lemma FlowExamples()
    ensures Guard(Celsius(35)) == AboveThirtyC
    ensures Binding(15) == Teen
  {
  }

  /** `while_let`: `Some(i)` counts up and becomes `None` once i exceeds 4. */
  method WhileLet() returns (visited: seq<int>)
    ensures visited == [0, 1, 2, 3, 4, 5]
  {
    var optional: Option<int> := Some(0);
    visited := [];
    while optional.Some?
      invariant optional.Some? ==> 0 <= optional.value <= 5 && |visited| == optional.value
      invariant optional.None? ==> |visited| == 6
      invariant forall k :: 0 <= k < |visited| ==> visited[k] == k
      decreases if optional.Some? then 6 - optional.value else 0
    {
      var i := optional.value;
      visited := visited + [i];
      if i > 4 {
        optional := None;
      } else {
        optional := Some(i + 1);
      }
    }
  }

  /** Why `get_count_item` panics. */
  datatype CountItemPanic = CannotSegment(input: string) | CannotParse(countStr: string)

  /** `get_count_item`: the first two pieces of `split(' ')`, the first
      parsed as a `u64`; fewer than two pieces or a bad number panic. */
  function GetCountItem(s: string): Result<(U64, string), CountItemPanic>
  {
    var pieces := Text.Split(s, ' ');
    if |pieces| < 2 then Err(CannotSegment(s))
    else
      var countStr, item := pieces[0], pieces[1];
      ParseU64InRange(countStr);
      match ParseU64(countStr)
      case Err(_) => Err(CannotParse(countStr))
      case Ok(count) => Ok((count, item))
  }

  /** It panics exactly when there is no space or the text before the first
      space is not a `u64`; otherwise it returns that number and the text up
      to the next space, ignoring the rest. */
  lemma GetCountItemSpec(s: string)
    ensures Text.FindChar(s, ' ') == |s| ==> GetCountItem(s) == Err(CannotSegment(s))
    ensures var i := Text.FindChar(s, ' ');
      i < |s| ==>
        ((GetCountItem(s).Ok? <==> ParseU64(s[..i]).Ok?) &&
         (GetCountItem(s).Err? ==> GetCountItem(s) == Err(CannotParse(s[..i]))))
    ensures var i := Text.FindChar(s, ' ');
      GetCountItem(s).Ok? ==>
        (i < |s| &&
         GetCountItem(s).value.0 == ParseU64(s[..i]).value &&
         GetCountItem(s).value.1 == s[i + 1..][..Text.FindChar(s[i + 1..], ' ')])
  {
    var i := Text.FindChar(s, ' ');
    Text.SplitHead(s, ' ');
    if i < |s| {
      Text.SplitHead(s[i + 1..], ' ');
      assert Text.Split(s, ' ')[1] == Text.Split(s[i + 1..], ' ')[0];
    }
  }

  lemma ParseU64InRange(s: string)
    ensures ParseU64(s).Ok? ==> 0 <= ParseU64(s).value <= U64_MAX
  {
    ParseIntCharacterization(s, 0, U64_MAX);
  }

  lemma SplitChairs()
    ensures Text.Split("chairs", ' ') == ["chairs"]
  {
    assert Text.FindChar("chairs", ' ') == 6;
  }

  lemma SplitThreeChairs()
    ensures Text.Split("3 chairs", ' ') == ["3", "chairs"]
  {
    var s := "3 chairs";
    assert Text.FindChar(s, ' ') == 1;
    assert s[..1] == "3" && s[2..] == "chairs";
    SplitChairs();
  }

  /** `let_else`'s assertion. */
  lemma GetCountItemExample()
    ensures GetCountItem("3 chairs") == Ok((3, "chairs"))
  {
    SplitThreeChairs();
    assert ParseU64("3") == Ok(3);
  }
}
