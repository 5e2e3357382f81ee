/** `examples/generics.rs`: a trait with associated types, implemented by a
    pair of `i32`s, and a generic function over it. */
module Generics {

  import opened Ints

  /** `Container(i32, i32)` with its `Contains` implementation. */
  datatype Container = Container(first: I32, last: I32)
  {
    /** `contains`: both numbers equal the container's, in order. */
    predicate Contains(number1: I32, number2: I32)
      ensures Contains(number1, number2) <==> this == Container(number1, number2)
    {
      first == number1 && last == number2
    }

    /** `first` */
    function First(): (r: I32)
      ensures Container(r, last) == this
    {
      first
    }

    /** `last` */
    function Last(): (r: I32)
      ensures Container(first, r) == this
    {
      last
    }
  }

  /** `difference`: `last() - first()`, which must not overflow an `i32`. */
  function Difference(container: Container): (r: I32)
    requires InI32(container.Last() - container.First())
    ensures container.First() + r == container.Last()
    ensures r >= 0 <==> container.First() <= container.Last()
  {
    container.Last() - container.First()
  }

  /** A container contains exactly the pair it reports as first and last. */
  lemma ContainsOwnFields(c: Container, a: I32, b: I32)
    ensures c.Contains(c.First(), c.Last())
    ensures c.Contains(a, b) ==> a == c.First() && b == c.Last()
  {
  }

  /** `associated_types`: `Container(3, 10)` contains 3 and 10, and their
      difference is 7. */
  lemma AssociatedTypesExample()
    ensures var c := Container(3, 10);
      c.Contains(3, 10) && !c.Contains(10, 3) && c.First() == 3 && c.Last() == 10 &&
      Difference(c) == 7
  {
  }
}
