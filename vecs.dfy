/** `Vec<T>` as a mutable object: the modelled code pushes onto vectors,
    removes from them and assigns their elements in place. */
module Vecs {

  /** A growable vector; `elems` is its current contents. */
  class Vec<T> {
    var elems: seq<T>

    constructor (elems: seq<T>)
      ensures this.elems == elems
    {
      this.elems := elems;
    }

    /** `Vec::len` */
    function Len(): (n: nat)
      reads this
      ensures n == |elems|
    {
      |elems|
    }

    /** `Vec::push` */
    method Push(x: T)
      modifies this
      ensures elems == old(elems) + [x]
    {
      elems := elems + [x];
    }

    /** `Vec::remove(i)`: shift the tail left by one. */
    method Remove(i: nat)
      requires i < |elems|
      modifies this
      ensures elems == old(elems[..i] + elems[i + 1..])
    {
      elems := elems[..i] + elems[i + 1..];
    }

    /** `v[i] = x` */
    method Set(i: nat, x: T)
      requires i < |elems|
      modifies this
      ensures elems == old(elems[i := x])
    {
      elems := elems[i := x];
    }
  }
}
