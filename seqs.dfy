/** Sequence operations of Rust's iterator and `Vec` API that the modelled code
    relies on (`filter`/`collect`, `join`, `iter::repeat`), with their laws. */
module Seqs {

  /** `s.into_iter().filter(p).collect()`: the elements satisfying `p`, in order. */
  function Filter<T>(p: T -> bool, s: seq<T>): seq<T>
  {
    if s == [] then [] else (if p(s[0]) then [s[0]] else []) + Filter(p, s[1..])
  }

  /** Number of occurrences of `x` in `s`. */
  function Count<T(==)>(s: seq<T>, x: T): nat
  {
    if s == [] then 0 else (if s[0] == x then 1 else 0) + Count(s[1..], x)
  }

  /** `a` can be obtained from `b` by deleting elements (order kept, nothing added). */
  predicate IsSubsequence<T(==)>(a: seq<T>, b: seq<T>)
  {
    if a == [] then true
    else if b == [] then false
    else if a[0] == b[0] then IsSubsequence(a[1..], b[1..])
    else IsSubsequence(a, b[1..])
  }

  /** `slice.join(sep)` */
  function Join(parts: seq<string>, sep: string): string
  {
    if parts == [] then ""
    else if |parts| == 1 then parts[0]
    else parts[0] + sep + Join(parts[1..], sep)
  }

  /** `iter::repeat(x).take(n).collect()` */
  function Repeat<T>(x: T, n: nat): (r: seq<T>)
    ensures |r| == n && forall i :: 0 <= i < n ==> r[i] == x
  {
    if n == 0 then [] else [x] + Repeat(x, n - 1)
  }

  /** Joining a head in front of a non-empty list puts one separator between. */
  lemma JoinCons(x: string, parts: seq<string>, sep: string)
    requires parts != []
    ensures Join([x] + parts, sep) == x + sep + Join(parts, sep)
  {
    assert ([x] + parts)[1..] == parts;
  }

  /** Filtering distributes over concatenation; loops that push one element at a
      time build `Filter` of the prefix they have seen. */
  lemma {:induction false} FilterAppend<T>(p: T -> bool, a: seq<T>, b: seq<T>)
    ensures Filter(p, a + b) == Filter(p, a) + Filter(p, b)
  {
    if a == [] {
      assert a + b == b;
    } else {
      var head := if p(a[0]) then [a[0]] else [];
      assert (a + b)[0] == a[0] && (a + b)[1..] == a[1..] + b;
      assert Filter(p, a + b) == head + Filter(p, a[1..] + b);
      FilterAppend(p, a[1..], b);
      assert Filter(p, a) == head + Filter(p, a[1..]);
    }
  }

  /** One more element at the end: it is kept exactly when it satisfies `p`. */
  lemma FilterSnoc<T>(p: T -> bool, a: seq<T>, x: T)
    ensures Filter(p, a + [x]) == Filter(p, a) + (if p(x) then [x] else [])
  {
    FilterAppend(p, a, [x]);
  }

  /** Membership: an element is in the result iff it is in the input and passes. */
  lemma {:induction false} FilterMembership<T>(p: T -> bool, s: seq<T>, x: T)
    ensures x in Filter(p, s) <==> x in s && p(x)
  {
    if s != [] {
      FilterMembership(p, s[1..], x);
      assert s == [s[0]] + s[1..];
    }
  }

  /** Every result element satisfies `p` and the result is no longer than the input. */
  lemma {:induction false} FilterAllPass<T>(p: T -> bool, s: seq<T>)
    ensures |Filter(p, s)| <= |s|
    ensures forall i :: 0 <= i < |Filter(p, s)| ==> p(Filter(p, s)[i])
  {
    if s != [] {
      FilterAllPass(p, s[1..]);
    }
  }

  /** Nothing is duplicated or dropped: each passing value keeps its multiplicity,
      each failing value disappears. */
  lemma {:induction false} FilterCount<T>(p: T -> bool, s: seq<T>, x: T)
    ensures Count(Filter(p, s), x) == if p(x) then Count(s, x) else 0
  {
    if s != [] {
      FilterCount(p, s[1..], x);
      CountAppend((if p(s[0]) then [s[0]] else []), Filter(p, s[1..]), x);
    }
  }

  lemma {:induction false} CountAppend<T>(a: seq<T>, b: seq<T>, x: T)
    ensures Count(a + b, x) == Count(a, x) + Count(b, x)
  {
    if a == [] {
      assert a + b == b;
    } else {
      assert (a + b)[1..] == a[1..] + b;
      CountAppend(a[1..], b, x);
    }
  }

  /** Nothing is added or reordered: the result is a subsequence of the input. */
  lemma {:induction false} FilterIsSubsequence<T>(p: T -> bool, s: seq<T>)
    ensures IsSubsequence(Filter(p, s), s)
  {
    if s != [] {
      FilterIsSubsequence(p, s[1..]);
      if p(s[0]) {
        assert Filter(p, s) == [s[0]] + Filter(p, s[1..]);
        assert Filter(p, s)[1..] == Filter(p, s[1..]);
      } else {
        assert Filter(p, s) == Filter(p, s[1..]);
        SubsequenceCons(Filter(p, s[1..]), s[1..], s[0]);
      }
    }
  }

  /** Putting an extra element in front of the larger sequence keeps a subsequence. */
  lemma {:induction false} SubsequenceCons<T>(a: seq<T>, b: seq<T>, x: T)
    requires IsSubsequence(a, b)
    ensures IsSubsequence(a, [x] + b)
    decreases |a| + |b| + 1
  {
    if a != [] && a[0] != x {
      assert ([x] + b)[1..] == b;
    } else if a != [] {
      assert ([x] + b)[1..] == b;
      // a[0] == x: either take x, or skip it
      SubsequenceDropHead(a, b);
    }
  }

  /** A subsequence of `b` whose head matches is, after the head, a subsequence of `b`. */
  lemma {:induction false} SubsequenceDropHead<T>(a: seq<T>, b: seq<T>)
    requires a != [] && IsSubsequence(a, b)
    ensures IsSubsequence(a[1..], b)
    decreases |a| + |b|
  {
    if b != [] {
      if a[0] == b[0] {
        SubsequenceCons(a[1..], b[1..], b[0]);
        assert [b[0]] + b[1..] == b;
      } else {
        SubsequenceDropHead(a, b[1..]);
        SubsequenceCons(a[1..], b[1..], b[0]);
        assert [b[0]] + b[1..] == b;
      }
    }
  }
}
