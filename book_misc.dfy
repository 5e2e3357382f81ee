/** The examples of `src/bin/misc.rs` (the interactive edition of the book):
    ownership exercises on vectors and strings, `find_contains`, `largest` by
    reference, the copyable `Rectangle`, lifetimes (`longest`/`shortest`),
    `greater_than_area` and the `iter10` linear-prediction buffer loop. */
module BookMisc {

  import opened Wrappers
  import opened Ints
  import Seqs
  import Text
  import opened Vecs

  // ----- ascii_capitalize -----

  /** `ascii_capitalize`: upper-case the first character when it is an ASCII
      lower-case letter. `v[0]` on an empty vector panics; `panicked` says so
      and the vector is then left as it was. */
  method AsciiCapitalize(v: array<char>) returns (panicked: bool)
    modifies v
    ensures panicked <==> v.Length == 0
    ensures v.Length > 0 ==> v[0] == Text.UpperChar(old(v[0]))
    ensures forall k :: 1 <= k < v.Length ==> v[k] == old(v[k])
  {
    if v.Length == 0 {
      return true;
    }
    panicked := false;
    var c := v[0];
    if Text.IsAsciiLower(c) {
      v[0] := Text.UpperChar(c);
    }
  }

  /** The first character changes exactly when it is ASCII lower-case, and
      then to its upper-case letter. */
  lemma CapitalizeChanges(c: char)
    ensures Text.UpperChar(c) != c <==> Text.IsAsciiLower(c)
    ensures Text.IsAsciiLower(c) ==> 'A' <= Text.UpperChar(c) <= 'Z' && Text.LowerChar(Text.UpperChar(c)) == c
  {
  }

  // ----- stringify_name_with_title -----

  /** `stringify_name_with_title_1`: takes the vector, pushes "Esq.", joins with " ". */
  method StringifyNameWithTitle1(name: seq<string>) returns (full: string)
    ensures full == Seqs.Join(name + ["Esq."], " ")
  {
    var owned := name;
    owned := owned + ["Esq."];
    full := Seqs.Join(owned, " ");
  }

  /** `stringify_name_with_title_2`: borrows the vector, pushes onto a clone. */
  method StringifyNameWithTitle2(name: Vec<string>) returns (full: string)
    ensures full == Seqs.Join(name.elems + ["Esq."], " ")
  {
    var nameClone := new Vec(name.elems);
    nameClone.Push("Esq.");
    full := Seqs.Join(nameClone.elems, " ");
  }

  /** `stringify_name_with_title_3`: joins the borrowed names, then appends " Esq.". */
  function StringifyNameWithTitle3(name: seq<string>): string
  {
    Seqs.Join(name, " ") + " Esq."
  }

  /** Joining after pushing one more part is joining, then the separator and the part. */
  lemma {:induction false} JoinSnoc(parts: seq<string>, sep: string, last: string)
    requires parts != []
    ensures Seqs.Join(parts + [last], sep) == Seqs.Join(parts, sep) + sep + last
  {
    if |parts| == 1 {
      assert parts + [last] == [parts[0], last];
      assert [parts[0], last][1..] == [last];
    } else {
      assert (parts + [last])[1..] == parts[1..] + [last];
      JoinSnoc(parts[1..], sep, last);
    }
  }

  /** For a non-empty name the three versions agree; for an empty name the
      first gives "Esq." and the third " Esq.". */
  lemma StringifyVersions(name: seq<string>)
    ensures name != [] ==> Seqs.Join(name + ["Esq."], " ") == StringifyNameWithTitle3(name)
    ensures name == [] ==> Seqs.Join(name + ["Esq."], " ") == "Esq."
    ensures name == [] ==> StringifyNameWithTitle3(name) == " Esq."
  {
    if name != [] {
      JoinSnoc(name, " ", "Esq.");
    } else {
      assert name + ["Esq."] == ["Esq."];
    }
  }

  // ----- find_contains and largest -----

  function ContainsNeedle(needle: string): string -> bool
  {
    item => Text.Contains(item, needle)
  }

  /** `find_contains`: clone every item containing the needle into a new vector. */
  method FindContains(haystack: seq<string>, needle: string) returns (r: seq<string>)
    ensures r == Seqs.Filter(ContainsNeedle(needle), haystack)
  {
    r := [];
    for i := 0 to |haystack|
      invariant r == Seqs.Filter(ContainsNeedle(needle), haystack[..i])
    {
      Seqs.FilterSnoc(ContainsNeedle(needle), haystack[..i], haystack[i]);
      if Text.Contains(haystack[i], needle) {
        r := r + [haystack[i]];
      }
      assert haystack[..i + 1] == haystack[..i] + [haystack[i]];
    }
    assert haystack[..|haystack|] == haystack;
  }

  /** The items `find_contains` returns are exactly those containing the
      needle, each as often as in the haystack, in order. */
  lemma FindContainsSpec(haystack: seq<string>, needle: string)
    ensures forall x :: x in Seqs.Filter(ContainsNeedle(needle), haystack) <==> x in haystack && Text.Contains(x, needle)
    ensures forall x :: (Seqs.Count(Seqs.Filter(ContainsNeedle(needle), haystack), x) ==
      if Text.Contains(x, needle) then Seqs.Count(haystack, x) else 0)
    ensures Seqs.IsSubsequence(Seqs.Filter(ContainsNeedle(needle), haystack), haystack)
  {
    var p := ContainsNeedle(needle);
    forall x ensures x in Seqs.Filter(p, haystack) <==> x in haystack && p(x) {
      Seqs.FilterMembership(p, haystack, x);
    }
    forall x ensures Seqs.Count(Seqs.Filter(p, haystack), x) == if p(x) then Seqs.Count(haystack, x) else 0 {
      Seqs.FilterCount(p, haystack, x);
    }
    Seqs.FilterIsSubsequence(p, haystack);
  }

  /** `largest` returning a reference, here the index it points at: the strict
      `>` keeps the first of several equal maxima. */
  method Largest(list: seq<I32>) returns (largest: nat)
    requires |list| > 0
    ensures largest < |list|
    ensures forall k :: 0 <= k < |list| ==> list[k] <= list[largest]
    ensures forall k :: 0 <= k < largest ==> list[k] < list[largest]
  {
    largest := 0;
    for i := 0 to |list|
      invariant largest < |list| && largest <= i
      invariant forall k :: 0 <= k < i ==> list[k] <= list[largest]
      invariant forall k :: 0 <= k < largest ==> list[k] < list[largest]
    {
      if list[i] > list[largest] {
        largest := i;
      }
    }
  }

  // ----- Rectangle -----

  /** `Rectangle`, a `Copy` value. */
  datatype Rectangle = Rectangle(width: U32, height: U32)
  {
    /** `Rectangle::area` (the product must fit in `u32`). */
    function Area(): (a: U32)
      requires width * height <= U32_MAX
      ensures a == 0 <==> width == 0 || height == 0
      ensures width > 0 && height > 0 ==> a >= width && a >= height
    {
      ProductBounds(width, height);
      width * height
    }

    /** `Rectangle::max`: the componentwise maximum. */
    function Max(other: Rectangle): (r: Rectangle)
      ensures r.width >= width && r.width >= other.width && (r.width == width || r.width == other.width)
      ensures r.height >= height && r.height >= other.height && (r.height == height || r.height == other.height)
    {
      Rectangle(if width >= other.width then width else other.width,
                if height >= other.height then height else other.height)
    }
  }

  /** `Rectangle::square` */
  function Square(size: U32): (r: Rectangle)
    ensures r.width == size && r.height == size
  {
    Rectangle(size, size)
  }

  /** `max` is commutative, associative and idempotent: the least rectangle
      covering both arguments. */
  lemma MaxLaws(a: Rectangle, b: Rectangle, c: Rectangle)
    ensures a.Max(b) == b.Max(a)
    ensures a.Max(b).Max(c) == a.Max(b.Max(c))
    ensures a.Max(a) == a
  {
  }

  /** A place holding a `Rectangle`, as `&mut self` refers to one. */
  class RectangleCell {
    var value: Rectangle

    constructor (value: Rectangle)
      ensures this.value == value
    {
      this.value := value;
    }

    /** `Rectangle::set_width`: only the width changes. */
    method SetWidth(width: U32)
      modifies this
      ensures value.width == width && value.height == old(value.height)
    {
      value := value.(width := width);
    }

    /** `Rectangle::set_to_max`: `*self = self.max(other)`. */
    method SetToMax(other: Rectangle)
      modifies this
      ensures value == old(value).Max(other)
    {
      value := value.Max(other);
    }
  }

  /** `assocfunc2`: the max of a 0x0 and a 1x1 rectangle, then width set to 10,
      has area 10. */
  method AssocFunc2() returns (areaBefore: U32, areaAfter: U32)
    ensures areaBefore == 1 && areaAfter == 10
  {
    var rect := Rectangle(0, 0);
    var cell := new RectangleCell(rect.Max(Rectangle(1, 1)));
    areaBefore := cell.value.Area();
    cell.SetWidth(10);
    areaAfter := cell.value.Area();
  }

  /** `greater_than_area`: the rectangles whose area exceeds `area`, in order. */
  function GreaterThanArea(v: seq<Rectangle>, area: U32): (r: seq<Rectangle>)
    ensures forall k :: 0 <= k < |r| ==> r[k].width * r[k].height > area
    ensures forall x :: x in r <==> x in v && x.width * x.height > area
    ensures forall x :: (Seqs.Count(r, x) ==
      if x.width * x.height > area then Seqs.Count(v, x) else 0)
    ensures Seqs.IsSubsequence(r, v)
  {
    var p := (s: Rectangle) => s.width * s.height > area;
    Seqs.FilterAllPass(p, v);
    FilterMembershipAll(p, v);
    FilterCountAll(p, v);
    Seqs.FilterIsSubsequence(p, v);
    Seqs.Filter(p, v)
  }

  lemma FilterMembershipAll<T>(p: T -> bool, s: seq<T>)
    ensures forall x :: x in Seqs.Filter(p, s) <==> x in s && p(x)
  {
    forall x ensures x in Seqs.Filter(p, s) <==> x in s && p(x) {
      Seqs.FilterMembership(p, s, x);
    }
  }

  lemma FilterCountAll<T>(p: T -> bool, s: seq<T>)
    ensures forall x :: Seqs.Count(Seqs.Filter(p, s), x) == if p(x) then Seqs.Count(s, x) else 0
  {
    forall x ensures Seqs.Count(Seqs.Filter(p, s), x) == if p(x) then Seqs.Count(s, x) else 0 {
      Seqs.FilterCount(p, s, x);
    }
  }

  // ----- lifetimes -----

  /** `longest`: the longer string; `x` on a tie. */
  function Longest(x: string, y: string): (r: string)
    ensures r == x || r == y
    ensures |r| >= |x| && |r| >= |y|
    ensures |x| == |y| ==> r == x
  {
    if |x| >= |y| then x else y
  }

  /** `shortest`: the shorter string; `x` on a tie. */
  function Shortest(x: string, y: string): (r: string)
    ensures r == x || r == y
    ensures |r| <= |x| && |r| <= |y|
    ensures |x| == |y| ==> r == x
  {
    if |x| <= |y| then x else y
  }

  /** `longest_with_an_announcement`: the announcement is only printed; the
      strict `>` hands back `y` on a tie. */
  function LongestWithAnAnnouncement<T>(x: string, y: string, ann: T): (r: string)
    ensures r == x || r == y
    ensures |r| >= |x| && |r| >= |y|
    ensures |x| == |y| ==> r == y
  {
    if |x| > |y| then x else y
  }

  /** The three agree except on ties, where the announcing version differs
      from `longest`; between them `longest` and `shortest` return both
      arguments. */
  lemma LifetimeFunctions(x: string, y: string)
    ensures |x| != |y| ==> LongestWithAnAnnouncement(x, y, 0) == Longest(x, y)
    ensures x != y && |x| == |y| ==> LongestWithAnAnnouncement(x, y, 0) != Longest(x, y)
    ensures |x| != |y| ==> {Longest(x, y), Shortest(x, y)} == {x, y}
  {
  }

  // ----- iter10 -----

  /** The coefficients and shift of `iter10`'s linear predictor. */
  const Coefficients: seq<int> := [1, 2, 3, 4, 5, 6, 7, 8, 9, 10, 11, 12]
  const QlpShift: nat := 8

  /** Sum of the products of coefficients and samples. */
  function Dot(c: seq<int>, s: seq<int>): int
    requires |c| == |s|
  {
    if c == [] then 0 else c[0] * s[0] + Dot(c[1..], s[1..])
  }

  /** `(Σ c[j] * buffer[i-12+j]) >> qlp_shift` on `i64`: the arithmetic shift
      right rounds towards minus infinity, as Dafny's division by a positive
      number does. */
  function Prediction(b: seq<int>, i: nat): int
    requires 12 <= i <= |b|
  {
    Dot(Coefficients, b[i - 12..i]) / 256
  }

  /** The value stored at `i`: `prediction as i32 + delta`, which panics
      (`None`) when the `i32` addition overflows. */
  function Restored(b: seq<int>, i: nat): Option<int>
    requires 12 <= i < |b|
  {
    var v := WrapI32(Prediction(b, i)) + b[i];
    if InI32(v) then Some(v) else None
  }

  /** The buffer after the loop has run over indices `i..`, each prediction
      reading the samples already updated; `None` if an addition overflows. */
  function Predicted(b: seq<int>, i: nat): Option<seq<int>>
    requires 12 <= i <= |b|
    decreases |b| - i
  {
    if i == |b| then Some(b)
    else match Restored(b, i)
      case None => None
      case Some(v) => Predicted(b[i := v], i + 1)
  }

  /** The `iter10` loop over `buffer[12..]`, in place. */
  method Iter10(buffer: array<int>) returns (panicked: bool)
    requires forall k :: 0 <= k < buffer.Length ==> InI32(buffer[k])
    modifies buffer
    ensures buffer.Length < 12 ==> !panicked && buffer[..] == old(buffer[..])
    ensures buffer.Length >= 12 ==> (panicked <==> Predicted(old(buffer[..]), 12).None?)
    ensures buffer.Length >= 12 && !panicked ==> buffer[..] == Predicted(old(buffer[..]), 12).value
  {
    if buffer.Length < 12 {
      return false;
    }
    ghost var b0 := buffer[..];
    for i := 12 to buffer.Length
      invariant Predicted(buffer[..], i) == Predicted(b0, 12)
    {
      var prediction := Prediction(buffer[..], i);
      var delta := buffer[i];
      var v := WrapI32(prediction) + delta;
      if !InI32(v) {
        return true;
      }
      buffer[i] := v;
    }
    panicked := false;
  }

  /** The loop never touches the first twelve samples. */
  lemma {:induction false} PredictedKeepsPrefix(b: seq<int>, i: nat)
    requires 12 <= i <= |b|
    ensures Predicted(b, i).Some? ==> |Predicted(b, i).value| == |b| && Predicted(b, i).value[..i] == b[..i]
    decreases |b| - i
  {
    if i < |b| && Restored(b, i).Some? {
      var b1 := b[i := Restored(b, i).value];
      PredictedKeepsPrefix(b1, i + 1);
      assert b1[..i] == b[..i];
    }
  }

  function SumOf(c: seq<int>): int
  {
    if c == [] then 0 else c[0] + SumOf(c[1..])
  }

  /** Against samples that are all one, the predictor's sum is the sum of
      its coefficients. */
  lemma {:induction false} DotOnes(c: seq<int>, s: seq<int>)
    requires |c| == |s| && forall k :: 0 <= k < |s| ==> s[k] == 1
    ensures Dot(c, s) == SumOf(c)
  {
    if c != [] {
      DotOnes(c[1..], s[1..]);
    }
  }

  lemma CoefficientsSum()
    ensures SumOf(Coefficients) == 78
  {
    assert SumOf([1, 2, 3, 4, 5, 6, 7, 8, 9, 10, 11, 12]) == 78;
  }

  lemma OnesRestored(b: seq<int>, i: nat)
    requires 12 <= i < |b| && forall k :: 0 <= k < |b| ==> b[k] == 1
    ensures Restored(b, i) == Some(1)
  {
    OnesPrediction(b, i);
  }

  lemma OnesPrediction(b: seq<int>, i: nat)
    requires 12 <= i <= |b| && forall k :: 0 <= k < |b| ==> b[k] == 1
    ensures Prediction(b, i) == 0
  {
    var w := b[i - 12..i];
    assert forall k :: 0 <= k < |w| ==> w[k] == 1;
    DotOnes(Coefficients, w);
    CoefficientsSum();
  }

  /** `iter10`'s data is all ones: every prediction is 78 >> 8 = 0, so the
      buffer is a fixpoint of the loop. */
  lemma {:induction false} AllOnesFixpoint(b: seq<int>, i: nat)
    requires 12 <= i <= |b| && forall k :: 0 <= k < |b| ==> b[k] == 1
    ensures Predicted(b, i) == Some(b)
    decreases |b| - i
  {
    if i < |b| {
      OnesRestored(b, i);
      assert b[i := 1] == b;
      AllOnesFixpoint(b, i + 1);
    }
  }
}
