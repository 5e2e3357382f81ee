/** The examples of `src/main.rs` (the book's chapters 3 to 10): the guessing
    game's `Guess`, `first_word` and its slice versions, `Rectangle1`, the coin
    matches, removing zeroes in place, `largest` and the word count. */
module BookMain {

  import opened Wrappers
  import opened Ints
  import Seqs
  import Text
  import opened Vecs

  // ----- Guess (chapter 9) -----

  /** `Guess`; the only way to build one is `NewGuess`. */
  datatype Guess = Guess(value: U32)
  {
    /** `Guess::value` */
    function Value(): (v: U32)
      ensures v == value
    {
      value
    }
  }

  /** `Guess::new`: a guess outside 1..=100 panics with a message naming it. */
  function NewGuess(value: U32): (r: Result<Guess, string>)
    ensures r.Ok? <==> 1 <= value <= 100
    ensures r.Ok? ==> r.value.Value() == value
    ensures r.Err? ==> r.error == "Guess value must be between 1 and 100, got " + IntToString(value)
  {
    if value < 1 || value > 100 then Err("Guess value must be between 1 and 100, got " + IntToString(value))
    else Ok(Guess(value))
  }

  // ----- first_word (chapter 4) -----

  /** `first_word`: the index of the first space, or the length when there is none. */
  method FirstWord(s: string) returns (i: nat)
    ensures i <= |s|
    ensures forall k :: 0 <= k < i ==> s[k] != ' '
    ensures i < |s| ==> s[i] == ' '
  {
    i := 0;
    while i < |s|
      invariant i <= |s|
      invariant forall k :: 0 <= k < i ==> s[k] != ' '
    {
      if s[i] == ' ' {
        return;
      }
      i := i + 1;
    }
  }

  /** `first_word_slice` (and `first_word_advanced`, which has the same body):
      the prefix before the first space, or the whole string. */
  method FirstWordSlice(s: string) returns (word: string)
    ensures word == s[..Text.FindChar(s, ' ')]
    ensures ' ' !in word
    ensures |word| < |s| ==> s[|word|] == ' '
  {
    var i := 0;
    while i < |s|
      invariant i <= |s|
      invariant forall k :: 0 <= k < i ==> s[k] != ' '
    {
      if s[i] == ' ' {
        word := s[..i];
        FindCharIsFirst(s, ' ', i);
        return;
      }
      i := i + 1;
    }
    FindCharIsFirst(s, ' ', |s|);
    word := s;
  }

  /** The index characterised by "no `c` before it, `c` at it (or the end)" is `FindChar`'s. */
  lemma FindCharIsFirst(s: string, c: char, i: nat)
    requires i <= |s| && (forall k :: 0 <= k < i ==> s[k] != c) && (i < |s| ==> s[i] == c)
    ensures Text.FindChar(s, c) == i
  {
  }

  // ----- Rectangle1 (chapter 5) -----

  /** `Rectangle1` */
  datatype Rectangle1 = Rectangle1(width: U32, height: U32)
  {
    /** `Rectangle1::area` (the product must fit in `u32`). */
    function Area(): (a: U32)
      requires width * height <= U32_MAX
      ensures width > 0 && height > 0 ==> a >= width && a >= height
      ensures a == 0 <==> width == 0 || height == 0
    {
      ProductBounds(width, height);
      width * height
    }

    /** `Rectangle1::can_hold`: strictly wider and strictly taller. */
    predicate CanHold(other: Rectangle1)
    {
      width > other.width && height > other.height
    }
  }

  /** `Rectangle1::new` */
  function NewRectangle1(width: U32, height: U32): (r: Rectangle1)
    ensures r.width == width && r.height == height
  {
    Rectangle1(width, height)
  }

  /** `Rectangle1::square` */
  function Square(size: U32): (r: Rectangle1)
    ensures r.width == size && r.height == size
  {
    Rectangle1(size, size)
  }

  /** `can_hold` is a strict order: irreflexive, asymmetric and transitive. */
  lemma CanHoldStrictOrder(a: Rectangle1, b: Rectangle1, c: Rectangle1)
    ensures !a.CanHold(a)
    ensures a.CanHold(b) ==> !b.CanHold(a)
    ensures a.CanHold(b) && b.CanHold(c) ==> a.CanHold(c)
  {
  }

  /** A rectangle that can hold another has the larger area. */
  lemma {:induction false} CanHoldLargerArea(a: Rectangle1, b: Rectangle1)
    requires a.width * a.height <= U32_MAX && b.width * b.height <= U32_MAX
    requires a.CanHold(b)
    ensures b.Area() < a.Area()
  {
    calc {
      b.width * b.height;
    <= { MulMono(b.width, a.width, b.height); }
      a.width * b.height;
    < { assert a.width > 0; MulStrict(a.width, b.height, a.height); }
      a.width * a.height;
    }
  }

  lemma MulMono(x: nat, y: nat, z: nat)
    requires x <= y
    ensures x * z <= y * z
  {
  }

  lemma MulStrict(x: nat, y: nat, z: nat)
    requires x > 0 && y < z
    ensures x * y < x * z
  {
  }

  /** Squares are ordered by their sides. */
  lemma SquareCanHold(s: U32, t: U32)
    ensures Square(s).CanHold(Square(t)) <==> s > t
  {
  }

  // ----- coins (chapter 6) -----

  /** `Coin` */
  datatype Coin = Penny | Nickel | Dime | Quarter

  /** `UsState` (the variants the book lists). */
  datatype UsState = Alabama | Alaska

  /** `Coin2`: the quarter carries the state it was minted for. */
  datatype Coin2 = Penny2 | Nickel2 | Dime2 | Quarter2(state: UsState)

  /** `in_cents` */
  function InCents(coin: Coin): (cents: U32)
    ensures coin == Penny ==> cents == 1
    ensures coin == Nickel ==> cents == 5
    ensures coin == Dime ==> cents == 10
    ensures coin == Quarter ==> cents == 25
  {
    match coin
    case Penny => 1
    case Nickel => 5
    case Dime => 10
    case Quarter => 25
  }

  /** `in_cents2`: the minting state does not change the value. */
  function InCents2(coin: Coin2): (cents: U32)
    ensures coin.Quarter2? ==> cents == 25
  {
    match coin
    case Penny2 => 1
    case Nickel2 => 5
    case Dime2 => 10
    case Quarter2(_) => 25
  }

  /** The coin a `Coin2` is, forgetting the state of a quarter. */
  function Plain(coin: Coin2): Coin
  {
    match coin
    case Penny2 => Penny
    case Nickel2 => Nickel
    case Dime2 => Dime
    case Quarter2(_) => Quarter
  }

  /** Both matches give every kind of coin the same value, and distinct kinds
      have distinct values. */
  lemma InCentsAgree(coin: Coin2, other: Coin)
    ensures InCents2(coin) == InCents(Plain(coin))
    ensures InCents(Plain(coin)) == InCents(other) <==> Plain(coin) == other
  {
  }

  // ----- remove_zeroes_inplace (chapter 8 quiz) -----

  function NonZero(x: int): bool { x != 0 }

  /** `remove_zeroes_inplace`: walk the indices from the last to the first and
      remove each zero; the non-zero elements keep their relative order. */
  method RemoveZeroesInplace(v: Vec<int>)
    modifies v
    ensures v.elems == Seqs.Filter(NonZero, old(v.elems))
  {
    ghost var v0 := v.elems;
    var i := |v.elems|;
    while i > 0
      invariant 0 <= i <= |v0|
      invariant v.elems == v0[..i] + Seqs.Filter(NonZero, v0[i..])
    {
      i := i - 1;
      assert v0[i..][1..] == v0[i + 1..];
      assert v.elems[i] == v0[i];
      if v.elems[i] == 0 {
        v.Remove(i);
        assert v0[..i + 1][..i] == v0[..i];
      }
    }
    assert v0[0..] == v0;
  }

  /** What `remove_zeroes_inplace` leaves: no zero, every non-zero value as
      often as before, in the original order. */
  lemma RemoveZeroesSpec(s: seq<int>)
    ensures 0 !in Seqs.Filter(NonZero, s)
    ensures forall x :: x != 0 ==> Seqs.Count(Seqs.Filter(NonZero, s), x) == Seqs.Count(s, x)
    ensures Seqs.IsSubsequence(Seqs.Filter(NonZero, s), s)
  {
    Seqs.FilterMembership(NonZero, s, 0);
    forall x | x != 0 ensures Seqs.Count(Seqs.Filter(NonZero, s), x) == Seqs.Count(s, x) {
      Seqs.FilterCount(NonZero, s, x);
    }
    Seqs.FilterIsSubsequence(NonZero, s);
  }

  // ----- largest (chapter 10) -----

  /** `largest`, on `i32`: the first element, replaced by every later one that
      is greater. The slice must not be empty (`list[0]` panics). */
  method Largest(list: seq<int>) returns (largest: int)
    requires |list| > 0
    ensures largest in list
    ensures forall k :: 0 <= k < |list| ==> list[k] <= largest
  {
    largest := list[0];
    for i := 0 to |list|
      invariant largest in list
      invariant forall k :: 0 <= k < i ==> list[k] <= largest
    {
      if list[i] > largest {
        largest := list[i];
      }
    }
  }

  // ----- word count (chapter 8) -----

  /** The word-count loop: one `entry(word).or_insert(0)` and increment per
      word of `text.split_whitespace()`. */
  method WordCount(text: string) returns (counts: map<string, int>)
    ensures forall w :: w in counts <==> w in Text.SplitWhitespace(text)
    ensures forall w :: w in counts ==> counts[w] == Seqs.Count(Text.SplitWhitespace(text), w)
  {
    var words := Text.SplitWhitespace(text);
    counts := map[];
    for i := 0 to |words|
      invariant forall w :: w in counts <==> w in words[..i]
      invariant forall w :: w in counts ==> counts[w] == Seqs.Count(words[..i], w)
    {
      var word := words[i];
      var count := if word in counts then counts[word] else 0;
      counts := counts[word := count + 1];
      assert words[..i + 1] == words[..i] + [word];
      forall w ensures Seqs.Count(words[..i + 1], w) == Seqs.Count(words[..i], w) + (if w == word then 1 else 0) {
        Seqs.CountAppend(words[..i], [word], w);
      }
      CountZero(words[..i], word);
    }
    assert words[..|words|] == words;
  }

  /** A value that does not occur is counted zero times. */
  lemma {:induction false} CountZero(s: seq<string>, x: string)
    ensures x !in s ==> Seqs.Count(s, x) == 0
  {
    if s != [] {
      CountZero(s[1..], x);
    }
  }
}
