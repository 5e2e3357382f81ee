/** The string operations of Rust's `str` that the modelled code calls: `lines`,
    `contains`, ASCII case mapping, `split`, `split_whitespace` and `trim_matches`.
    Strings are sequences of characters; byte-level UTF-8 is not modelled. */
module Text {

  import Seqs

  /** Index of the first `c` in `s`, or `|s|` when there is none. */
  function FindChar(s: string, c: char): (r: nat)
    ensures r <= |s|
    ensures forall k :: 0 <= k < r ==> s[k] != c
    ensures r < |s| ==> s[r] == c
  {
    if s == [] then 0 else if s[0] == c then 0 else 1 + FindChar(s[1..], c)
  }

  /** A line's terminator is "\n" or "\r\n": drop the carriage return. */
  function StripCr(line: string): string
  {
    if |line| > 0 && line[|line| - 1] == '\r' then line[..|line| - 1] else line
  }

  /** `str::lines`: split after every "\n", drop the "\n" and a "\r" just before it;
      a final empty piece (after a trailing "\n", or of an empty string) is not a line. */
  function Lines(s: string): seq<string>
    decreases |s|
  {
    if s == [] then []
    else
      var i := FindChar(s, '\n');
      if i == |s| then [s] else [StripCr(s[..i])] + Lines(s[i + 1..])
  }

  /** `s.starts_with(q)` */
  predicate StartsWith(s: string, q: string)
  {
    |q| <= |s| && s[..|q|] == q
  }

  /** `s.contains(q)`: `q` occurs somewhere in `s` (the empty query occurs everywhere). */
  predicate Contains(s: string, q: string)
    decreases |s|
  {
    if StartsWith(s, q) then true else if s == [] then false else Contains(s[1..], q)
  }

  /** `q` occurs in `s` at position `i`. */
  predicate OccursAt(s: string, q: string, i: int)
  {
    0 <= i <= |s| - |q| && s[i..i + |q|] == q
  }

  /** A slice of `s[1..]` is the slice of `s` one position further on. */
  lemma SliceOfTail(s: string, i: int, n: nat)
    requires 1 <= i && i + n <= |s|
    ensures s[1..][i - 1..i - 1 + n] == s[i..i + n]
  {
    var a, b := s[1..][i - 1..i - 1 + n], s[i..i + n];
    assert forall k :: 0 <= k < n ==> a[k] == b[k];
  }

  /** Contains agrees with the positional definition of a substring occurrence. */
  lemma {:induction false} ContainsIff(s: string, q: string)
    ensures Contains(s, q) <==> exists i :: OccursAt(s, q, i)
    decreases |s|
  {
    if StartsWith(s, q) {
      assert OccursAt(s, q, 0);
    } else if s == [] {
    } else {
      ContainsIff(s[1..], q);
      if Contains(s[1..], q) {
        var i :| OccursAt(s[1..], q, i);
        SliceOfTail(s, i + 1, |q|);
        assert OccursAt(s, q, i + 1);
      } else {
        forall i | 1 <= i <= |s| - |q|
          ensures OccursAt(s, q, i) ==> OccursAt(s[1..], q, i - 1)
        {
          SliceOfTail(s, i, |q|);
        }
        assert !OccursAt(s, q, 0);
      }
    }
  }

  /** `char::to_ascii_lowercase` */
  function LowerChar(c: char): char
  {
    if 'A' <= c <= 'Z' then (c as int + 32) as char else c
  }

  /** `char::is_ascii_lowercase` */
  predicate IsAsciiLower(c: char)
  {
    'a' <= c <= 'z'
  }

  /** `char::to_ascii_uppercase` */
  function UpperChar(c: char): (r: char)
    ensures IsAsciiLower(c) ==> LowerChar(r) == c && 'A' <= r <= 'Z'
    ensures !IsAsciiLower(c) ==> r == c
  {
    if IsAsciiLower(c) then (c as int - 32) as char else c
  }

  /** `str::to_lowercase`, restricted to ASCII letters. */
  function Lower(s: string): (r: string)
    ensures |r| == |s| && forall i :: 0 <= i < |s| ==> r[i] == LowerChar(s[i])
  {
    seq(|s|, i requires 0 <= i < |s| => LowerChar(s[i]))
  }

  /** Lowercasing both sides keeps an occurrence where it was. */
  lemma LowerOccurs(s: string, q: string, i: int)
    requires OccursAt(s, q, i)
    ensures OccursAt(Lower(s), Lower(q), i)
  {
    forall k | 0 <= k < |q|
      ensures Lower(s)[i..i + |q|][k] == Lower(q)[k]
    {
      assert s[i..i + |q|][k] == s[i + k];
    }
  }

  /** `str::split(c)`: the pieces between occurrences of `c`; always at least one. */
  function Split(s: string, c: char): (r: seq<string>)
    ensures |r| >= 1
    decreases |s|
  {
    var i := FindChar(s, c);
    if i == |s| then [s] else [s[..i]] + Split(s[i + 1..], c)
  }

  /** The first piece of a split runs up to the first separator. */
  lemma SplitHead(s: string, c: char)
    ensures Split(s, c)[0] == s[..FindChar(s, c)]
    ensures |Split(s, c)| >= 2 <==> FindChar(s, c) < |s|
  {
    var i := FindChar(s, c);
    if i < |s| {
      assert |Split(s[i + 1..], c)| >= 1;
    } else {
      assert s[..i] == s;
    }
  }

  /** The whitespace `split_whitespace` separates on (ASCII subset). */
  predicate IsWhitespace(c: char)
  {
    c == ' ' || c == '\t' || c == '\n' || c == '\r' || c == '\U{B}' || c == '\U{C}'
  }

  function SkipWhitespace(s: string): (r: string)
    ensures |r| <= |s| && (r != [] ==> !IsWhitespace(r[0]))
    ensures r == s[|s| - |r|..]
  {
    if s != [] && IsWhitespace(s[0]) then SkipWhitespace(s[1..]) else s
  }

  /** Length of the leading run of non-whitespace characters. */
  function WordEnd(s: string): (r: nat)
    ensures r <= |s| && forall k :: 0 <= k < r ==> !IsWhitespace(s[k])
    ensures r < |s| ==> IsWhitespace(s[r])
  {
    if s == [] || IsWhitespace(s[0]) then 0 else 1 + WordEnd(s[1..])
  }

  /** A non-empty run of non-whitespace characters. */
  predicate IsWord(w: string)
  {
    w != [] && forall j :: 0 <= j < |w| ==> !IsWhitespace(w[j])
  }

  /** `str::split_whitespace`: the maximal non-empty runs of non-whitespace, in order. */
  function SplitWhitespace(s: string): (r: seq<string>)
    ensures forall k :: 0 <= k < |r| ==> IsWord(r[k])
    decreases |s|
  {
    var t := SkipWhitespace(s);
    if t == [] then []
    else
      var i := WordEnd(t);
      var word, rest := t[..i], t[i..];
      assert IsWord(word) by {
        assert i >= 1;
        assert forall j :: 0 <= j < |word| ==> word[j] == t[j];
      }
      assert |rest| < |s|;
      [word] + SplitWhitespace(rest)
  }

  /** `str::trim_matches` with a character predicate given as a set. */
  function TrimMatches(s: string, cs: set<char>): (r: string)
    ensures r != [] ==> r[0] !in cs && r[|r| - 1] !in cs
    ensures |r| <= |s|
  {
    TrimEnd(TrimStart(s, cs), cs)
  }

  function TrimStart(s: string, cs: set<char>): (r: string)
    ensures r != [] ==> r[0] !in cs
    ensures |r| <= |s| && r == s[|s| - |r|..]
    ensures forall k :: 0 <= k < |s| - |r| ==> s[k] in cs
  {
    if s != [] && s[0] in cs then TrimStart(s[1..], cs) else s
  }

  function TrimEnd(s: string, cs: set<char>): (r: string)
    ensures r != [] ==> r[|r| - 1] !in cs
    ensures |r| <= |s| && r == s[..|r|]
    ensures r != [] && s != [] && s[0] !in cs ==> r[0] == s[0]
    ensures forall k :: |r| <= k < |s| ==> s[k] in cs
  {
    if s != [] && s[|s| - 1] in cs then TrimEnd(s[..|s| - 1], cs) else s
  }

  /** Searching past a prefix that lacks `c`. */
  lemma {:induction false} FindCharConcat(a: string, b: string, c: char)
    requires c !in a
    ensures FindChar(a + b, c) == |a| + FindChar(b, c)
  {
    if a != [] {
      assert (a + b)[1..] == a[1..] + b;
      FindCharConcat(a[1..], b, c);
    } else {
      assert a + b == b;
    }
  }

  /** A line that `lines` hands back unchanged: no newline, no trailing carriage return. */
  predicate PlainLine(l: string)
  {
    '\n' !in l && !(|l| > 0 && l[|l| - 1] == '\r')
  }

  /** A non-empty string without a newline is one line. */
  lemma LinesSingle(l: string)
    requires l != [] && PlainLine(l)
    ensures Lines(l) == [l]
  {
  }

  /** A plain line followed by "\n" is the first line of the text. */
  lemma LinesCons(head: string, rest: string)
    requires PlainLine(head)
    ensures Lines(head + "\n" + rest) == [head] + Lines(rest)
  {
    var s := head + "\n" + rest;
    FindCharConcat(head, "\n" + rest, '\n');
    assert head + "\n" + rest == head + ("\n" + rest);
    var i := FindChar(s, '\n');
    assert i == |head|;
    assert s[..i] == head;
    assert s[i + 1..] == rest;
  }

  /** `lines` undoes joining plain lines with "\n" (when the last line is not empty). */
  lemma {:induction false} LinesOfJoin(ls: seq<string>)
    requires forall k :: 0 <= k < |ls| ==> PlainLine(ls[k])
    requires ls == [] || ls[|ls| - 1] != ""
    ensures Lines(Seqs.Join(ls, "\n")) == ls
  {
    if |ls| == 1 {
      assert Seqs.Join(ls, "\n") == ls[0];
      LinesSingle(ls[0]);
    } else if |ls| >= 2 {
      var tail := ls[1..];
      var rest := Seqs.Join(tail, "\n");
      assert Seqs.Join(ls, "\n") == ls[0] + "\n" + rest;
      LinesCons(ls[0], rest);
      assert forall k :: 0 <= k < |tail| ==> tail[k] == ls[k + 1];
      LinesOfJoin(tail);
      assert ls == [ls[0]] + tail;
    }
  }

  /** Cutting `s` around position `i`. */
  lemma CutAt(s: string, i: nat)
    requires i < |s|
    ensures s == s[..i] + [s[i]] + s[i + 1..]
  {
  }

  /** Joining the pieces of `split(c)` with `c` gives back the string. */
  lemma {:induction false} SplitJoin(s: string, c: char)
    ensures Seqs.Join(Split(s, c), [c]) == s
    decreases |s|
  {
    var i := FindChar(s, c);
    if i < |s| {
      var head, rest := s[..i], s[i + 1..];
      SplitJoin(rest, c);
      var pieces := Split(rest, c);
      assert Split(s, c) == [head] + pieces;
      Seqs.JoinCons(head, pieces, [c]);
      CutAt(s, i);
    }
  }
}
