/** `examples/result1.rs`: combining `i32` parses with `and_then`/`map` or
    `?`, and four strategies for parsing a list of strings. */
module Result1 {

  import opened Wrappers
  import opened Ints

  /** `first * second` on `i32` panics on overflow: `multiply` requires that
      the product of two successful parses fits. */
  predicate ProductFits(first: string, second: string)
  {
    ParseI32(first).Ok? && ParseI32(second).Ok? ==> InI32(ParseI32(first).value * ParseI32(second).value)
  }

  /** ex1 `multiply` (and ex2's, identical but for a type alias):
      `and_then` on the first parse, `map` on the second. */
  function Multiply(first: string, second: string): (r: Result<int, ParseIntError>)
    requires ProductFits(first, second)
    ensures ParseI32(first).Err? ==> r == Err(ParseI32(first).error)
    ensures ParseI32(first).Ok? && ParseI32(second).Err? ==> r == Err(ParseI32(second).error)
    ensures ParseI32(first).Ok? && ParseI32(second).Ok? ==>
      r == Ok(ParseI32(first).value * ParseI32(second).value)
  {
    AndThenResult(ParseI32(first), (a: int) => MapResult(ParseI32(second), (b: int) => a * b))
  }

  /** ex3 `multiply`, with `?`. */
  function MultiplyEarlyReturn(first: string, second: string): Result<int, ParseIntError>
    requires ProductFits(first, second)
  {
    match ParseI32(first)
    case Err(e) => Err(e)
    case Ok(a) =>
      match ParseI32(second)
      case Err(e) => Err(e)
      case Ok(b) => Ok(a * b)
  }

  /** The versions agree on every input; the second string is not consulted
      when the first fails. */
  lemma MultiplyVersionsAgree(first: string, second: string, other: string)
    requires ProductFits(first, second) && ProductFits(first, other)
    ensures Multiply(first, second) == MultiplyEarlyReturn(first, second)
    ensures ParseI32(first).Err? ==> Multiply(first, second) == Multiply(first, other)
  {
  }

  lemma ParseTen()
    ensures ParseI32("10") == Ok(10)
  {
    assert IntToString(10) == "10";
    ParseIntToString(10, I32_MIN, I32_MAX);
  }

  lemma ParseTwo()
    ensures ParseI32("2") == Ok(2)
  {
    assert IntToString(2) == "2";
    ParseIntToString(2, I32_MIN, I32_MAX);
  }

  /** ("10", "2") gives 20; ("t", "2") gives the first string's error. */
  lemma MultiplyExamples()
    ensures ParseI32("10") == Ok(10) && ParseI32("2") == Ok(2) && Multiply("10", "2") == Ok(20)
    ensures ParseI32("t").Err? && Multiply("t", "2") == Err(ParseIntError(InvalidDigit))
  {
    ParseTen();
    ParseTwo();
    assert ParseI32("t") == Err(ParseIntError(InvalidDigit));
  }

  // ----- ex4: iterating over parses -----

  /** `.map(|s| s.parse())` for the integer type `lo..=hi`. */
  function ParseAll(strings: seq<string>, lo: int, hi: int): (rs: seq<Result<int, ParseIntError>>)
    ensures |rs| == |strings| && forall i :: 0 <= i < |rs| ==> rs[i] == ParseInt(strings[i], lo, hi)
  {
    if strings == [] then [] else [ParseInt(strings[0], lo, hi)] + ParseAll(strings[1..], lo, hi)
  }

  /** `filter_map(|r| r.ok())`: the parsed values, in order. */
  function Oks(rs: seq<Result<int, ParseIntError>>): seq<int>
  {
    if rs == [] then []
    else (if rs[0].Ok? then [rs[0].value] else []) + Oks(rs[1..])
  }

  /** The errors, in order. */
  function Errs(rs: seq<Result<int, ParseIntError>>): seq<ParseIntError>
  {
    if rs == [] then []
    else (if rs[0].Err? then [rs[0].error] else []) + Errs(rs[1..])
  }

  lemma {:induction false} OksSnoc(rs: seq<Result<int, ParseIntError>>, r: Result<int, ParseIntError>)
    ensures Oks(rs + [r]) == Oks(rs) + (if r.Ok? then [r.value] else [])
    ensures Errs(rs + [r]) == Errs(rs) + (if r.Err? then [r.error] else [])
  {
    if rs != [] {
      assert (rs + [r])[1..] == rs[1..] + [r];
      OksSnoc(rs[1..], r);
    }
  }

  /** Every result is kept on exactly one side. */
  lemma {:induction false} OksErrsCount(rs: seq<Result<int, ParseIntError>>)
    ensures |Oks(rs)| + |Errs(rs)| == |rs|
  {
    if rs != [] {
      OksErrsCount(rs[1..]);
    }
  }

  /** The second strategy: `map_err(|e| errors.push(e)).ok()` inside a
      `filter_map`, which keeps the values and pushes each error aside. */
  method FilterMapSavingErrors(strings: seq<string>, lo: int, hi: int) returns (numbers: seq<int>, errors: seq<ParseIntError>)
    ensures numbers == Oks(ParseAll(strings, lo, hi))
    ensures errors == Errs(ParseAll(strings, lo, hi))
  {
    numbers, errors := [], [];
    ghost var rs := ParseAll(strings, lo, hi);
    for i := 0 to |strings|
      invariant numbers == Oks(rs[..i]) && errors == Errs(rs[..i])
    {
      var r := ParseInt(strings[i], lo, hi);
      OksSnoc(rs[..i], r);
      assert rs[..i + 1] == rs[..i] + [r];
      match r {
        case Ok(v) => numbers := numbers + [v];
        case Err(e) => errors := errors + [e];
      }
    }
    assert rs[..|strings|] == rs;
  }

  /** `collect::<Result<Vec<_>, _>>()`: all values, or the first error. */
  function CollectResult(rs: seq<Result<int, ParseIntError>>): Result<seq<int>, ParseIntError>
  {
    if rs == [] then Ok([])
    else match rs[0]
      case Err(e) => Err(e)
      case Ok(v) => MapResult(CollectResult(rs[1..]), (vs: seq<int>) => [v] + vs)
  }

  /** Collecting succeeds exactly when every parse does, with the values in
      order; otherwise it yields the error of the first failing string. */
  lemma {:induction false} CollectResultSpec(rs: seq<Result<int, ParseIntError>>)
    ensures CollectResult(rs).Ok? <==> forall i :: 0 <= i < |rs| ==> rs[i].Ok?
    ensures CollectResult(rs).Ok? ==> CollectResult(rs).value == Oks(rs)
    ensures CollectResult(rs).Err? ==> exists i :: (0 <= i < |rs| && rs[i] == Err(CollectResult(rs).error) &&
      forall j :: 0 <= j < i ==> rs[j].Ok?)
  {
    if rs != [] {
      CollectResultSpec(rs[1..]);
      if rs[0].Ok? && CollectResult(rs).Err? {
        var i :| 0 <= i < |rs[1..]| && rs[1..][i] == Err(CollectResult(rs[1..]).error) &&
          forall j :: 0 <= j < i ==> rs[1..][j].Ok?;
        assert rs[i + 1] == Err(CollectResult(rs).error);
        assert forall j :: 0 <= j < i + 1 ==> rs[j].Ok? by {
          forall j | 0 <= j < i + 1 ensures rs[j].Ok? {
            if j > 0 {
              assert rs[j] == rs[1..][j - 1];
            }
          }
        }
      }
    }
  }

  /** `partition(Result::is_ok)`, then `unwrap`/`unwrap_err` on each side. */
  function Partition(rs: seq<Result<int, ParseIntError>>): (p: (seq<int>, seq<ParseIntError>))
    ensures p.0 == Oks(rs) && p.1 == Errs(rs)
  {
    if rs == [] then ([], [])
    else
      var rest := Partition(rs[1..]);
      match rs[0]
      case Ok(v) => ([v] + rest.0, rest.1)
      case Err(e) => (rest.0, [e] + rest.1)
  }

  lemma ParseSmall(x: nat, s: string, lo: int, hi: int)
    requires lo <= 0 < hi && x <= hi && IntToString(x) == s
    ensures ParseInt(s, lo, hi) == Ok(x)
  {
    ParseIntToString(x, lo, hi);
  }

  /** `main`'s list parsed as `u8`: "tofu" is not a number and 999 does not fit. */
  lemma ExampleParses()
    ensures ParseAll(["42", "tofu", "93", "999", "18"], 0, U8_MAX) ==
      [Ok(42), Err(ParseIntError(InvalidDigit)), Ok(93), Err(ParseIntError(PosOverflow)), Ok(18)]
  {
    assert IntToString(42) == "42" && IntToString(93) == "93" && IntToString(18) == "18";
    ParseSmall(42, "42", 0, U8_MAX);
    ParseSmall(93, "93", 0, U8_MAX);
    ParseSmall(18, "18", 0, U8_MAX);
    assert ParseInt("tofu", 0, U8_MAX) == Err(ParseIntError(InvalidDigit));
    assert ParseInt("999", 0, U8_MAX) == Err(ParseIntError(PosOverflow));
  }

  /** The second strategy on that list keeps 42, 93 and 18 and saves the
      two errors aside. */
  lemma SavingErrorsExample()
    ensures Oks(ParseAll(["42", "tofu", "93", "999", "18"], 0, U8_MAX)) == [42, 93, 18]
    ensures Errs(ParseAll(["42", "tofu", "93", "999", "18"], 0, U8_MAX)) ==
      [ParseIntError(InvalidDigit), ParseIntError(PosOverflow)]
  {
    ExampleParses();
    var rs: seq<Result<int, ParseIntError>> :=
      [Ok(42), Err(ParseIntError(InvalidDigit)), Ok(93), Err(ParseIntError(PosOverflow)), Ok(18)];
    assert rs[4..][1..] == [];
    assert Oks(rs[4..]) == [18] && Errs(rs[4..]) == [];
    assert rs[3..][1..] == rs[4..];
    assert rs[2..][1..] == rs[3..];
    assert Oks(rs[2..]) == [93, 18] && Errs(rs[2..]) == [ParseIntError(PosOverflow)];
    assert rs[1..][1..] == rs[2..];
    assert Oks(rs[1..]) == [93, 18];
  }
}
