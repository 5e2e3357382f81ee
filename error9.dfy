/** `examples/error9.rs`: four ways of doubling the first string of a
    vector parsed as an `i32` when both "empty vector" and "not a number"
    can go wrong. */
module Error9 {

  import opened Wrappers
  import opened Ints

  /** `vec.first()` */
  function First(vec: seq<string>): (r: Option<string>)
    ensures r.None? <==> vec == []
    ensures r.Some? ==> r.value == vec[0]
  {
    if vec == [] then None else Some(vec[0])
  }

  /** `2 * n` on `i32` panics on overflow; every version requires that the
      first element, when it parses, can be doubled. */
  predicate DoublingFits(vec: seq<string>)
  {
    vec != [] && ParseI32(vec[0]).Ok? ==> InI32(2 * ParseI32(vec[0]).value)
  }

  function Double(n: int): int { 2 * n }

  // ----- ex1: nesting -----

  /** ex1 `double_first`: `Option<Result<i32, ParseIntError>>`. */
  function DoubleFirstNested(vec: seq<string>): (r: Option<Result<int, ParseIntError>>)
    requires DoublingFits(vec)
    ensures r.None? <==> vec == []
    ensures vec != [] && ParseI32(vec[0]).Err? ==> r == Some(Err(ParseI32(vec[0]).error))
    ensures vec != [] && ParseI32(vec[0]).Ok? ==> r == Some(Ok(2 * ParseI32(vec[0]).value))
  {
    MapOption(First(vec), (first: string) => MapResult(ParseI32(first), Double))
  }

  /** `double_first_inv`: `map_or(Ok(None), |r| r.map(Some))` transposes the
      nesting into `Result<Option<i32>, ParseIntError>`. */
  function DoubleFirstInv(vec: seq<string>): (r: Result<Option<int>, ParseIntError>)
    requires DoublingFits(vec)
    ensures r == match DoubleFirstNested(vec)
                 case None => Ok(None)
                 case Some(Ok(v)) => Ok(Some(v))
                 case Some(Err(e)) => Err(e)
  {
    var opt := MapOption(First(vec), (first: string) => MapResult(ParseI32(first), Double));
    match opt
    case None => Ok(None)
    case Some(res) => MapResult(res, (v: int) => Some(v))
  }

  /** Only the first element is consulted. */
  lemma OnlyFirstConsulted(vec: seq<string>)
    requires vec != [] && DoublingFits(vec)
    ensures DoublingFits([vec[0]])
    ensures DoubleFirstNested(vec) == DoubleFirstNested([vec[0]])
  {
  }

  // ----- ex2: one error type -----

  /** ex2's `DoubleError`, a unit struct. */
  datatype DoubleError = DoubleError
  {
    /** Its `Display`. */
    function Message(): string { "invalid first item to double" }
  }

  /** ex2 `double_first`: both failures become `DoubleError`. */
  function DoubleFirstUnit(vec: seq<string>): (r: Result<int, DoubleError>)
    requires DoublingFits(vec)
    ensures r.Err? <==> vec == [] || ParseI32(vec[0]).Err?
    ensures r.Ok? ==> r.value == 2 * ParseI32(vec[0]).value
  {
    AndThenResult(OkOr(First(vec), DoubleError),
      (s: string) => MapResult(MapErr(ParseI32(s), (_: ParseIntError) => DoubleError), Double))
  }

  // ----- ex3: boxed errors -----

  /** What the `Box<dyn Error>` of ex3 can hold. */
  datatype BoxedError = EmptyVecBox | ParseIntBox(err: ParseIntError)

  /** ex3 `double_first`, with `ok_or_else`, `map_err` and `map`. */
  function DoubleFirstBoxed(vec: seq<string>): Result<int, BoxedError>
    requires DoublingFits(vec)
  {
    AndThenResult(OkOr(First(vec), EmptyVecBox),
      (s: string) => MapResult(MapErr(ParseI32(s), (e: ParseIntError) => ParseIntBox(e)), Double))
  }

  /** ex3 `double_first_v2`, with `?`: each failure returns early. */
  function DoubleFirstBoxedV2(vec: seq<string>): Result<int, BoxedError>
    requires DoublingFits(vec)
  {
    match OkOr(First(vec), EmptyVecBox)
    case Err(e) => Err(e)
    case Ok(first) =>
      match ParseI32(first)
      case Err(e) => Err(ParseIntBox(e))
      case Ok(parsed) => Ok(2 * parsed)
  }

  /** The combinator version and the `?` version agree on every input, and
      both keep the parse error itself. */
  lemma BoxedVersionsAgree(vec: seq<string>)
    requires DoublingFits(vec)
    ensures DoubleFirstBoxed(vec) == DoubleFirstBoxedV2(vec)
    ensures vec == [] ==> DoubleFirstBoxed(vec) == Err(EmptyVecBox)
    ensures vec != [] && ParseI32(vec[0]).Err? ==> DoubleFirstBoxed(vec) == Err(ParseIntBox(ParseI32(vec[0]).error))
    ensures vec != [] && ParseI32(vec[0]).Ok? ==> DoubleFirstBoxed(vec) == Ok(2 * ParseI32(vec[0]).value)
  {
  }

  // ----- ex4: wrapping errors -----

  /** ex4's `DoubleError`. */
  datatype WrappedError = EmptyVec | Parse(err: ParseIntError)
  {
    /** `Error::source`: the wrapped parse error, none for an empty vector. */
    function Source(): (r: Option<ParseIntError>)
      ensures r.None? <==> this == EmptyVec
      ensures Parse? ==> r == Some(err)
    {
      match this
      case EmptyVec => None
      case Parse(e) => Some(e)
    }

    /** Its `Display`: one message per cause, the parse error itself being
        left to `source`. */
    function Message(): (r: string)
      ensures Source().None? ==> r == EmptyVecMessage
      ensures Source().Some? ==> r == ParseMessage
    {
      match this
      case EmptyVec => EmptyVecMessage
      case Parse(_) => ParseMessage
    }
  }

  // Each message is written in two pieces so that the verifier can read its
  // first character.
  const EmptyVecMessage: string := "please use a vector" + " with at least one element"
  const ParseMessage: string := "the provided string" + " could not be parsed as int"

  /** Displayed, ex2's single error cannot tell an empty vector from a bad
      first element, while ex4's error names the cause. */
  lemma DisplayedCauses(bad: string, rest: seq<string>)
    requires ParseI32(bad).Err? && DoublingFits([bad] + rest)
    ensures DoubleFirstUnit([]).Err? && DoubleFirstUnit([bad] + rest).Err?
    ensures DoubleFirstUnit([]).error.Message() == DoubleFirstUnit([bad] + rest).error.Message()
    ensures DoubleFirstWrapped([]).Err? && DoubleFirstWrapped([bad] + rest).Err?
    ensures DoubleFirstWrapped([]).error.Message() != DoubleFirstWrapped([bad] + rest).error.Message()
  {
    assert ([bad] + rest)[0] == bad;
    assert EmptyVecMessage[0] == 'p' && ParseMessage[0] == 't';
  }

  /** `From<ParseIntError>`, which `?` applies. */
  function FromParseIntError(err: ParseIntError): WrappedError { Parse(err) }

  /** ex4 `double_first`. */
  function DoubleFirstWrapped(vec: seq<string>): (r: Result<int, WrappedError>)
    requires DoublingFits(vec)
    ensures vec == [] ==> r == Err(EmptyVec)
    ensures vec != [] && ParseI32(vec[0]).Err? ==> r == Err(Parse(ParseI32(vec[0]).error))
    ensures vec != [] && ParseI32(vec[0]).Ok? ==> r == Ok(2 * ParseI32(vec[0]).value)
  {
    match OkOr(First(vec), EmptyVec)
    case Err(e) => Err(e)
    case Ok(first) =>
      match ParseI32(first)
      case Err(e) => Err(FromParseIntError(e))
      case Ok(parsed) => Ok(2 * parsed)
  }

  /** All four versions succeed on the same inputs with the same value; ex2
      forgets which failure happened, the others keep it. */
  lemma VersionsAgree(vec: seq<string>)
    requires DoublingFits(vec)
    ensures DoubleFirstUnit(vec).Ok? <==> DoubleFirstWrapped(vec).Ok?
    ensures DoubleFirstUnit(vec).Ok? ==> DoubleFirstUnit(vec).value == DoubleFirstWrapped(vec).value
    ensures DoubleFirstBoxed(vec).Ok? <==> DoubleFirstWrapped(vec).Ok?
    ensures DoubleFirstBoxed(vec).Ok? ==> DoubleFirstBoxed(vec).value == DoubleFirstWrapped(vec).value
    ensures (DoubleFirstNested(vec).Some? && DoubleFirstNested(vec).value.Ok?) <==> DoubleFirstWrapped(vec).Ok?
    ensures DoubleFirstNested(vec).Some? && DoubleFirstNested(vec).value.Ok? ==>
      DoubleFirstNested(vec).value.value == DoubleFirstWrapped(vec).value
    ensures DoubleFirstWrapped(vec).Err? ==> (DoubleFirstWrapped(vec).error.Source().None? <==> vec == [])
  {
  }

  /** The three vectors of every example: 84, an empty vector, and "tofu". */
  lemma Examples()
    ensures ParseI32("42") == Ok(42) && DoubleFirstWrapped(["42", "93", "18"]) == Ok(84)
    ensures DoubleFirstWrapped([]) == Err(EmptyVec)
    ensures ParseI32("tofu").Err? &&
      DoubleFirstWrapped(["tofu", "93", "18"]) == Err(Parse(ParseIntError(InvalidDigit)))
  {
    ParseFortyTwo();
    assert ParseI32("tofu") == Err(ParseIntError(InvalidDigit));
  }

  lemma ParseFortyTwo()
    ensures ParseI32("42") == Ok(42)
  {
    assert IntToString(42) == "42";
    ParseIntToString(42, I32_MIN, I32_MAX);
  }
}
