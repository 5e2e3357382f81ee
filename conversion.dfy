/** `examples/conversion.rs`: `From`/`Into` wrappers, a fallible
    `TryFrom` for even numbers, and `Circle`'s `Display` and `FromStr`. */
module Conversion {

  import opened Wrappers
  import opened Ints
  import Text

  // ----- From and Into -----

  datatype Number1 = Number1(value: I32)
  datatype Number2 = Number2(value: I32)

  /** `Number1::from`: wraps the value unchanged. */
  function Number1From(item: I32): (r: Number1)
    ensures r.value == item
  {
    Number1(item)
  }

  /** `impl Into<Number2> for i32`: wraps the value unchanged. */
  function IntoNumber2(item: I32): (r: Number2)
    ensures r.value == item
  {
    Number2(item)
  }

  /** Both conversions lose nothing: equal results come from equal values, and
      `from` and `into` store the same number. */
  lemma ConversionsInjective(a: I32, b: I32)
    ensures Number1From(a) == Number1From(b) <==> a == b
    ensures IntoNumber2(a) == IntoNumber2(b) <==> a == b
    ensures Number1From(a).value == IntoNumber2(a).value
  {
  }

  // ----- TryFrom and TryInto -----

  datatype EvenNumber = EvenNumber(value: I32)

  /** `EvenNumber::try_from` (and `try_into`, which calls it): accepts the
      values whose truncated remainder by 2 is 0, that is the even ones. */
  function TryFromEven(value: I32): (r: Result<EvenNumber, ()>)
    ensures r.Ok? <==> value % 2 == 0
    ensures r.Ok? ==> r.value == EvenNumber(value)
  {
    if TruncRem(value, 2) == 0 then Ok(EvenNumber(value)) else Err(())
  }

  /** `tryfrom_and_tryinto`'s assertions. */
  lemma TryFromExamples()
    ensures TryFromEven(8) == Ok(EvenNumber(8))
    ensures TryFromEven(5) == Err(())
  {
  }

  // ----- Circle -----

  datatype Circle = Circle(radius: I32)
  {
    /** `Display`: "Circle of radius {radius}"; the number read back from the
        text after the prefix is the radius. */
    function ToString(): (s: string)
      ensures |s| > |RadiusPrefix| && s[..|RadiusPrefix|] == RadiusPrefix
      ensures ParseI32(s[|RadiusPrefix|..]) == Ok(radius)
    {
      ParseIntToString(radius, I32_MIN, I32_MAX);
      var s := RadiusPrefix + IntToString(radius);
      assert s[..|RadiusPrefix|] == RadiusPrefix && s[|RadiusPrefix|..] == IntToString(radius);
      s
    }
  }

  const RadiusPrefix: string := "Circle of radius "

  datatype ParseCircleError = ParseCircleError

  const Parens: set<char> := {'(', ')'}

  /** `Circle::from_str`: trim every leading and trailing '(' and ')', then
      parse an `i32`; any parse error becomes `ParseCircleError`. */
  function CircleFromStr(s: string): (r: Result<Circle, ParseCircleError>)
    ensures r.Ok? <==> ParseI32(Text.TrimMatches(s, Parens)).Ok?
    ensures r.Ok? ==> r.value.radius == ParseI32(Text.TrimMatches(s, Parens)).value
  {
    var cleaned := Text.TrimMatches(s, Parens);
    ParsedI32InRange(cleaned);
    match MapErr(ParseI32(cleaned), (_: ParseIntError) => ParseCircleError)
    case Err(e) => Err(e)
    case Ok(radius) => Ok(Circle(radius))
  }

  lemma ParsedI32InRange(s: string)
    ensures ParseI32(s).Ok? ==> InI32(ParseI32(s).value)
  {
    ParseIntCharacterization(s, I32_MIN, I32_MAX);
  }

  /** The decimal form of an integer holds no parenthesis. */
  lemma {:induction false} NoParensInDecimal(x: int)
    ensures forall k :: 0 <= k < |IntToString(x)| ==> IntToString(x)[k] !in Parens
  {
    var n := if x < 0 then -x else x;
    assert AllDigits(NatToString(n));
  }

  /** Writing the radius between parentheses and parsing it back gives the
      same circle; so does the bare number. */
  lemma FromStrRoundTrip(radius: I32)
    ensures CircleFromStr("(" + IntToString(radius) + ")") == Ok(Circle(radius))
    ensures CircleFromStr(IntToString(radius)) == Ok(Circle(radius))
  {
    FromStrParenthesized(radius);
    FromStrBare(radius);
  }

  lemma FromStrParenthesized(radius: I32)
    ensures CircleFromStr("(" + IntToString(radius) + ")") == Ok(Circle(radius))
  {
    var d := IntToString(radius);
    NoParensInDecimal(radius);
    var s := "(" + d + ")";
    assert s[1..] == d + ")";
    assert Text.TrimStart(s, Parens) == d + ")";
    assert (d + ")")[..|d|] == d;
    assert Text.TrimEnd(d + ")", Parens) == d;
    ParseIntToString(radius, I32_MIN, I32_MAX);
  }

  lemma FromStrBare(radius: I32)
    ensures CircleFromStr(IntToString(radius)) == Ok(Circle(radius))
  {
    var d := IntToString(radius);
    NoParensInDecimal(radius);
    assert Text.TrimStart(d, Parens) == d;
    assert Text.TrimEnd(d, Parens) == d;
    ParseIntToString(radius, I32_MIN, I32_MAX);
  }

  /** `"<2>"` keeps its angle brackets and does not parse. */
  lemma AngleBracketsRejected()
    ensures CircleFromStr("<2>") == Err(ParseCircleError)
  {
    AngleBracketsKept();
    assert ParseI32("<2>") == Err(ParseIntError(InvalidDigit));
  }

  lemma AngleBracketsKept()
    ensures Text.TrimMatches("<2>", Parens) == "<2>"
  {
    assert "<2>"[0] !in Parens && "<2>"[2] !in Parens;
  }
}
