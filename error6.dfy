/** `examples/error6.rs`: a `Guess` whose constructor panics on values
    outside 1..=100, so that every `Guess` in existence is in range. */
module Error6 {

  import opened Wrappers
  import opened Ints

  /** `Guess`; its field is private, so `New` is the only way to build one. */
  datatype Guess = Guess(value: I32)
  {
    /** The range every constructed guess lies in. */
    predicate Valid() { 1 <= value <= 100 }

    /** `Guess::value` */
    function Value(): (v: I32)
      ensures v == value
    {
      value
    }

    /** `impl Display for Guess`: the value in decimal, which reads back
        as the same `i32`. */
    function ToString(): (s: string)
      ensures ParseI32(s) == Ok(value)
      ensures Valid() ==> AllDigits(s)
    {
      ParseIntToString(value, I32_MIN, I32_MAX);
      IntToString(value)
    }
  }

  const Message: string := "Guess value must be between 1 and 100, got "

  /** `Guess::new`: a value below 1 or above 100 panics with a message
      naming it; any other value gives a guess that returns it. */
  function New(value: I32): (r: Result<Guess, string>)
    ensures r.Ok? <==> 1 <= value <= 100
    ensures r.Ok? ==> r.value.Valid() && r.value.Value() == value
    ensures r.Err? ==> r.error == Message + IntToString(value)
  {
    if value < 1 || value > 100 then Err(Message + IntToString(value))
    else Ok(Guess(value))
  }

  /** Every guess `New` returns prints as a number between 1 and 100. */
  lemma {:induction false} NewPrintsInRange(value: I32)
    requires New(value).Ok?
    ensures var s := New(value).value.ToString();
      AllDigits(s) && ParseI32(s).Ok? && 1 <= ParseI32(s).value <= 100
  {
    var g := New(value).value;
    assert g.Valid();
  }

  /** `main`: `Guess::new(1)` succeeds and prints "1"; `Guess::new(0)` aborts. */
  lemma MainExamples()
    ensures New(1).Ok? && New(1).value.ToString() == "1"
    ensures New(0) == Err(Message + "0")
  {
    assert IntToString(1) == "1";
    assert IntToString(0) == "0";
  }
}
