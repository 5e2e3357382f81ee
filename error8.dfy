/** `examples/error8.rs`: the `?` operator on `Option`, in `next_birthday`
    and in a chain of optional fields. */
module Error8 {

  import opened Wrappers
  import opened Ints

  const NextYear: string := "next year I will be "

  /** `next_birthday`: `None` stays `None`; otherwise the sentence ends in
      the next age, which reads back as a `u8`. `current_age? + 1` overflows
      a `u8` at 255, so callers must stay below it. */
  function NextBirthday(currentAge: Option<U8>): (r: Option<string>)
    requires currentAge.Some? ==> currentAge.value < U8_MAX
    ensures r.Some? <==> currentAge.Some?
    ensures r.Some? ==>
      (|r.value| > |NextYear| && r.value[..|NextYear|] == NextYear &&
       ParseU8(r.value[|NextYear|..]) == Ok(currentAge.value + 1))
  {
    match currentAge
    case None => None
    case Some(age) =>
      var nextAge: U8 := age + 1;
      ParseIntToString(nextAge, 0, U8_MAX);
      Some(NextYear + IntToString(nextAge))
  }

  datatype PhoneNumber = PhoneNumber(areaCode: Option<U8>, number: U32)

  datatype Job = Job(phoneNumber: Option<PhoneNumber>)

  datatype Person = Person(job: Option<Job>)
  {
    /** `work_phone_area_code`: the area code when the job, its phone number
        and the area code are all present, and `None` as soon as one is
        missing. */
    function WorkPhoneAreaCode(): (r: Option<U8>)
      ensures r.Some? <==>
        (job.Some? && job.value.phoneNumber.Some? &&
         job.value.phoneNumber.value.areaCode.Some?)
      ensures r.Some? ==> r.value == job.value.phoneNumber.value.areaCode.value
    {
      AndThenOption(
        AndThenOption(job, (j: Job) => j.phoneNumber),
        (p: PhoneNumber) => p.areaCode)
    }
  }

  /** `main`: 41 becomes "next year I will be 42", and the example person's
      work phone has area code 61. */
  lemma MainExamples()
    ensures NextBirthday(Some(41)) == Some("next year I will be 42")
    ensures Person(Some(Job(Some(PhoneNumber(Some(61), 439222222))))).WorkPhoneAreaCode() == Some(61)
  {
    assert NatToString(4) == "4";
    assert IntToString(42) == "42";
    assert NextYear + "42" == "next year I will be 42";
  }
}
