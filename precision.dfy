/**
 * The granularity a date is rendered at, from Day (finest) to Millennium
 * (coarsest), with its numeric code 6..11 and the partial inverse of that code.
 */
module Precisions {
  import opened Numerals

  datatype Precision = Day | Month | Year | Decade | Century | Millennium

  /** The one way a conversion from a code fails. The source's error is a fixed
      text that does not carry the rejected value. */
  datatype PrecisionError = UnsupportedPrecision

  datatype Result<T, E> = Ok(value: T) | Err(error: E)

  /** The explicit discriminants the enum declares, Day = 11 down to Millennium = 6. */
  const Discriminants: map<Precision, int> :=
    map[Day := 11, Month := 10, Year := 9, Decade := 8, Century := 7, Millennium := 6]

  /** `Precision::as_u8`: the numeric code, higher for finer granularity. */
  function AsU8(p: Precision): (code: u8)
    ensures 6 <= code <= 11
  {
    match p
    case Day => 11
    case Month => 10
    case Year => 9
    case Decade => 8
    case Century => 7
    case Millennium => 6
  }

  /** `TryFrom<u8> for Precision`: the variant whose code is `v`, or an error
      for every value outside 6..11. */
  function TryFromU8(v: u8): (r: Result<Precision, PrecisionError>)
    ensures r.Ok? <==> 6 <= v <= 11
    ensures r.Ok? ==> AsU8(r.value) == v
  {
    match v
    case 6 => Ok(Millennium)
    case 7 => Ok(Century)
    case 8 => Ok(Decade)
    case 9 => Ok(Year)
    case 10 => Ok(Month)
    case 11 => Ok(Day)
    case _ => Err(UnsupportedPrecision)
  }

  /** `Display for Precision`: the decimal text of the code. */
  function Display(p: Precision): (s: string)
    ensures 1 <= |s| <= 2 && AllDigits(s)
  {
    NatToString(AsU8(p) as nat)
  }

  /** The code agrees with the declared discriminant of every variant. */
  lemma AsU8IsDiscriminant(p: Precision)
    ensures p in Discriminants && AsU8(p) as int == Discriminants[p]
  {
  }

  /** Codes strictly decrease from Day to Millennium. */
  lemma AsU8StrictOrder()
    ensures AsU8(Day) > AsU8(Month) > AsU8(Year) > AsU8(Decade) > AsU8(Century) > AsU8(Millennium)
  {
  }

  /** Converting a variant to its code and back gives the variant. */
  lemma TryFromAsU8(p: Precision)
    ensures TryFromU8(AsU8(p)) == Ok(p)
  {
  }

  /** Distinct variants have distinct codes. */
  lemma AsU8Injective(p: Precision, q: Precision)
    ensures AsU8(p) == AsU8(q) <==> p == q
  {
    TryFromAsU8(p);
    TryFromAsU8(q);
  }

  /** Reading the displayed digits back and converting gives the variant. */
  lemma DisplayRoundTrip(p: Precision)
    ensures DigitsValue(Display(p)) == AsU8(p) as int
    ensures TryFromU8(DigitsValue(Display(p)) as u8) == Ok(p)
  {
    NatToStringValue(AsU8(p) as nat);
  }

  /** The codes in the tests: 6..11 convert, 5 and 12 are rejected. */
  lemma TryFromExamples()
    ensures TryFromU8(11) == Ok(Day) && TryFromU8(10) == Ok(Month) && TryFromU8(9) == Ok(Year)
    ensures TryFromU8(8) == Ok(Decade) && TryFromU8(7) == Ok(Century) && TryFromU8(6) == Ok(Millennium)
    ensures TryFromU8(5).Err? && TryFromU8(12).Err?
  {
  }

  lemma DisplayExamples()
    ensures Display(Day) == "11" && Display(Month) == "10" && Display(Year) == "9"
    ensures Display(Decade) == "8" && Display(Century) == "7" && Display(Millennium) == "6"
  {
  }
}
