/**
 * `DateRenderer`: a (year, month, day, precision, language) value and the
 * one label it renders to. Day, Month and Year print the signed year (and the
 * zero-padded month and day); Decade, Century and Millennium bucket |year|
 * and mark negative years with the language's era suffix; year 0 renders as
 * "0" at those three precisions.
 */
module DateRenderers {
  import opened Numerals
  import P = Precisions
  import L = Languages

  datatype DateRenderer = DateRenderer(year: i32, month: u8, day: u8, precision: P.Precision, language: L.Language)

  /** What the calendar-date adapter reads off a date: its year, its month
      number and its day of the month, taken as they are. */
  datatype CalendarDate = CalendarDate(year: i32, month: u8, day: u8)

  // ---------------------------------------------------------------------------
  // Construction

  /** `DateRenderer::new`: the given fields, in English. */
  function New(year: i32, month: u8, day: u8, precision: P.Precision): (r: DateRenderer)
    ensures r.year == year && r.month == month && r.day == day
    ensures r.precision == precision && r.language == L.English
  {
    DateRenderer(year, month, day, precision, L.English)
  }

  /** `DateRenderer::day`: a full date at Day precision. */
  function Day(year: i32, month: u8, day: u8): (r: DateRenderer)
    ensures r.year == year && r.month == month && r.day == day
    ensures r.precision == P.Day && r.language == L.English
  {
    New(year, month, day, P.Day)
  }

  /** `DateRenderer::month`: Month precision, day zeroed. */
  function Month(year: i32, month: u8): (r: DateRenderer)
    ensures r.year == year && r.month == month && r.day == 0
    ensures r.precision == P.Month && r.language == L.English
  {
    New(year, month, 0, P.Month)
  }

  /** `DateRenderer::year`: Year precision, month and day zeroed. */
  function Year(year: i32): (r: DateRenderer)
    ensures r.year == year && r.month == 0 && r.day == 0
    ensures r.precision == P.Year && r.language == L.English
  {
    New(year, 0, 0, P.Year)
  }

  /** `DateRenderer::decade`: Decade precision, month and day zeroed. */
  function Decade(year: i32): (r: DateRenderer)
    ensures r.year == year && r.month == 0 && r.day == 0
    ensures r.precision == P.Decade && r.language == L.English
  {
    New(year, 0, 0, P.Decade)
  }

  /** `DateRenderer::century`: Century precision, month and day zeroed. */
  function Century(year: i32): (r: DateRenderer)
    ensures r.year == year && r.month == 0 && r.day == 0
    ensures r.precision == P.Century && r.language == L.English
  {
    New(year, 0, 0, P.Century)
  }

  /** `DateRenderer::millennium`: Millennium precision, month and day zeroed. */
  function Millennium(year: i32): (r: DateRenderer)
    ensures r.year == year && r.month == 0 && r.day == 0
    ensures r.precision == P.Millennium && r.language == L.English
  {
    New(year, 0, 0, P.Millennium)
  }

  /** `From<&Date> for DateRenderer`: the date's fields at Day precision. */
  function FromDate(date: CalendarDate): (r: DateRenderer)
    ensures r.year == date.year && r.month == date.month && r.day == date.day
    ensures r.precision == P.Day && r.language == L.English
  {
    New(date.year, date.month, date.day, P.Day)
  }

  /** `DateRenderer::date`: the date's year, month and day at the given
      precision; only the precision differs from `FromDate`. */
  function Date(date: CalendarDate, precision: P.Precision): (r: DateRenderer)
    ensures r.year == date.year && r.month == date.month && r.day == date.day
    ensures r.precision == precision && r.language == L.English
  {
    FromDate(date).(precision := precision)
  }

  /** `DateRenderer::language`: a copy in which only the language differs. */
  function WithLanguage(r: DateRenderer, language: L.Language): (r': DateRenderer)
    ensures r'.language == language
    ensures r'.year == r.year && r'.month == r.month && r'.day == r.day
    ensures r'.precision == r.precision
  {
    r.(language := language)
  }

  // ---------------------------------------------------------------------------
  // Buckets of the era-aware precisions

  /** Decade, Century and Millennium: the precisions that bucket the year
      and carry the era suffix. */
  predicate IsEraAware(p: P.Precision) {
    p == P.Decade || p == P.Century || p == P.Millennium
  }

  /** `|year| + 99` does not overflow `i32`. */
  predicate CenturyRepresentable(year: i32) {
    year as int != I32_MIN && Magnitude(year) + 99 <= I32_MAX
  }

  /** `|year| + 999` does not overflow `i32`. */
  predicate MillenniumRepresentable(year: i32) {
    year as int != I32_MIN && Magnitude(year) + 999 <= I32_MAX
  }

  /** The fields `as_string` reads can be computed without `i32` overflow. */
  predicate Renderable(r: DateRenderer) {
    match r.precision
    case Millennium => MillenniumRepresentable(r.year)
    case Century => CenturyRepresentable(r.year)
    case Decade => r.year as int != I32_MIN
    case _ => true
  }

  /** `(year.abs() / 10) * 10`: the first year of the decade holding |year|. */
  function DecadeStart(year: i32): (d: i32)
    requires year as int != I32_MIN
    ensures 0 <= d && d % 10 == 0
    ensures Magnitude(year) - 10 < d as int <= Magnitude(year)
  {
    (Abs(year) / 10) * 10
  }

  /** `(year.abs() + 99) / 100`: |year| divided by 100, rounded up. */
  function CenturyNumber(year: i32): (c: i32)
    requires CenturyRepresentable(year)
    ensures year == 0 ==> c == 0
    ensures year != 0 ==> 1 <= c && (c as int - 1) * 100 < Magnitude(year) <= c as int * 100
  {
    (Abs(year) + 99) / 100
  }

  /** `(year.abs() + 999) / 1000`: |year| divided by 1000, rounded up. */
  function MillenniumNumber(year: i32): (m: i32)
    requires MillenniumRepresentable(year)
    ensures year == 0 ==> m == 0
    ensures year != 0 ==> 1 <= m && (m as int - 1) * 1000 < Magnitude(year) <= m as int * 1000
  {
    (Abs(year) + 999) / 1000
  }

  /** The decade start is the only multiple of ten in (|year| - 10, |year|]. */
  lemma DecadeStartUnique(year: i32, d: int)
    requires year as int != I32_MIN
    requires d % 10 == 0 && Magnitude(year) - 10 < d <= Magnitude(year)
    ensures d == DecadeStart(year) as int
  {
    var e := DecadeStart(year) as int;
    assert (d - e) % 10 == 0 && -10 < d - e < 10;
  }

  /** The century number is the only c with (c - 1) * 100 < |year| <= c * 100. */
  lemma CenturyNumberUnique(year: i32, c: int)
    requires CenturyRepresentable(year) && year != 0
    requires (c - 1) * 100 < Magnitude(year) <= c * 100
    ensures c == CenturyNumber(year) as int
  {
    var k := CenturyNumber(year) as int;
    assert (c - 1) * 100 < k * 100 && (k - 1) * 100 < c * 100;
  }

  /** The millennium number is the only m with (m - 1) * 1000 < |year| <= m * 1000. */
  lemma MillenniumNumberUnique(year: i32, m: int)
    requires MillenniumRepresentable(year) && year != 0
    requires (m - 1) * 1000 < Magnitude(year) <= m * 1000
    ensures m == MillenniumNumber(year) as int
  {
    var k := MillenniumNumber(year) as int;
    assert (m - 1) * 1000 < k * 1000 && (k - 1) * 1000 < m * 1000;
  }

  // ---------------------------------------------------------------------------
  // Rendering

  /** `language.era(year)` of the renderer. */
  function EraOf(r: DateRenderer): (s: string)
    ensures s == [] <==> r.year >= 0
    ensures r.year < 0 ==> s == L.EraMarker(r.language)
  {
    L.Era(r.language, r.year)
  }

  /** `format!("{n}{ext} {noun}{era}")` with the ordinal extension of `n`. */
  function OrdinalLabel(n: i32, noun: string, r: DateRenderer): string
    requires n >= 0
  {
    NatToString(n as int) + L.Extension(r.language, n) + " " + noun + EraOf(r)
  }

  /** The digits of `n` are an ordinal label's whole leading digit run, and the
      label ends with the noun and then the era suffix. */
  lemma OrdinalLabelShape(n: i32, noun: string, r: DateRenderer)
    requires n >= 0
    ensures var s, digits := OrdinalLabel(n, noun, r), NatToString(n as int);
      |digits| < |s| && s[..|digits|] == digits && !IsDigit(s[|digits|]) && EndsWith(s, noun + EraOf(r))
  {
    var s, digits := OrdinalLabel(n, noun, r), NatToString(n as int);
    var tail := L.Extension(r.language, n) + " " + noun + EraOf(r);
    assert s == digits + tail;
    assert s[|s| - |noun + EraOf(r)|..] == noun + EraOf(r);
  }

  /** `DateRenderer::year_to_decade`. */
  function YearToDecade(r: DateRenderer): (s: string)
    requires r.year as int != I32_MIN
    ensures r.year == 0 ==> s == "0"
    ensures r.year != 0 ==> s == NatToString(DecadeStart(r.year) as int) + L.Decade(r.language) + EraOf(r)
  {
    if r.year == 0 then "0"
    else
      var year := DecadeStart(r.year);
      NatToString(year as int) + L.Decade(r.language) + EraOf(r)
  }

  /** `DateRenderer::year_to_century`. */
  function YearToCentury(r: DateRenderer): (s: string)
    requires CenturyRepresentable(r.year)
    ensures r.year == 0 ==> s == "0"
    ensures r.year != 0 ==> s == OrdinalLabel(CenturyNumber(r.year), L.Century(r.language), r)
  {
    if r.year == 0 then "0"
    else OrdinalLabel(CenturyNumber(r.year), L.Century(r.language), r)
  }

  /** `DateRenderer::year_to_millennium`. */
  function YearToMillennium(r: DateRenderer): (s: string)
    requires MillenniumRepresentable(r.year)
    ensures r.year == 0 ==> s == "0"
    ensures r.year != 0 ==> s == OrdinalLabel(MillenniumNumber(r.year), L.Millennium(r.language), r)
  {
    if r.year == 0 then "0"
    else OrdinalLabel(MillenniumNumber(r.year), L.Millennium(r.language), r)
  }

  /** `DateRenderer::as_string` (and so `Display`): the label of the value at
      its precision. */
  function AsString(r: DateRenderer): (s: string)
    requires Renderable(r)
    ensures r.precision == P.Day ==>
      s == IntToString(r.year as int) + "-" + Pad2(r.month as int) + "-" + Pad2(r.day as int)
    ensures r.precision == P.Month ==> s == IntToString(r.year as int) + "-" + Pad2(r.month as int)
    ensures r.precision == P.Year ==> s == IntToString(r.year as int)
    ensures IsEraAware(r.precision) && r.year == 0 ==> s == "0"
    ensures IsEraAware(r.precision) && r.year != 0 ==> 2 <= |s| && IsDigit(s[0])
    ensures r.precision == P.Decade ==> s == YearToDecade(r)
    ensures r.precision == P.Century ==> s == YearToCentury(r)
    ensures r.precision == P.Millennium ==> s == YearToMillennium(r)
  {
    match r.precision
    case Millennium => YearToMillennium(r)
    case Century => YearToCentury(r)
    case Decade => YearToDecade(r)
    case Year => IntToString(r.year as int)
    case Month => IntToString(r.year as int) + "-" + Pad2(r.month as int)
    case Day => IntToString(r.year as int) + "-" + Pad2(r.month as int) + "-" + Pad2(r.day as int)
  }

  // ---------------------------------------------------------------------------
  // What a label says about the value

  lemma DayLabelShape(y: i32, m: u8, d: u8)
    ensures AsString(Day(y, m, d)) == IntToString(y as int) + ("-" + (Pad2(m as int) + ("-" + Pad2(d as int))))
  {
  }

  lemma MonthLabelShape(y: i32, m: u8)
    ensures AsString(Month(y, m)) == IntToString(y as int) + ("-" + Pad2(m as int))
  {
  }

  /** A Day label determines the year, the month and the day. */
  lemma DayLabelDeterminesDate(y1: i32, m1: u8, d1: u8, y2: i32, m2: u8, d2: u8)
    ensures AsString(Day(y1, m1, d1)) == AsString(Day(y2, m2, d2)) <==> y1 == y2 && m1 == m2 && d1 == d2
  {
    DayLabelShape(y1, m1, d1);
    DayLabelShape(y2, m2, d2);
    if AsString(Day(y1, m1, d1)) == AsString(Day(y2, m2, d2)) {
      var pm1, pd1, pm2, pd2 := Pad2(m1 as int), Pad2(d1 as int), Pad2(m2 as int), Pad2(d2 as int);
      var t1, t2 := "-" + (pm1 + ("-" + pd1)), "-" + (pm2 + ("-" + pd2));
      SignedRunSplit(y1 as int, t1, y2 as int, t2);
      assert t1[1..] == pm1 + ("-" + pd1);
      assert t2[1..] == pm2 + ("-" + pd2);
      DigitRunSplit(pm1, "-" + pd1, pm2, "-" + pd2);
      assert pd1 == ("-" + pd1)[1..];
      assert pd2 == ("-" + pd2)[1..];
      Pad2Injective(m1 as int, m2 as int);
      Pad2Injective(d1 as int, d2 as int);
    }
  }

  /** A Month label determines the year and the month. */
  lemma MonthLabelDeterminesMonth(y1: i32, m1: u8, y2: i32, m2: u8)
    ensures AsString(Month(y1, m1)) == AsString(Month(y2, m2)) <==> y1 == y2 && m1 == m2
  {
    MonthLabelShape(y1, m1);
    MonthLabelShape(y2, m2);
    if AsString(Month(y1, m1)) == AsString(Month(y2, m2)) {
      var pm1, pm2 := Pad2(m1 as int), Pad2(m2 as int);
      SignedRunSplit(y1 as int, "-" + pm1, y2 as int, "-" + pm2);
      assert pm1 == ("-" + pm1)[1..];
      assert pm2 == ("-" + pm2)[1..];
      Pad2Injective(m1 as int, m2 as int);
    }
  }

  /** A Year label determines the year. */
  lemma YearLabelDeterminesYear(y1: i32, y2: i32)
    ensures AsString(Year(y1)) == AsString(Year(y2)) <==> y1 == y2
  {
    IntToStringInjective(y1 as int, y2 as int);
  }

  /** Two non-zero years of one language share a Decade label exactly when
      they lie in the same decade of magnitude and on the same side of year 0;
      year 0 shares its label "0" with no other year. */
  lemma DecadeLabelsEqualIff(y1: i32, y2: i32, language: L.Language)
    requires y1 as int != I32_MIN && y2 as int != I32_MIN
    ensures AsString(WithLanguage(Decade(y1), language)) == AsString(WithLanguage(Decade(y2), language))
      <==> ((y1 == 0 && y2 == 0)
            || (y1 != 0 && y2 != 0 && Magnitude(y1) / 10 == Magnitude(y2) / 10 && (y1 < 0 <==> y2 < 0)))
  {
    var r1, r2 := WithLanguage(Decade(y1), language), WithLanguage(Decade(y2), language);
    assert AsString(r1) == YearToDecade(r1) && AsString(r2) == YearToDecade(r2);
    if y1 != 0 && y2 != 0 {
      DecadeTextsEqualIff(r1, r2);
      assert DecadeStart(y1) as int == (Magnitude(y1) / 10) * 10;
      assert DecadeStart(y2) as int == (Magnitude(y2) / 10) * 10;
    }
  }

  /** The decade texts of two non-zero years agree exactly when their decade
      starts and their era suffixes do. */
  lemma DecadeTextsEqualIff(r1: DateRenderer, r2: DateRenderer)
    requires r1.year != 0 && r2.year != 0 && r1.year as int != I32_MIN && r2.year as int != I32_MIN
    requires r1.language == r2.language
    ensures YearToDecade(r1) == YearToDecade(r2)
      <==> DecadeStart(r1.year) == DecadeStart(r2.year) && (r1.year < 0 <==> r2.year < 0)
  {
    var n1, n2 := NatToString(DecadeStart(r1.year) as int), NatToString(DecadeStart(r2.year) as int);
    var f := L.Decade(r1.language);
    assert YearToDecade(r1) == n1 + (f + EraOf(r1));
    assert YearToDecade(r2) == n2 + (f + EraOf(r2));
    if YearToDecade(r1) == YearToDecade(r2) {
      DigitRunSplit(n1, f + EraOf(r1), n2, f + EraOf(r2));
      NatToStringInjective(DecadeStart(r1.year) as int, DecadeStart(r2.year) as int);
      assert EraOf(r1) == (f + EraOf(r1))[|f|..];
      assert EraOf(r2) == (f + EraOf(r2))[|f|..];
    }
  }

  /** The ordinal labels of two renderers agree exactly when their numbers and
      their era suffixes do. */
  lemma OrdinalLabelsEqualIff(n1: i32, n2: i32, noun: string, r1: DateRenderer, r2: DateRenderer)
    requires n1 >= 0 && n2 >= 0 && r1.language == r2.language
    ensures OrdinalLabel(n1, noun, r1) == OrdinalLabel(n2, noun, r2)
      <==> n1 == n2 && (r1.year < 0 <==> r2.year < 0)
  {
    var lang := r1.language;
    var s1, s2 := NatToString(n1 as int), NatToString(n2 as int);
    var x1, x2 := L.Extension(lang, n1) + " " + noun, L.Extension(lang, n2) + " " + noun;
    assert OrdinalLabel(n1, noun, r1) == s1 + (x1 + EraOf(r1));
    assert OrdinalLabel(n2, noun, r2) == s2 + (x2 + EraOf(r2));
    if OrdinalLabel(n1, noun, r1) == OrdinalLabel(n2, noun, r2) {
      DigitRunSplit(s1, x1 + EraOf(r1), s2, x2 + EraOf(r2));
      NatToStringInjective(n1 as int, n2 as int);
      assert EraOf(r1) == (x1 + EraOf(r1))[|x1|..];
      assert EraOf(r2) == (x2 + EraOf(r2))[|x2|..];
    }
  }

  /** Two years of one language share a Century label exactly when both are 0,
      or both are non-zero with the same century number and era. */
  lemma CenturyLabelsEqualIff(y1: i32, y2: i32, language: L.Language)
    requires CenturyRepresentable(y1) && CenturyRepresentable(y2)
    ensures AsString(WithLanguage(Century(y1), language)) == AsString(WithLanguage(Century(y2), language))
      <==> ((y1 == 0 && y2 == 0)
            || (y1 != 0 && y2 != 0 && CenturyNumber(y1) == CenturyNumber(y2) && (y1 < 0 <==> y2 < 0)))
  {
    var r1, r2 := WithLanguage(Century(y1), language), WithLanguage(Century(y2), language);
    if y1 != 0 && y2 != 0 {
      OrdinalLabelsEqualIff(CenturyNumber(y1), CenturyNumber(y2), L.Century(language), r1, r2);
    }
  }

  /** Two years of one language share a Millennium label exactly when both are
      0, or both are non-zero with the same millennium number and era. */
  lemma MillenniumLabelsEqualIff(y1: i32, y2: i32, language: L.Language)
    requires MillenniumRepresentable(y1) && MillenniumRepresentable(y2)
    ensures AsString(WithLanguage(Millennium(y1), language)) == AsString(WithLanguage(Millennium(y2), language))
      <==> ((y1 == 0 && y2 == 0)
            || (y1 != 0 && y2 != 0 && MillenniumNumber(y1) == MillenniumNumber(y2) && (y1 < 0 <==> y2 < 0)))
  {
    var r1, r2 := WithLanguage(Millennium(y1), language), WithLanguage(Millennium(y2), language);
    if y1 != 0 && y2 != 0 {
      OrdinalLabelsEqualIff(MillenniumNumber(y1), MillenniumNumber(y2), L.Millennium(language), r1, r2);
    }
  }

  /** At an era-aware precision a label ends in the language's era marker
      exactly when the year is negative. */
  lemma EraMarkedIffNegative(r: DateRenderer)
    requires Renderable(r) && IsEraAware(r.precision) && r.year != 0
    ensures EndsWith(AsString(r), L.EraMarker(r.language)) <==> r.year < 0
  {
    var s, m := AsString(r), L.EraMarker(r.language);
    if r.year >= 0 {
      var noun :=
        match r.precision
        case Decade => L.Decade(r.language)
        case Century => L.Century(r.language)
        case _ => L.Millennium(r.language);
      assert s[|s| - 1] == noun[|noun| - 1];
      assert m[|m| - 1] != noun[|noun| - 1];
    }
  }

  predicate EndsWith(s: string, suffix: string) {
    |suffix| <= |s| && s[|s| - |suffix|..] == suffix
  }

  /** The language matters only to the era-aware precisions. */
  lemma LanguageIgnoredByNumericLabels(r: DateRenderer, language: L.Language)
    requires !IsEraAware(r.precision)
    ensures AsString(WithLanguage(r, language)) == AsString(r)
  {
  }

  // ---------------------------------------------------------------------------
  // The labels the tests pin down, one per lemma

  lemma LabelDay2024()
    ensures AsString(Day(2024, 10, 2)) == "2024-10-02"
  {
  }

  lemma LabelDayMinus2024()
    ensures AsString(Day(-2024, 10, 2)) == "-2024-10-02"
  {
  }

  lemma LabelMonth2024()
    ensures AsString(Month(2024, 10)) == "2024-10"
  {
  }

  lemma LabelMonthMinus2024()
    ensures AsString(Month(-2024, 10)) == "-2024-10"
  {
  }

  lemma LabelYear2024()
    ensures AsString(Year(2024)) == "2024"
  {
  }

  lemma LabelYearMinus2024()
    ensures AsString(Year(-2024)) == "-2024"
  {
  }

  lemma LabelYear0()
    ensures AsString(Year(0)) == "0"
  {
  }

  lemma LabelDecade910()
    ensures AsString(Decade(910)) == "910s"
  {
    assert DecadeStart(910) == 910;
    assert AsString(Decade(910)) == "910" + "s";
  }

  lemma LabelDecadeMinus910()
    ensures AsString(Decade(-910)) == "910s BCE"
  {
    assert DecadeStart(-910) == 910;
    assert AsString(Decade(-910)) == "910" + "s" + " BCE";
  }

  lemma LabelDecadeMinus909()
    ensures AsString(Decade(-909)) == "900s BCE"
  {
    assert DecadeStart(-909) == 900;
    assert AsString(Decade(-909)) == "900" + "s" + " BCE";
  }

  lemma LabelDecadeMinus900()
    ensures AsString(Decade(-900)) == "900s BCE"
  {
    assert DecadeStart(-900) == 900;
    assert AsString(Decade(-900)) == "900" + "s" + " BCE";
  }

  lemma LabelDecade0()
    ensures AsString(Decade(0)) == "0"
  {
  }

  lemma LabelCentury10()
    ensures AsString(New(10, 1, 1, P.Century)) == "1st century"
  {
    assert CenturyNumber(10) == 1;
    assert AsString(New(10, 1, 1, P.Century)) == "1" + "st" + " " + "century";
  }

  lemma LabelCentury110()
    ensures AsString(New(110, 1, 1, P.Century)) == "2nd century"
  {
    assert CenturyNumber(110) == 2;
    assert AsString(New(110, 1, 1, P.Century)) == "2" + "nd" + " " + "century";
  }

  lemma LabelCentury210()
    ensures AsString(New(210, 1, 1, P.Century)) == "3rd century"
  {
    assert CenturyNumber(210) == 3;
    assert AsString(New(210, 1, 1, P.Century)) == "3" + "rd" + " " + "century";
  }

  lemma LabelCentury310()
    ensures AsString(New(310, 1, 1, P.Century)) == "4th century"
  {
    assert CenturyNumber(310) == 4;
    assert AsString(New(310, 1, 1, P.Century)) == "4" + "th" + " " + "century";
  }

  lemma LabelCenturyMinus10()
    ensures AsString(New(-10, 1, 1, P.Century)) == "1st century BCE"
  {
    assert CenturyNumber(-10) == 1;
    assert AsString(New(-10, 1, 1, P.Century)) == "1" + "st" + " " + "century" + " BCE";
  }

  lemma LabelCenturyMinus110()
    ensures AsString(New(-110, 1, 1, P.Century)) == "2nd century BCE"
  {
    assert CenturyNumber(-110) == 2;
    assert AsString(New(-110, 1, 1, P.Century)) == "2" + "nd" + " " + "century" + " BCE";
  }

  lemma LabelCenturyMinus210()
    ensures AsString(New(-210, 1, 1, P.Century)) == "3rd century BCE"
  {
    assert CenturyNumber(-210) == 3;
    assert AsString(New(-210, 1, 1, P.Century)) == "3" + "rd" + " " + "century" + " BCE";
  }

  lemma LabelCenturyMinus310()
    ensures AsString(New(-310, 1, 1, P.Century)) == "4th century BCE"
  {
    assert CenturyNumber(-310) == 4;
    assert AsString(New(-310, 1, 1, P.Century)) == "4" + "th" + " " + "century" + " BCE";
  }

  lemma LabelCenturyMinus1000()
    ensures AsString(New(-1000, 1, 1, P.Century)) == "10th century BCE"
  {
    assert CenturyNumber(-1000) == 10;
    assert AsString(New(-1000, 1, 1, P.Century)) == "10" + "th" + " " + "century" + " BCE";
  }

  lemma LabelCenturyMinus901()
    ensures AsString(New(-901, 1, 1, P.Century)) == "10th century BCE"
  {
    assert CenturyNumber(-901) == 10;
    assert AsString(New(-901, 1, 1, P.Century)) == "10" + "th" + " " + "century" + " BCE";
  }

  lemma LabelCenturyMinus900()
    ensures AsString(New(-900, 1, 1, P.Century)) == "9th century BCE"
  {
    assert CenturyNumber(-900) == 9;
    assert AsString(New(-900, 1, 1, P.Century)) == "9" + "th" + " " + "century" + " BCE";
  }

  lemma LabelCentury0()
    ensures AsString(New(0, 1, 1, P.Century)) == "0"
  {
  }

  lemma LabelMillennium1()
    ensures AsString(New(1, 1, 1, P.Millennium)) == "1st millennium"
  {
    assert MillenniumNumber(1) == 1;
    assert AsString(New(1, 1, 1, P.Millennium)) == "1" + "st" + " " + "millennium";
  }

  lemma LabelMillennium1000()
    ensures AsString(New(1000, 1, 1, P.Millennium)) == "1st millennium"
  {
    assert MillenniumNumber(1000) == 1;
    assert AsString(New(1000, 1, 1, P.Millennium)) == "1" + "st" + " " + "millennium";
  }

  lemma LabelMillennium1001()
    ensures AsString(New(1001, 1, 1, P.Millennium)) == "2nd millennium"
  {
    assert MillenniumNumber(1001) == 2;
    assert AsString(New(1001, 1, 1, P.Millennium)) == "2" + "nd" + " " + "millennium";
  }

  lemma LabelMillennium2001()
    ensures AsString(New(2001, 1, 1, P.Millennium)) == "3rd millennium"
  {
    assert MillenniumNumber(2001) == 3;
    assert AsString(New(2001, 1, 1, P.Millennium)) == "3" + "rd" + " " + "millennium";
  }

  lemma LabelMillennium3001()
    ensures AsString(New(3001, 1, 1, P.Millennium)) == "4th millennium"
  {
    assert MillenniumNumber(3001) == 4;
    assert AsString(New(3001, 1, 1, P.Millennium)) == "4" + "th" + " " + "millennium";
  }

  lemma LabelMillenniumMinus1000()
    ensures AsString(New(-1000, 1, 1, P.Millennium)) == "1st millennium BCE"
  {
    assert MillenniumNumber(-1000) == 1;
    assert AsString(New(-1000, 1, 1, P.Millennium)) == "1" + "st" + " " + "millennium" + " BCE";
  }

  lemma LabelMillenniumMinus1001()
    ensures AsString(New(-1001, 1, 1, P.Millennium)) == "2nd millennium BCE"
  {
    assert MillenniumNumber(-1001) == 2;
    assert AsString(New(-1001, 1, 1, P.Millennium)) == "2" + "nd" + " " + "millennium" + " BCE";
  }

  lemma LabelMillenniumMinus2001()
    ensures AsString(New(-2001, 1, 1, P.Millennium)) == "3rd millennium BCE"
  {
    assert MillenniumNumber(-2001) == 3;
    assert AsString(New(-2001, 1, 1, P.Millennium)) == "3" + "rd" + " " + "millennium" + " BCE";
  }

  lemma LabelMillenniumMinus3001()
    ensures AsString(New(-3001, 1, 1, P.Millennium)) == "4th millennium BCE"
  {
    assert MillenniumNumber(-3001) == 4;
    assert AsString(New(-3001, 1, 1, P.Millennium)) == "4" + "th" + " " + "millennium" + " BCE";
  }

  lemma LabelMillennium0()
    ensures AsString(New(0, 1, 1, P.Millennium)) == "0"
  {
  }

  lemma LabelGermanDecade910()
    ensures AsString(WithLanguage(New(910, 1, 1, P.Decade), L.German)) == "910er"
  {
    assert DecadeStart(910) == 910;
    assert AsString(WithLanguage(New(910, 1, 1, P.Decade), L.German)) == "910" + "er";
  }

  lemma LabelGermanDecadeMinus910()
    ensures AsString(WithLanguage(New(-910, 1, 1, P.Decade), L.German)) == "910er v.Chr."
  {
    assert DecadeStart(-910) == 910;
    assert AsString(WithLanguage(New(-910, 1, 1, P.Decade), L.German)) == "910" + "er" + " v.Chr.";
  }

  lemma LabelGermanCentury910()
    ensures AsString(WithLanguage(New(910, 1, 1, P.Century), L.German)) == "10. Jahrhundert"
  {
    assert CenturyNumber(910) == 10;
    assert AsString(WithLanguage(New(910, 1, 1, P.Century), L.German)) == "10" + "." + " " + "Jahrhundert";
  }

  lemma LabelGermanCenturyMinus910()
    ensures AsString(WithLanguage(New(-910, 1, 1, P.Century), L.German)) == "10. Jahrhundert v.Chr."
  {
    assert CenturyNumber(-910) == 10;
    assert AsString(WithLanguage(New(-910, 1, 1, P.Century), L.German)) == "10" + "." + " " + "Jahrhundert" + " v.Chr.";
  }

  lemma LabelGermanMillennium910()
    ensures AsString(WithLanguage(New(910, 1, 1, P.Millennium), L.German)) == "1. Jahrtausend"
  {
    var r := WithLanguage(New(910, 1, 1, P.Millennium), L.German);
    assert MillenniumNumber(910) == 1 && NatToString(1) == "1" && EraOf(r) == "";
    assert AsString(r) == OrdinalLabel(1, "Jahrtausend", r);
  }

  lemma LabelGermanMillenniumMinus910()
    ensures AsString(WithLanguage(New(-910, 1, 1, P.Millennium), L.German)) == "1. Jahrtausend v.Chr."
  {
    var r := WithLanguage(New(-910, 1, 1, P.Millennium), L.German);
    assert MillenniumNumber(-910) == 1 && NatToString(1) == "1" && EraOf(r) == " v.Chr.";
    assert AsString(r) == OrdinalLabel(1, "Jahrtausend", r);
  }

  lemma LabelFromDate2024()
    ensures AsString(FromDate(CalendarDate(2024, 9, 1))) == "2024-09-01"
  {
  }

  lemma LabelDateMinus910AsMillennium()
    ensures AsString(Date(CalendarDate(-910, 9, 17), P.Millennium)) == "1st millennium BCE"
  {
    var r := Date(CalendarDate(-910, 9, 17), P.Millennium);
    assert MillenniumNumber(-910) == 1 && NatToString(1) == "1" && EraOf(r) == " BCE";
    assert AsString(r) == OrdinalLabel(1, "millennium", r);
  }

  lemma LabelDateMinus910AsDay()
    ensures AsString(Date(CalendarDate(-910, 9, 17), P.Day)) == "-910-09-17"
  {
  }
}
