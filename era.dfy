/**
 * `Era`: a second copy of the renderer under another name, with the same
 * fields, constructors and rendering code. Its year_to_* functions keep the
 * source's inline arithmetic; `AsString` is proved to agree with
 * `DateRenderers.AsString` on every value.
 */
module Eras {
  import opened Numerals
  import P = Precisions
  import L = Languages
  import D = DateRenderers

  datatype Era = Era(year: i32, month: u8, day: u8, precision: P.Precision, language: L.Language)

  /** The renderer holding the same five fields. */
  function AsDateRenderer(e: Era): D.DateRenderer {
    D.DateRenderer(e.year, e.month, e.day, e.precision, e.language)
  }

  /** `Era::new`: the given fields, in English. */
  function New(year: i32, month: u8, day: u8, precision: P.Precision): (e: Era)
    ensures e.year == year && e.month == month && e.day == day
    ensures e.precision == precision && e.language == L.English
  {
    Era(year, month, day, precision, L.English)
  }

  /** `Era::day`: a full date at Day precision. */
  function Day(year: i32, month: u8, day: u8): (e: Era)
    ensures e.year == year && e.month == month && e.day == day
    ensures e.precision == P.Day && e.language == L.English
  {
    New(year, month, day, P.Day)
  }

  /** `Era::month`: Month precision, day zeroed. */
  function Month(year: i32, month: u8): (e: Era)
    ensures e.year == year && e.month == month && e.day == 0
    ensures e.precision == P.Month && e.language == L.English
  {
    New(year, month, 0, P.Month)
  }

  /** `Era::year`: Year precision, month and day zeroed. */
  function Year(year: i32): (e: Era)
    ensures e.year == year && e.month == 0 && e.day == 0
    ensures e.precision == P.Year && e.language == L.English
  {
    New(year, 0, 0, P.Year)
  }

  /** `Era::decade`: Decade precision, month and day zeroed. */
  function Decade(year: i32): (e: Era)
    ensures e.year == year && e.month == 0 && e.day == 0
    ensures e.precision == P.Decade && e.language == L.English
  {
    New(year, 0, 0, P.Decade)
  }

  /** `Era::century`: Century precision, month and day zeroed. */
  function Century(year: i32): (e: Era)
    ensures e.year == year && e.month == 0 && e.day == 0
    ensures e.precision == P.Century && e.language == L.English
  {
    New(year, 0, 0, P.Century)
  }

  /** `Era::millennium`: Millennium precision, month and day zeroed. */
  function Millennium(year: i32): (e: Era)
    ensures e.year == year && e.month == 0 && e.day == 0
    ensures e.precision == P.Millennium && e.language == L.English
  {
    New(year, 0, 0, P.Millennium)
  }

  /** `From<&Date> for Era`: the date's fields at Day precision. */
  function FromDate(date: D.CalendarDate): (e: Era)
    ensures e.year == date.year && e.month == date.month && e.day == date.day
    ensures e.precision == P.Day && e.language == L.English
  {
    New(date.year, date.month, date.day, P.Day)
  }

  /** `Era::date`: the date's year, month and day at the given precision. */
  function Date(date: D.CalendarDate, precision: P.Precision): (e: Era)
    ensures e.year == date.year && e.month == date.month && e.day == date.day
    ensures e.precision == precision && e.language == L.English
  {
    FromDate(date).(precision := precision)
  }

  /** `Era::language`: a copy in which only the language differs. */
  function WithLanguage(e: Era, language: L.Language): (e': Era)
    ensures e'.language == language
    ensures e'.year == e.year && e'.month == e.month && e'.day == e.day
    ensures e'.precision == e.precision
  {
    e.(language := language)
  }

  /** `Era::year_to_decade`, agreeing with the renderer's. */
  function YearToDecade(e: Era): (s: string)
    requires e.year as int != I32_MIN
    ensures s == D.YearToDecade(AsDateRenderer(e))
  {
    if e.year == 0 then "0"
    else
      var year := (Abs(e.year) / 10) * 10;
      NatToString(year as int) + L.Decade(e.language) + L.Era(e.language, e.year)
  }

  /** `Era::year_to_century`, agreeing with the renderer's. */
  function YearToCentury(e: Era): (s: string)
    requires D.CenturyRepresentable(e.year)
    ensures s == D.YearToCentury(AsDateRenderer(e))
  {
    if e.year == 0 then "0"
    else
      var year := (Abs(e.year) + 99) / 100;
      NatToString(year as int) + L.Extension(e.language, year) + " " + L.Century(e.language) + L.Era(e.language, e.year)
  }

  /** `Era::year_to_millennium`, agreeing with the renderer's. */
  function YearToMillennium(e: Era): (s: string)
    requires D.MillenniumRepresentable(e.year)
    ensures s == D.YearToMillennium(AsDateRenderer(e))
  {
    if e.year == 0 then "0"
    else
      var year := (Abs(e.year) + 999) / 1000;
      NatToString(year as int) + L.Extension(e.language, year) + " " + L.Millennium(e.language) + L.Era(e.language, e.year)
  }

  /** `Era::as_string`: on equal fields, the same label `DateRenderer` renders. */
  function AsString(e: Era): (s: string)
    requires D.Renderable(AsDateRenderer(e))
    ensures s == D.AsString(AsDateRenderer(e))
  {
    match e.precision
    case Millennium => YearToMillennium(e)
    case Century => YearToCentury(e)
    case Decade => YearToDecade(e)
    case Year => IntToString(e.year as int)
    case Month => IntToString(e.year as int) + "-" + Pad2(e.month as int)
    case Day => IntToString(e.year as int) + "-" + Pad2(e.month as int) + "-" + Pad2(e.day as int)
  }

  /** Every constructor of `Era` builds the renderer its namesake builds. */
  lemma ConstructorsAgree(year: i32, month: u8, day: u8, precision: P.Precision, date: D.CalendarDate)
    ensures AsDateRenderer(New(year, month, day, precision)) == D.New(year, month, day, precision)
    ensures AsDateRenderer(Day(year, month, day)) == D.Day(year, month, day)
    ensures AsDateRenderer(Month(year, month)) == D.Month(year, month)
    ensures AsDateRenderer(Year(year)) == D.Year(year)
    ensures AsDateRenderer(Decade(year)) == D.Decade(year)
    ensures AsDateRenderer(Century(year)) == D.Century(year)
    ensures AsDateRenderer(Millennium(year)) == D.Millennium(year)
    ensures AsDateRenderer(Date(date, precision)) == D.Date(date, precision)
  {
  }

  /** Year 0 renders as "0" at the three era-aware precisions. */
  lemma ZeroYearLabels(language: L.Language)
    ensures AsString(WithLanguage(Decade(0), language)) == "0"
    ensures AsString(WithLanguage(Century(0), language)) == "0"
    ensures AsString(WithLanguage(Millennium(0), language)) == "0"
  {
  }

  /** Two years of one language share an `Era` Century label exactly when both
      are 0, or both are non-zero with the same century number and era. */
  lemma CenturyLabelsEqualIff(y1: i32, y2: i32, language: L.Language)
    requires D.CenturyRepresentable(y1) && D.CenturyRepresentable(y2)
    ensures AsString(WithLanguage(Century(y1), language)) == AsString(WithLanguage(Century(y2), language))
      <==> ((y1 == 0 && y2 == 0)
            || (y1 != 0 && y2 != 0 && D.CenturyNumber(y1) == D.CenturyNumber(y2) && (y1 < 0 <==> y2 < 0)))
  {
    D.CenturyLabelsEqualIff(y1, y2, language);
  }

  // ---------------------------------------------------------------------------
  // The labels the tests of `Era` pin down, one per lemma

  lemma LabelDay2024()
    ensures AsString(Day(2024, 10, 2)) == "2024-10-02"
  {
    D.LabelDay2024();
  }

  lemma LabelMonth2024()
    ensures AsString(Month(2024, 10)) == "2024-10"
  {
    D.LabelMonth2024();
  }

  lemma LabelYear2024()
    ensures AsString(Year(2024)) == "2024"
  {
    D.LabelYear2024();
  }

  lemma LabelYearMinus2024()
    ensures AsString(Year(-2024)) == "-2024"
  {
    D.LabelYearMinus2024();
  }

  lemma LabelYear0()
    ensures AsString(Year(0)) == "0"
  {
    D.LabelYear0();
  }

  lemma LabelDecade910()
    ensures AsString(Decade(910)) == "910s"
  {
    D.LabelDecade910();
  }

  lemma LabelDecadeMinus910()
    ensures AsString(Decade(-910)) == "910s BCE"
  {
    D.LabelDecadeMinus910();
  }

  lemma LabelDecadeMinus909()
    ensures AsString(Decade(-909)) == "900s BCE"
  {
    D.LabelDecadeMinus909();
  }

  lemma LabelDecadeMinus900()
    ensures AsString(Decade(-900)) == "900s BCE"
  {
    D.LabelDecadeMinus900();
  }

  lemma LabelCentury10()
    ensures AsString(Century(10)) == "1st century"
  {
    D.LabelCentury10();
  }

  lemma LabelCentury110()
    ensures AsString(Century(110)) == "2nd century"
  {
    D.LabelCentury110();
  }

  lemma LabelCentury210()
    ensures AsString(Century(210)) == "3rd century"
  {
    D.LabelCentury210();
  }

  lemma LabelCentury310()
    ensures AsString(Century(310)) == "4th century"
  {
    D.LabelCentury310();
  }

  lemma LabelCenturyMinus10()
    ensures AsString(Century(-10)) == "1st century BCE"
  {
    D.LabelCenturyMinus10();
  }

  lemma LabelCenturyMinus110()
    ensures AsString(Century(-110)) == "2nd century BCE"
  {
    D.LabelCenturyMinus110();
  }

  lemma LabelCenturyMinus210()
    ensures AsString(Century(-210)) == "3rd century BCE"
  {
    D.LabelCenturyMinus210();
  }

  lemma LabelCenturyMinus310()
    ensures AsString(Century(-310)) == "4th century BCE"
  {
    D.LabelCenturyMinus310();
  }

  lemma LabelCenturyMinus900()
    ensures AsString(Century(-900)) == "9th century BCE"
  {
    D.LabelCenturyMinus900();
  }

  lemma LabelMillennium1()
    ensures AsString(Millennium(1)) == "1st millennium"
  {
    D.LabelMillennium1();
  }

  lemma LabelMillennium1000()
    ensures AsString(Millennium(1000)) == "1st millennium"
  {
    D.LabelMillennium1000();
  }

  lemma LabelMillennium1001()
    ensures AsString(Millennium(1001)) == "2nd millennium"
  {
    D.LabelMillennium1001();
  }

  lemma LabelMillennium2001()
    ensures AsString(Millennium(2001)) == "3rd millennium"
  {
    D.LabelMillennium2001();
  }

  lemma LabelMillennium3001()
    ensures AsString(Millennium(3001)) == "4th millennium"
  {
    D.LabelMillennium3001();
  }

  lemma LabelMillenniumMinus1000()
    ensures AsString(Millennium(-1000)) == "1st millennium BCE"
  {
    D.LabelMillenniumMinus1000();
  }

  lemma LabelMillenniumMinus1001()
    ensures AsString(Millennium(-1001)) == "2nd millennium BCE"
  {
    D.LabelMillenniumMinus1001();
  }

  lemma LabelMillenniumMinus2001()
    ensures AsString(Millennium(-2001)) == "3rd millennium BCE"
  {
    D.LabelMillenniumMinus2001();
  }

  lemma LabelMillenniumMinus3001()
    ensures AsString(Millennium(-3001)) == "4th millennium BCE"
  {
    D.LabelMillenniumMinus3001();
  }

  lemma LabelDayMinus2024()
    ensures AsString(Day(-2024, 10, 2)) == "-2024-10-02"
  {
  }

  lemma LabelMonthMinus2024()
    ensures AsString(Month(-2024, 10)) == "-2024-10"
  {
  }

  lemma LabelCenturyMinus1000()
    ensures AsString(Century(-1000)) == "10th century BCE"
  {
    assert D.CenturyNumber(-1000) == 10;
    assert AsString(Century(-1000)) == "10" + "th" + " " + "century" + " BCE";
  }

  lemma LabelCenturyMinus901()
    ensures AsString(Century(-901)) == "10th century BCE"
  {
    assert D.CenturyNumber(-901) == 10;
    assert AsString(Century(-901)) == "10" + "th" + " " + "century" + " BCE";
  }

  lemma LabelGermanDecade910()
    ensures AsString(WithLanguage(Decade(910), L.German)) == "910er"
  {
    assert D.DecadeStart(910) == 910;
    assert AsString(WithLanguage(Decade(910), L.German)) == "910" + "er";
  }

  lemma LabelGermanDecadeMinus910()
    ensures AsString(WithLanguage(Decade(-910), L.German)) == "910er v.Chr."
  {
    assert D.DecadeStart(-910) == 910;
    assert AsString(WithLanguage(Decade(-910), L.German)) == "910" + "er" + " v.Chr.";
  }

  lemma LabelGermanCentury910()
    ensures AsString(WithLanguage(Century(910), L.German)) == "10. Jahrhundert"
  {
    assert D.CenturyNumber(910) == 10;
    assert AsString(WithLanguage(Century(910), L.German)) == "10" + "." + " " + "Jahrhundert";
  }

  lemma LabelGermanCenturyMinus910()
    ensures AsString(WithLanguage(Century(-910), L.German)) == "10. Jahrhundert v.Chr."
  {
    assert D.CenturyNumber(-910) == 10;
    assert AsString(WithLanguage(Century(-910), L.German)) == "10" + "." + " " + "Jahrhundert" + " v.Chr.";
  }

  lemma LabelGermanMillennium910()
    ensures AsString(WithLanguage(Millennium(910), L.German)) == "1. Jahrtausend"
  {
    assert D.MillenniumNumber(910) == 1;
    assert AsString(WithLanguage(Millennium(910), L.German)) == "1" + "." + " " + "Jahrtausend";
  }

  lemma LabelGermanMillenniumMinus910()
    ensures AsString(WithLanguage(Millennium(-910), L.German)) == "1. Jahrtausend v.Chr."
  {
    assert D.MillenniumNumber(-910) == 1;
    assert AsString(WithLanguage(Millennium(-910), L.German)) == "1" + "." + " " + "Jahrtausend" + " v.Chr.";
  }

  lemma LabelFromDate2024()
    ensures AsString(FromDate(D.CalendarDate(2024, 9, 1))) == "2024-09-01"
  {
    D.LabelFromDate2024();
  }

  lemma LabelDateMinus910AsMillennium()
    ensures AsString(Date(D.CalendarDate(-910, 9, 17), P.Millennium)) == "1st millennium BCE"
  {
    D.LabelDateMinus910AsMillennium();
  }

  lemma LabelDateMinus910AsDay()
    ensures AsString(Date(D.CalendarDate(-910, 9, 17), P.Day)) == "-910-09-17"
  {
    D.LabelDateMinus910AsDay();
  }
}
