# era-date: date labels at a chosen precision, in Dafny

This project models the label renderer of the `era-date` Rust crate: a value
holding a year, a month, a day, a precision and a language renders to one
human-readable string.

- `Precisions` (src/precision.rs): the six precisions Day, Month, Year,
  Decade, Century and Millennium, their numeric codes 11 down to 6, the
  partial conversion back from a code, and the decimal display of the code.
- `Languages` (src/language.rs): English and German, the vocabulary each
  lends to a label (era suffix for negative years, ordinal extension, decade,
  century and millennium words), the two-letter code, and the total
  conversion from a code that falls back to English.
- `DateRenderers` (src/date_renderer.rs): the `DateRenderer` value, its
  constructors, the language builder and `as_string`. Day and Month print the
  signed year with a zero-padded month (and day), Year prints the signed year,
  and Decade, Century and Millennium bucket the magnitude of the year, add the
  language's words and mark negative years with the era suffix. Year 0
  renders as "0" at those three precisions.
- `Eras` (src/era.rs): the crate's second copy of the renderer, with its own
  (identical) code, proved to render the same string as `DateRenderer` on
  equal fields. The crate's src/lib.rs does not declare this module.
- `Numerals`: the parts of Rust that the renderer relies on: the `i32` and
  `u8` integer types, `i32::abs`, and the decimal text that `{}` and `{:0>2}`
  produce, with lemmas that such text can be read back.

Each label the crate's tests check, for `DateRenderer` and for `Era`, is a
lemma. Beyond those, the model proves
what a label says about its value: a Day, Month or Year label determines the
date it came from; two Decade, Century or Millennium labels in one language
are equal exactly when the years fall in the same bucket on the same side of
year 0; the bucket numbers are the floor of |y| / 10 times 10 and the ceilings
of |y| / 100 and |y| / 1000, each characterised by its bounds; the precision
code round-trips; the language code round-trips and ignores case and
surrounding white space.

The error for an unsupported precision code does not carry the rejected
value (src/precision.rs:43 is a fixed text in which `{value}` is not
interpolated), so `TryFromU8` fails with a value-less `UnsupportedPrecision`.

## Model

| member | source | states |
|---|---|---|
| Numerals.NatToString | src/date_renderer.rs:81 | the `{}` text of a non-negative number: at least one character, all decimal digits, a leading '0' only for 0, one digit exactly below 10 |
| Numerals.NatToStringValue | src/date_renderer.rs:81 | reading the digits of that text back gives the number |
| Numerals.NatToStringInjective | src/date_renderer.rs:81 | distinct numbers print as distinct texts, in both directions |
| Numerals.IntToString | src/date_renderer.rs:111 | the `{}` text of an `i32`: starts with '-' exactly for negative values, followed by the digits of the magnitude; never padded |
| Numerals.IntToStringInjective | src/date_renderer.rs:111 | distinct years print as distinct texts, in both directions |
| Numerals.Pad2 | src/date_renderer.rs:112-113 | `{:0>2}`: at least two characters, all digits, reading back to the number; exactly two or else the unpadded digits (100 and above are not truncated) |
| Numerals.Pad2Injective | src/date_renderer.rs:112-113 | distinct months (days) pad to distinct texts, in both directions |
| Numerals.DigitRunSplit | src/date_renderer.rs:81 | a run of digits followed by text not starting with a digit splits in only one way, so a number glued to a fragment can be read back |
| Numerals.SignedRunSplit | src/date_renderer.rs:111-113 | the same for a signed year followed by '-' or a fragment |
| Numerals.Abs | src/date_renderer.rs:78 | `i32::abs` is defined away from `i32::MIN` and returns the magnitude |
| Precisions.AsU8 | src/precision.rs:14-23 | every code is in 6..11 |
| Precisions.AsU8IsDiscriminant | src/precision.rs:5-10 | `as_u8` returns the discriminant the enum declares for each variant |
| Precisions.AsU8StrictOrder | src/precision.rs:14-23 | Day > Month > Year > Decade > Century > Millennium, strictly |
| Precisions.AsU8Injective | src/precision.rs:14-23 | distinct variants have distinct codes, in both directions |
| Precisions.TryFromU8 | src/precision.rs:35-45 | succeeds exactly for 6..11, and then returns the variant whose code is the input |
| Precisions.TryFromAsU8 | src/precision.rs:14-45 | round trip: converting a variant's code back gives the variant |
| Precisions.TryFromExamples | src/precision.rs:73-82 | 6..11 map to Millennium..Day; 5 and 12 are rejected |
| Precisions.Display | src/precision.rs:26-30 | the displayed text is one or two decimal digits |
| Precisions.DisplayRoundTrip | src/precision.rs:26-45 | the displayed digits read back to the code, and converting that code gives the variant |
| Precisions.DisplayExamples | src/precision.rs:63-70 | Day displays "11" down to Millennium "6" |
| Languages.Extension | src/language.rs:10-19 | German gives "."; English gives a two-letter suffix; never starts with a digit |
| Languages.ExtensionByLastDigit | src/language.rs:13-18 | the extension depends only on the last digit of the magnitude |
| Languages.ExtensionOfNegation | src/language.rs:13 | a number and its negation get the same extension (away from `i32::MIN`) |
| Languages.EnglishExtensionVersusStandard | src/language.rs:13-18 | the English extension equals the standard English ordinal suffix exactly when the number does not end in 11, 12 or 13 |
| Languages.ExtensionExamples | src/language.rs:13-18 | 1st, 2nd, 3rd, 4th, 10th, 11st, 22nd for -22, and "." in German |
| Languages.Era | src/language.rs:22-31 | empty exactly for years >= 0; for a negative year the language's marker (" BCE" or " v.Chr.") |
| Languages.EraMarker | src/language.rs:24-27 | each marker starts with a space and has at least two characters |
| Languages.Decade | src/language.rs:33-38 | the decade fragment ("s", "er") is non-empty and does not start with a digit |
| Languages.Century | src/language.rs:40-45 | the century noun is non-empty |
| Languages.Millennium | src/language.rs:47-52 | the millennium noun is non-empty |
| Languages.ToCode | src/language.rs:65-72 | the language code has two characters |
| Languages.Lower | src/language.rs:58 | lower-casing keeps the length and lower-cases each ASCII letter in place |
| Languages.TrimStart | src/language.rs:58 | the result does not begin with white space |
| Languages.TrimStartDropsLeadingSpace | src/language.rs:58 | `trim_start` keeps a suffix of the input and removes only white space, so the removed prefix is all white space and what remains does not begin with it |
| Languages.TrimEnd | src/language.rs:58 | the result does not end with white space |
| Languages.TrimEndDropsTrailingSpace | src/language.rs:58 | `trim_end` keeps a prefix of the input and the removed suffix is all white space |
| Languages.Trim | src/language.rs:58 | `trim`: the result neither begins nor ends with white space |
| Languages.TrimKeepsMiddle | src/language.rs:58 | `trim` keeps a contiguous middle of the input; everything before and after it is white space |
| Languages.FromCode | src/language.rs:56-62 | German exactly when the lower-cased, trimmed text is "de"; English for every other text (total) |
| Languages.FromCodeOfToCode | src/language.rs:56-72 | round trip: the code a language displays converts back to that language |
| Languages.FromCodeIgnoresCase | src/language.rs:58 | converting a lower-cased text gives the same language as the original |
| Languages.FromCodeIgnoresSurroundingSpace | src/language.rs:58 | white space before and after a code does not change the language |
| Languages.FromCodeExamples | src/language.rs:80-82 | "de" gives German; "en" and "foobar" give English |
| Languages.FromCodePaddedExample | src/language.rs:58-59 | " DE " is lower-cased and trimmed to "de", so it gives German |
| Languages.FromCodeFallbackExamples | src/language.rs:60 | the unknown code "xx" and the empty code fall back to English |
| DateRenderers.New | src/date_renderer.rs:60-68 | keeps the four given fields and sets English |
| DateRenderers.Day | src/date_renderer.rs:24-26 | Day precision, English, the given year, month and day |
| DateRenderers.Month | src/date_renderer.rs:29-31 | Month precision, English, day zeroed |
| DateRenderers.Year | src/date_renderer.rs:34-36 | Year precision, English, month and day zeroed |
| DateRenderers.Decade | src/date_renderer.rs:39-41 | Decade precision, English, month and day zeroed |
| DateRenderers.Century | src/date_renderer.rs:44-46 | Century precision, English, month and day zeroed |
| DateRenderers.Millennium | src/date_renderer.rs:49-51 | Millennium precision, English, month and day zeroed |
| DateRenderers.FromDate | src/date_renderer.rs:124-127 | the date's year, month and day at Day precision, English |
| DateRenderers.Date | src/date_renderer.rs:17-21 | keeps the date's year, month and day and English, replaces only the precision |
| DateRenderers.WithLanguage | src/date_renderer.rs:53-56 | replaces the language; year, month, day and precision unchanged |
| DateRenderers.DecadeStart | src/date_renderer.rs:78 | the decade start is a non-negative multiple of 10 in (abs(y) - 10, abs(y)] |
| DateRenderers.DecadeStartUnique | src/date_renderer.rs:78 | and it is the only such multiple of 10 |
| DateRenderers.CenturyNumber | src/date_renderer.rs:88 | for y != 0 the century c satisfies c >= 1 and (c - 1) * 100 < abs(y) <= c * 100; 0 for year 0 |
| DateRenderers.CenturyNumberUnique | src/date_renderer.rs:88 | and it is the only number with those bounds (the ceiling of abs(y) / 100) |
| DateRenderers.MillenniumNumber | src/date_renderer.rs:99 | for y != 0 the millennium m satisfies m >= 1 and (m - 1) * 1000 < abs(y) <= m * 1000; 0 for year 0 |
| DateRenderers.MillenniumNumberUnique | src/date_renderer.rs:99 | and it is the only number with those bounds |
| DateRenderers.EraOf | src/date_renderer.rs:70-72 | the renderer's era suffix: empty exactly for years >= 0, the language's marker for a negative year |
| DateRenderers.OrdinalLabelShape | src/date_renderer.rs:92 | in `format!("{year}{ext} {factor}{era}")` the number's digits are the label's whole leading digit run, and the label ends with the noun and then the era suffix (OrdinalLabel is that format) |
| DateRenderers.YearToDecade | src/date_renderer.rs:74-82 | "0" for year 0; otherwise the decade start's digits, the decade fragment, then the era suffix |
| DateRenderers.YearToCentury | src/date_renderer.rs:84-93 | "0" for year 0; otherwise the century number, its extension, a space, the century noun, the era suffix |
| DateRenderers.YearToMillennium | src/date_renderer.rs:95-104 | "0" for year 0; otherwise the millennium number, its extension, a space, the millennium noun, the era suffix |
| DateRenderers.AsString | src/date_renderer.rs:106-115 | Day is signed year, '-', padded month, '-', padded day; Month drops the day; Year is the signed year; Decade, Century and Millennium give exactly the `year_to_decade`, `year_to_century` and `year_to_millennium` labels: "0" at year 0, and otherwise text starting with a digit |
| DateRenderers.DayLabelDeterminesDate | src/date_renderer.rs:113 | two Day labels are equal exactly when year, month and day are equal |
| DateRenderers.MonthLabelDeterminesMonth | src/date_renderer.rs:112 | two Month labels are equal exactly when year and month are equal |
| DateRenderers.YearLabelDeterminesYear | src/date_renderer.rs:111 | two Year labels are equal exactly when the years are equal |
| DateRenderers.DecadeLabelsEqualIff | src/date_renderer.rs:74-82 | in one language two Decade labels are equal exactly when both years are 0, or both are non-zero with the same abs(y) / 10 and the same sign |
| DateRenderers.DecadeTextsEqualIff | src/date_renderer.rs:78-81 | the decade texts of two non-zero years are equal exactly when their decade starts and eras are |
| DateRenderers.OrdinalLabelsEqualIff | src/date_renderer.rs:89-92 | two ordinal labels are equal exactly when their numbers and eras are |
| DateRenderers.CenturyLabelsEqualIff | src/date_renderer.rs:84-93 | in one language two Century labels are equal exactly when both years are 0, or both are non-zero with the same century number and the same sign |
| DateRenderers.MillenniumLabelsEqualIff | src/date_renderer.rs:95-104 | in one language two Millennium labels are equal exactly when both years are 0, or both are non-zero with the same millennium number and the same sign |
| DateRenderers.EraMarkedIffNegative | src/date_renderer.rs:79-81 | at an era-aware precision and a non-zero year, the label ends in the era marker exactly when the year is negative |
| DateRenderers.LanguageIgnoredByNumericLabels | src/date_renderer.rs:111-113 | the language does not affect the Day, Month and Year labels |
| DateRenderers.DayLabelShape | src/date_renderer.rs:113 | a Day label is the signed year followed by '-', the month, '-', the day |
| DateRenderers.MonthLabelShape | src/date_renderer.rs:112 | a Month label is the signed year followed by '-' and the month |
| DateRenderers.LabelDay2024 | src/date_renderer.rs:139 | Day(2024, 10, 2) renders "2024-10-02" |
| DateRenderers.LabelDayMinus2024 | src/date_renderer.rs:140 | Day(-2024, 10, 2) renders "-2024-10-02" |
| DateRenderers.LabelMonth2024 | src/date_renderer.rs:145 | Month(2024, 10) renders "2024-10" |
| DateRenderers.LabelMonthMinus2024 | src/date_renderer.rs:146 | Month(-2024, 10) renders "-2024-10" |
| DateRenderers.LabelYear2024 | src/date_renderer.rs:151 | Year(2024) renders "2024" |
| DateRenderers.LabelYearMinus2024 | src/date_renderer.rs:152 | Year(-2024) renders "-2024" |
| DateRenderers.LabelYear0 | src/date_renderer.rs:153 | Year(0) renders "0" |
| DateRenderers.LabelDecade910 | src/date_renderer.rs:158 | Decade(910) renders "910s" |
| DateRenderers.LabelDecadeMinus910 | src/date_renderer.rs:159 | Decade(-910) renders "910s BCE" |
| DateRenderers.LabelDecadeMinus909 | src/date_renderer.rs:160 | Decade(-909) renders "900s BCE" |
| DateRenderers.LabelDecadeMinus900 | src/date_renderer.rs:161 | Decade(-900) renders "900s BCE" |
| DateRenderers.LabelDecade0 | src/date_renderer.rs:162 | Decade(0) renders "0" |
| DateRenderers.LabelCentury10 | src/date_renderer.rs:167-170 | year 10 at Century renders "1st century" |
| DateRenderers.LabelCentury110 | src/date_renderer.rs:171-174 | year 110 renders "2nd century" |
| DateRenderers.LabelCentury210 | src/date_renderer.rs:175-178 | year 210 renders "3rd century" |
| DateRenderers.LabelCentury310 | src/date_renderer.rs:179-182 | year 310 renders "4th century" |
| DateRenderers.LabelCenturyMinus10 | src/date_renderer.rs:183-186 | year -10 renders "1st century BCE" |
| DateRenderers.LabelCenturyMinus110 | src/date_renderer.rs:187-190 | year -110 renders "2nd century BCE" |
| DateRenderers.LabelCenturyMinus210 | src/date_renderer.rs:191-194 | year -210 renders "3rd century BCE" |
| DateRenderers.LabelCenturyMinus310 | src/date_renderer.rs:195-198 | year -310 renders "4th century BCE" |
| DateRenderers.LabelCenturyMinus1000 | src/date_renderer.rs:199-202 | year -1000 renders "10th century BCE" |
| DateRenderers.LabelCenturyMinus901 | src/date_renderer.rs:203-206 | year -901 renders "10th century BCE" |
| DateRenderers.LabelCenturyMinus900 | src/date_renderer.rs:207-210 | year -900 renders "9th century BCE" |
| DateRenderers.LabelCentury0 | src/date_renderer.rs:211-214 | year 0 at Century renders "0" |
| DateRenderers.LabelMillennium1 | src/date_renderer.rs:219-222 | year 1 at Millennium renders "1st millennium" |
| DateRenderers.LabelMillennium1000 | src/date_renderer.rs:223-226 | year 1000 renders "1st millennium" |
| DateRenderers.LabelMillennium1001 | src/date_renderer.rs:227-230 | year 1001 renders "2nd millennium" |
| DateRenderers.LabelMillennium2001 | src/date_renderer.rs:231-234 | year 2001 renders "3rd millennium" |
| DateRenderers.LabelMillennium3001 | src/date_renderer.rs:235-238 | year 3001 renders "4th millennium" |
| DateRenderers.LabelMillenniumMinus1000 | src/date_renderer.rs:239-242 | year -1000 renders "1st millennium BCE" |
| DateRenderers.LabelMillenniumMinus1001 | src/date_renderer.rs:243-246 | year -1001 renders "2nd millennium BCE" |
| DateRenderers.LabelMillenniumMinus2001 | src/date_renderer.rs:247-250 | year -2001 renders "3rd millennium BCE" |
| DateRenderers.LabelMillenniumMinus3001 | src/date_renderer.rs:251-254 | year -3001 renders "4th millennium BCE" |
| DateRenderers.LabelMillennium0 | src/date_renderer.rs:255-258 | year 0 at Millennium renders "0" |
| DateRenderers.LabelGermanDecade910 | src/date_renderer.rs:263-264 | 910 at Decade in German renders "910er" |
| DateRenderers.LabelGermanDecadeMinus910 | src/date_renderer.rs:265-266 | -910 at Decade in German renders "910er v.Chr." |
| DateRenderers.LabelGermanCentury910 | src/date_renderer.rs:268-269 | 910 at Century in German renders "10. Jahrhundert" |
| DateRenderers.LabelGermanCenturyMinus910 | src/date_renderer.rs:270-271 | -910 at Century in German renders "10. Jahrhundert v.Chr." |
| DateRenderers.LabelGermanMillennium910 | src/date_renderer.rs:273-274 | 910 at Millennium in German renders "1. Jahrtausend" |
| DateRenderers.LabelGermanMillenniumMinus910 | src/date_renderer.rs:275-276 | -910 at Millennium in German renders "1. Jahrtausend v.Chr." |
| DateRenderers.LabelFromDate2024 | src/date_renderer.rs:281-283 | the date 2024-09-01 renders "2024-09-01" |
| DateRenderers.LabelDateMinus910AsMillennium | src/date_renderer.rs:288-290 | the date -910-09-17 at Millennium renders "1st millennium BCE" |
| DateRenderers.LabelDateMinus910AsDay | src/date_renderer.rs:291-292 | the date -910-09-17 at Day renders "-910-09-17" |
| Eras.New | src/era.rs:60-68 | keeps the four given fields and sets English |
| Eras.Day | src/era.rs:24-26 | Day precision, English, the given year, month and day |
| Eras.Month | src/era.rs:29-31 | Month precision, English, day zeroed |
| Eras.Year | src/era.rs:34-36 | Year precision, English, month and day zeroed |
| Eras.Decade | src/era.rs:39-41 | Decade precision, English, month and day zeroed |
| Eras.Century | src/era.rs:44-46 | Century precision, English, month and day zeroed |
| Eras.Millennium | src/era.rs:49-51 | Millennium precision, English, month and day zeroed |
| Eras.FromDate | src/era.rs:124-127 | the date's year, month and day at Day precision, English |
| Eras.Date | src/era.rs:17-21 | keeps the date's year, month and day, replaces only the precision |
| Eras.WithLanguage | src/era.rs:53-56 | replaces the language; year, month, day and precision unchanged |
| Eras.YearToDecade | src/era.rs:74-82 | equals the `DateRenderer` decade label of the same fields |
| Eras.YearToCentury | src/era.rs:84-93 | equals the `DateRenderer` century label of the same fields |
| Eras.YearToMillennium | src/era.rs:95-104 | equals the `DateRenderer` millennium label of the same fields |
| Eras.AsString | src/era.rs:106-115 | on equal fields `Era` renders exactly the string `DateRenderer` renders |
| Eras.ConstructorsAgree | src/era.rs:17-68 | every `Era` constructor builds the same fields as its `DateRenderer` namesake |
| Eras.ZeroYearLabels | src/era.rs:75-77 | year 0 renders "0" at Decade, Century and Millennium, in either language |
| Eras.CenturyLabelsEqualIff | src/era.rs:84-93 | two years share an `Era` century label exactly when both are 0, or both are non-zero with the same century number and sign |
| Eras.LabelDay2024 | src/era.rs:139 | Era::day(2024, 10, 2) renders "2024-10-02" |
| Eras.LabelMonth2024 | src/era.rs:145 | Era::month(2024, 10) renders "2024-10" |
| Eras.LabelYear2024 | src/era.rs:151 | Era::year(2024) renders "2024" |
| Eras.LabelYearMinus2024 | src/era.rs:152 | Era::year(-2024) renders "-2024" |
| Eras.LabelYear0 | src/era.rs:153 | Era::year(0) renders "0" |
| Eras.LabelDecade910 | src/era.rs:158 | Era::decade(910) renders "910s" |
| Eras.LabelDecadeMinus910 | src/era.rs:159 | Era::decade(-910) renders "910s BCE" |
| Eras.LabelDecadeMinus909 | src/era.rs:160 | Era::decade(-909) renders "900s BCE" |
| Eras.LabelDecadeMinus900 | src/era.rs:161 | Era::decade(-900) renders "900s BCE" |
| Eras.LabelCentury10 | src/era.rs:167 | Era::century(10) renders "1st century" |
| Eras.LabelCentury110 | src/era.rs:168 | Era::century(110) renders "2nd century" |
| Eras.LabelCentury210 | src/era.rs:169 | Era::century(210) renders "3rd century" |
| Eras.LabelCentury310 | src/era.rs:170 | Era::century(310) renders "4th century" |
| Eras.LabelCenturyMinus10 | src/era.rs:171 | Era::century(-10) renders "1st century BCE" |
| Eras.LabelCenturyMinus110 | src/era.rs:172 | Era::century(-110) renders "2nd century BCE" |
| Eras.LabelCenturyMinus210 | src/era.rs:173 | Era::century(-210) renders "3rd century BCE" |
| Eras.LabelCenturyMinus310 | src/era.rs:174 | Era::century(-310) renders "4th century BCE" |
| Eras.LabelCenturyMinus900 | src/era.rs:177 | Era::century(-900) renders "9th century BCE" |
| Eras.LabelMillennium1 | src/era.rs:183 | Era::millennium(1) renders "1st millennium" |
| Eras.LabelMillennium1000 | src/era.rs:184 | Era::millennium(1000) renders "1st millennium" |
| Eras.LabelMillennium1001 | src/era.rs:185 | Era::millennium(1001) renders "2nd millennium" |
| Eras.LabelMillennium2001 | src/era.rs:186 | Era::millennium(2001) renders "3rd millennium" |
| Eras.LabelMillennium3001 | src/era.rs:187 | Era::millennium(3001) renders "4th millennium" |
| Eras.LabelMillenniumMinus1000 | src/era.rs:188 | Era::millennium(-1000) renders "1st millennium BCE" |
| Eras.LabelMillenniumMinus1001 | src/era.rs:189 | Era::millennium(-1001) renders "2nd millennium BCE" |
| Eras.LabelMillenniumMinus2001 | src/era.rs:190 | Era::millennium(-2001) renders "3rd millennium BCE" |
| Eras.LabelMillenniumMinus3001 | src/era.rs:191 | Era::millennium(-3001) renders "4th millennium BCE" |
| Eras.LabelDayMinus2024 | src/era.rs:140 | Era::day(-2024, 10, 2) renders "-2024-10-02" |
| Eras.LabelMonthMinus2024 | src/era.rs:146 | Era::month(-2024, 10) renders "-2024-10" |
| Eras.LabelCenturyMinus1000 | src/era.rs:175 | Era::century(-1000) renders "10th century BCE" |
| Eras.LabelCenturyMinus901 | src/era.rs:176 | Era::century(-901) renders "10th century BCE" |
| Eras.LabelGermanDecade910 | src/era.rs:197-198 | German Era::decade(910) renders "910er" |
| Eras.LabelGermanDecadeMinus910 | src/era.rs:199-200 | German Era::decade(-910) renders "910er v.Chr." |
| Eras.LabelGermanCentury910 | src/era.rs:202-203 | German Era::century(910) renders "10. Jahrhundert" |
| Eras.LabelGermanCenturyMinus910 | src/era.rs:204-205 | German Era::century(-910) renders "10. Jahrhundert v.Chr." |
| Eras.LabelGermanMillennium910 | src/era.rs:207-208 | German Era::millennium(910) renders "1. Jahrtausend" |
| Eras.LabelGermanMillenniumMinus910 | src/era.rs:209-210 | German Era::millennium(-910) renders "1. Jahrtausend v.Chr." |
| Eras.LabelFromDate2024 | src/era.rs:215-217 | the date 2024-09-01 renders "2024-09-01" |
| Eras.LabelDateMinus910AsMillennium | src/era.rs:222-224 | the date -910-09-17 at Millennium renders "1st millennium BCE" |
| Eras.LabelDateMinus910AsDay | src/era.rs:225-226 | the date -910-09-17 at Day renders "-910-09-17" |

## Left out

- src/lib.rs: module declarations and re-exports only; it has no logic.
- The `time::Date` adapter (`From<&Date>` in src/date_renderer.rs:124-127 and src/era.rs:124-127) calls into the `time` crate; the model takes the date as a `CalendarDate` (year, month number, day) handed in by the caller and does no calendar validation.
- Rust's formatting machinery (`write!`, `format!`, `Display` plumbing) is replaced by `NatToString`, `IntToString` and `Pad2`; `Display for DateRenderer` and `Display for Era` print `as_string` unchanged, so they are `AsString` here.
- `Languages.FromCode`: lower-casing and trimming cover ASCII letters and ASCII white space only; Rust's `to_lowercase` and `trim` also handle the rest of Unicode.
- `Precisions.TryFromU8`: the error carries no text; the source's message literal is not modelled.
- `DateRenderers.AsString`, `Eras.AsString`: require `Renderable`, which excludes the `i32` overflows of the source (`abs` of `i32::MIN`, and `abs + 99` or `abs + 999` above `i32::MAX`); the panic or wrap-around there is not modelled.
- `Languages.Extension`: requires a year other than `i32::MIN` for English, where `abs` overflows.
- The derived `Debug`, `Clone` and `PartialEq` implementations are Dafny's value equality and are not modelled separately.
- The English ordinal rule is kept as written: 11, 12 and 13 get "st", "nd" and "rd" (so years 1001-1100 are the "11st century"); `Languages.EnglishExtensionVersusStandard` states exactly where it departs from standard English.
