/**
 * The supported vocabularies and the text fragments each one lends to a
 * label: the era suffix, the ordinal extension and the decade, century and
 * millennium nouns, plus the two-letter language code in both directions.
 */
module Languages {
  import opened Numerals

  datatype Language = German | English

  /** `Language::extension`: the ordinal suffix after a number. German writes a
      period; English looks only at the last digit of |year|, so 11, 12 and 13
      take "st", "nd" and "rd". */
  function Extension(language: Language, year: i32): (s: string)
    requires language == German || year as int != I32_MIN
    ensures language == German ==> s == "."
    ensures language == English ==> |s| == 2
    ensures 1 <= |s| && !IsDigit(s[0])
  {
    match language
    case German => "."
    case English =>
      var last := Abs(year) % 10;
      if last == 1 then "st"
      else if last == 2 then "nd"
      else if last == 3 then "rd"
      else "th"
  }

  /** `Language::era`: nothing for a year of the common era (including 0), the
      language's BCE marker, led by a space, for a negative year. */
  function Era(language: Language, year: i32): (s: string)
    ensures s == [] <==> year >= 0
    ensures year < 0 ==> s == EraMarker(language)
  {
    if year < 0 then EraMarker(language) else ""
  }

  /** The marker a negative year carries, written out per language. */
  function EraMarker(language: Language): (s: string)
    ensures 2 <= |s| && s[0] == ' '
  {
    match language
    case German => " v.Chr."
    case English => " BCE"
  }

  /** `Language::decade`: appended directly to the decade's first year. */
  function Decade(language: Language): (s: string)
    ensures 1 <= |s| && !IsDigit(s[0])
  {
    match language
    case German => "er"
    case English => "s"
  }

  /** `Language::century`: the noun after the ordinal. */
  function Century(language: Language): (s: string)
    ensures 1 <= |s|
  {
    match language
    case German => "Jahrhundert"
    case English => "century"
  }

  /** `Language::millennium`: the noun after the ordinal. */
  function Millennium(language: Language): (s: string)
    ensures 1 <= |s|
  {
    match language
    case German => "Jahrtausend"
    case English => "millennium"
  }

  /** `Display for Language`: the two-letter code. */
  function ToCode(language: Language): (s: string)
    ensures |s| == 2
  {
    match language
    case German => "de"
    case English => "en"
  }

  /** The ASCII part of `char::to_lowercase`. */
  function LowerChar(c: char): char {
    if 'A' <= c <= 'Z' then (c as int + 32) as char else c
  }

  function Lower(s: string): (r: string)
    ensures |r| == |s|
    ensures forall i :: 0 <= i < |s| ==> r[i] == LowerChar(s[i])
  {
    seq(|s|, i requires 0 <= i < |s| => LowerChar(s[i]))
  }

  /** The ASCII part of `char::is_whitespace`: tab, line feed, vertical tab,
      form feed, carriage return and space. */
  predicate IsSpace(c: char) {
    9 <= c as int <= 13 || c == ' '
  }

  predicate AllSpace(s: string) {
    forall i :: 0 <= i < |s| ==> IsSpace(s[i])
  }

  /** `str::trim_start`. */
  function TrimStart(s: string): (r: string)
    ensures r == [] || !IsSpace(r[0])
  {
    if s != [] && IsSpace(s[0]) then TrimStart(s[1..]) else s
  }

  /** `str::trim_end`. */
  function TrimEnd(s: string): (r: string)
    ensures r == [] || !IsSpace(r[|r| - 1])
  {
    if s != [] && IsSpace(s[|s| - 1]) then TrimEnd(s[..|s| - 1]) else s
  }

  /** `str::trim`: both ends without surrounding white space. */
  function Trim(s: string): (r: string)
    ensures r == [] || (!IsSpace(r[0]) && !IsSpace(r[|r| - 1]))
  {
    var t := TrimEnd(s);
    TrimEndDropsTrailingSpace(s);
    TrimStartDropsLeadingSpace(t);
    TrimStart(t)
  }

  /** Trimming the start removes exactly the leading run of white space. */
  lemma {:induction false} TrimStartDropsLeadingSpace(s: string)
    ensures var r := TrimStart(s);
      |r| <= |s| && r == s[|s| - |r|..] && AllSpace(s[..|s| - |r|])
  {
    if s != [] && IsSpace(s[0]) {
      var r := TrimStart(s[1..]);
      TrimStartDropsLeadingSpace(s[1..]);
      assert s[..|s| - |r|] == [s[0]] + s[1..][..|s| - 1 - |r|];
    }
  }

  /** Trimming the end removes exactly the trailing run of white space. */
  lemma {:induction false} TrimEndDropsTrailingSpace(s: string)
    ensures var r := TrimEnd(s);
      |r| <= |s| && r == s[..|r|] && AllSpace(s[|r|..])
  {
    if s != [] && IsSpace(s[|s| - 1]) {
      var r := TrimEnd(s[..|s| - 1]);
      TrimEndDropsTrailingSpace(s[..|s| - 1]);
      assert s[|r|..] == s[..|s| - 1][|r|..] + [s[|s| - 1]];
    }
  }

  /** Trimming keeps exactly the middle of `s` between a leading and a
      trailing run of white space. */
  lemma TrimKeepsMiddle(s: string)
    ensures var r := Trim(s);
      exists i :: 0 <= i <= |s| - |r| && AllSpace(s[..i]) && r == s[i..i + |r|] && AllSpace(s[i + |r|..])
  {
    var t, r := TrimEnd(s), Trim(s);
    TrimEndDropsTrailingSpace(s);
    TrimStartDropsLeadingSpace(t);
    var i := |t| - |r|;
    assert s[..i] == t[..i];
    assert s[i..i + |r|] == t[i..];
    assert s[i + |r|..] == s[|t|..];
    assert AllSpace(s[..i]) && r == s[i..i + |r|] && AllSpace(s[i + |r|..]);
  }

  /** `From<&str> for Language`: German exactly for the code "de" in any case
      and with any surrounding white space; every other text falls back to
      English, so the conversion never fails. */
  function FromCode(code: string): (language: Language)
    ensures language == German <==> Trim(Lower(code)) == "de"
    ensures language == English <==> Trim(Lower(code)) != "de"
  {
    if Trim(Lower(code)) == "de" then German else English
  }

  /** The code written by `Display` reads back as the same language. */
  lemma FromCodeOfToCode(language: Language)
    ensures FromCode(ToCode(language)) == language
  {
    assert Lower("de") == "de";
    assert Lower("en") == "en";
  }

  /** The codes in the tests: "de" is German, "en" and unknown codes English. */
  lemma FromCodeExamples()
    ensures FromCode("de") == German
    ensures FromCode("en") == English && FromCode("foobar") == English
  {
    assert Lower("de") == "de";
    assert Lower("foobar") == "foobar";
  }

  /** A padded upper-case code is still German. */
  lemma FromCodePaddedExample()
    ensures FromCode(" DE ") == German
  {
    assert Lower(" DE ") == " de ";
    assert TrimEnd(" de ") == " de";
    assert TrimStart(" de") == "de";
  }

  /** An unknown or empty code falls back to English. */
  lemma FromCodeFallbackExamples()
    ensures FromCode("xx") == English && FromCode("") == English
  {
    assert Lower("xx") == "xx";
  }

  /** Letter case does not matter to the conversion. */
  lemma FromCodeIgnoresCase(code: string)
    ensures FromCode(Lower(code)) == FromCode(code)
  {
    assert Lower(Lower(code)) == Lower(code);
  }

  lemma {:induction false} TrimEndOfAppendedSpace(t: string, w: string)
    requires AllSpace(w)
    ensures TrimEnd(t + w) == TrimEnd(t)
  {
    if w != [] {
      var w' := w[..|w| - 1];
      assert (t + w)[..|t + w| - 1] == t + w';
      TrimEndOfAppendedSpace(t, w');
    } else {
      assert t + w == t;
    }
  }

  lemma {:induction false} TrimEndOfPrependedSpace(w: string, t: string)
    requires AllSpace(w)
    ensures TrimEnd(w + t) == if TrimEnd(t) == [] then [] else w + TrimEnd(t)
  {
    if t == [] {
      assert w + t == [] + w;
      TrimEndOfAppendedSpace([], w);
    } else if IsSpace(t[|t| - 1]) {
      var t' := t[..|t| - 1];
      assert (w + t)[..|w + t| - 1] == w + t';
      TrimEndOfPrependedSpace(w, t');
    }
  }

  lemma {:induction false} TrimStartOfPrependedSpace(w: string, u: string)
    requires AllSpace(w)
    ensures TrimStart(w + u) == TrimStart(u)
  {
    if w != [] {
      assert (w + u)[1..] == w[1..] + u;
      TrimStartOfPrependedSpace(w[1..], u);
    } else {
      assert w + u == u;
    }
  }

  /** White space around a code does not matter to the conversion. */
  lemma FromCodeIgnoresSurroundingSpace(before: string, code: string, after: string)
    requires AllSpace(before) && AllSpace(after)
    ensures FromCode(before + code + after) == FromCode(code)
  {
    var t := Lower(code);
    assert Lower(before + code + after) == before + t + after;
    TrimEndOfAppendedSpace(before + t, after);
    TrimEndOfPrependedSpace(before, t);
    if TrimEnd(t) != [] {
      TrimStartOfPrependedSpace(before, TrimEnd(t));
    }
  }

  /** The suffix standard English gives the ordinal of `n`, where 11, 12 and
      13 (and 111, 112, ...) take "th". */
  function StandardOrdinalSuffix(n: nat): string {
    if 11 <= n % 100 <= 13 then "th"
    else if n % 10 == 1 then "st"
    else if n % 10 == 2 then "nd"
    else if n % 10 == 3 then "rd"
    else "th"
  }

  /** The English extension is the standard ordinal suffix except exactly for
      the numbers ending in 11, 12 or 13. */
  lemma EnglishExtensionVersusStandard(n: i32)
    requires n >= 0
    ensures Extension(English, n) == StandardOrdinalSuffix(n as nat) <==> !(11 <= n % 100 <= 13)
  {
    LastDigitOfLastTwo(n as nat);
  }

  lemma LastDigitOfLastTwo(x: nat)
    ensures x % 100 % 10 == x % 10
  {
    var a, b := x / 100, x % 100;
    var c, d := b / 10, b % 10;
    assert x == 10 * (10 * a + c) + d;
  }

  /** The extension of a number and of its negation agree. */
  lemma ExtensionOfNegation(language: Language, year: i32)
    requires year as int != I32_MIN
    ensures Extension(language, year) == Extension(language, -year)
  {
  }

  /** The English extension depends on nothing but the last digit of |year|. */
  lemma ExtensionByLastDigit(language: Language, y1: i32, y2: i32)
    requires y1 as int != I32_MIN && y2 as int != I32_MIN
    requires Magnitude(y1) % 10 == Magnitude(y2) % 10
    ensures Extension(language, y1) == Extension(language, y2)
  {
  }

  lemma ExtensionExamples()
    ensures Extension(English, 1) == "st" && Extension(English, 2) == "nd"
    ensures Extension(English, 3) == "rd" && Extension(English, 4) == "th"
    ensures Extension(English, 10) == "th" && Extension(English, 11) == "st"
    ensures Extension(English, -22) == "nd" && Extension(German, 10) == "."
  {
  }
}
