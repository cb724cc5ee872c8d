/**
 * Machine integers of the renderer (Rust's `i32` and `u8`) and the decimal
 * text that Rust's formatter produces for them: `{}` for a signed or
 * unsigned integer and `{:0>2}` for a month or a day.
 */
module Numerals {

  const I32_MIN: int := -0x8000_0000
  const I32_MAX: int := 0x7FFF_FFFF

  /** Rust's `i32`: arithmetic outside this range overflows in the source. */
  newtype i32 = x: int | -0x8000_0000 <= x < 0x8000_0000

  /** Rust's `u8`. */
  newtype u8 = x: int | 0 <= x < 0x100

  /** Rust's `i32::abs`, which overflows on `i32::MIN`. */
  function Abs(x: i32): (r: i32)
    requires x as int != I32_MIN
    ensures 0 <= r && (r == x || r as int == -(x as int))
  {
    if x < 0 then -x else x
  }

  /** The mathematical magnitude of an `i32`, defined for every value. */
  function Magnitude(x: i32): (m: nat)
    ensures m == x as int || m == -(x as int)
  {
    if x < 0 then -(x as int) else x as int
  }

  predicate IsDigit(c: char) {
    '0' <= c <= '9'
  }

  predicate AllDigits(s: string) {
    forall i :: 0 <= i < |s| ==> IsDigit(s[i])
  }

  /** `t` is empty or begins with something other than a decimal digit. */
  predicate StartsNonDigit(t: string) {
    t == [] || !IsDigit(t[0])
  }

  function DigitChar(d: nat): (c: char)
    requires d < 10
    ensures IsDigit(c) && c as int - '0' as int == d
  {
    ('0' as int + d) as char
  }

  function DigitValue(c: char): (d: nat)
    requires IsDigit(c)
    ensures d < 10 && DigitChar(d) == c
  {
    c as int - '0' as int
  }

  /** The number a string of decimal digits denotes (leading zeros allowed). */
  function DigitsValue(s: string): nat
    requires AllDigits(s)
  {
    if s == [] then 0 else DigitsValue(s[..|s| - 1]) * 10 + DigitValue(s[|s| - 1])
  }

  /** Rust's `{}` of a non-negative integer: its digits, most significant first,
      without leading zeros. */
  function NatToString(n: nat): (s: string)
    ensures 1 <= |s| && AllDigits(s)
    ensures s[0] == '0' <==> n == 0
    ensures |s| == 1 <==> n < 10
  {
    if n < 10 then [DigitChar(n)] else NatToString(n / 10) + [DigitChar(n % 10)]
  }

  /** Reading the digits back gives the number. */
  lemma {:induction false} NatToStringValue(n: nat)
    ensures DigitsValue(NatToString(n)) == n
  {
    if n >= 10 {
      var s := NatToString(n);
      NatToStringValue(n / 10);
      assert s[..|s| - 1] == NatToString(n / 10);
    }
  }

  lemma NatToStringInjective(a: nat, b: nat)
    ensures NatToString(a) == NatToString(b) <==> a == b
  {
    NatToStringValue(a);
    NatToStringValue(b);
  }

  /** Rust's `{}` of a signed integer: a minus sign for negative values,
      then the digits of the magnitude. */
  function IntToString(x: int): (s: string)
    ensures 1 <= |s|
    ensures s[0] == '-' <==> x < 0
    ensures x >= 0 ==> s == NatToString(x)
    ensures x < 0 ==> s[1..] == NatToString(-x)
  {
    if x < 0 then "-" + NatToString(-x) else NatToString(x)
  }

  /** Rust's `{:0>2}` of a `u8`: the digits, left-filled with '0' up to width
      two and never truncated, so 100 and above keep all three digits. */
  function Pad2(n: nat): (s: string)
    ensures 2 <= |s| && AllDigits(s)
    ensures DigitsValue(s) == n
    ensures |s| == 2 || s == NatToString(n)
  {
    var digits := NatToString(n);
    NatToStringValue(n);
    if |digits| < 2 then
      var s := "0" + digits;
      assert s[..1] == "0";
      s
    else
      digits
  }

  /** The length of the run of decimal digits at the start of `u`. */
  function LeadingDigitCount(u: string): (k: nat)
    ensures k <= |u|
  {
    if u != [] && IsDigit(u[0]) then 1 + LeadingDigitCount(u[1..]) else 0
  }

  lemma {:induction false} LeadingDigitCountOfRun(s: string, t: string)
    requires AllDigits(s) && StartsNonDigit(t)
    ensures LeadingDigitCount(s + t) == |s|
  {
    if s != [] {
      assert (s + t)[1..] == s[1..] + t;
      LeadingDigitCountOfRun(s[1..], t);
    }
  }

  /** A run of digits followed by text that does not begin with a digit splits
      in exactly one way. */
  lemma DigitRunSplit(s1: string, t1: string, s2: string, t2: string)
    requires AllDigits(s1) && StartsNonDigit(t1)
    requires AllDigits(s2) && StartsNonDigit(t2)
    requires s1 + t1 == s2 + t2
    ensures s1 == s2 && t1 == t2
  {
    LeadingDigitCountOfRun(s1, t1);
    LeadingDigitCountOfRun(s2, t2);
    assert s1 == (s1 + t1)[..|s1|];
    assert s2 == (s2 + t2)[..|s2|];
    assert t1 == (s1 + t1)[|s1|..];
    assert t2 == (s2 + t2)[|s2|..];
  }

  /** A signed decimal followed by text that does not begin with a digit
      determines both the number and the text. */
  lemma SignedRunSplit(a1: int, t1: string, a2: int, t2: string)
    requires StartsNonDigit(t1) && StartsNonDigit(t2)
    requires IntToString(a1) + t1 == IntToString(a2) + t2
    ensures a1 == a2 && t1 == t2
  {
    var s1, s2 := IntToString(a1), IntToString(a2);
    assert (s1 + t1)[0] == s1[0];
    assert (s2 + t2)[0] == s2[0];
    if a1 < 0 {
      assert (s1 + t1)[1..] == NatToString(-a1) + t1;
      assert (s2 + t2)[1..] == NatToString(-a2) + t2;
      DigitRunSplit(NatToString(-a1), t1, NatToString(-a2), t2);
      NatToStringInjective(-a1, -a2);
    } else {
      DigitRunSplit(s1, t1, s2, t2);
      NatToStringInjective(a1, a2);
    }
  }

  lemma IntToStringInjective(a: int, b: int)
    ensures IntToString(a) == IntToString(b) <==> a == b
  {
    if IntToString(a) == IntToString(b) {
      assert IntToString(a) + [] == IntToString(b) + [];
      SignedRunSplit(a, [], b, []);
    }
  }

  lemma Pad2Injective(a: nat, b: nat)
    ensures Pad2(a) == Pad2(b) <==> a == b
  {
  }
}
