/**
 * Decimal notation of natural numbers: what Rust's `Debug` and `Display`
 * print for an unsigned integer, and the digits that `str::parse` accepts.
 */
module Decimal {

  import opened Wrappers

  predicate IsDigit(c: char) { '0' <= c <= '9' }

  predicate AllDigits(s: string) { forall i :: 0 <= i < |s| ==> IsDigit(s[i]) }

  /** A non-empty string of digits without a leading zero, or just `0`. */
  predicate IsCanonical(s: string)
  {
    s != [] && AllDigits(s) && (s[0] == '0' ==> s == "0")
  }

  function DigitChar(d: nat): (c: char)
    requires d < 10
    ensures IsDigit(c) && c as int - '0' as int == d
  {
    ('0' as int + d) as char
  }

  function DigitValue(c: char): (d: nat)
    requires IsDigit(c)
    ensures d < 10 && DigitChar(d) == c
  {
    c as int - '0' as int
  }

  /** The decimal digits of `n`, most significant first. */
  function Format(n: nat): (s: string)
    ensures IsCanonical(s)
    ensures n >= 10 ==> |s| >= 2
    decreases n
  {
    if n < 10 then [DigitChar(n)] else Format(n / 10) + [DigitChar(n % 10)]
  }

  /** The number that a string of digits denotes. */
  function ValueOf(s: string): nat
    requires AllDigits(s)
  {
    if s == [] then 0 else 10 * ValueOf(s[..|s| - 1]) + DigitValue(s[|s| - 1])
  }

  /** `n` is `10 * q + d` with `d` a digit exactly when `q` and `d` are `n`'s quotient and remainder by ten. */
  lemma DivModTen(n: nat, q: nat, d: nat)
    requires d < 10 && n == 10 * q + d
    ensures n / 10 == q && n % 10 == d
  {
  }

  /** Reading back the printed digits gives the number. */
  lemma {:induction false} ValueOfFormat(n: nat)
    ensures ValueOf(Format(n)) == n
  {
    if n >= 10 {
      var s := Format(n);
      assert s[..|s| - 1] == Format(n / 10);
      ValueOfFormat(n / 10);
    }
  }

  /** A string of digits that does not start with `0` denotes a positive number. */
  lemma {:induction false} ValueOfPositive(s: string)
    requires s != [] && AllDigits(s) && s[0] != '0'
    ensures ValueOf(s) >= 1
  {
    if |s| > 1 {
      ValueOfPositive(s[..|s| - 1]);
    }
  }

  /** Printing the number a canonical digit string denotes gives the string back. */
  lemma {:induction false} FormatValueOf(s: string)
    requires IsCanonical(s)
    ensures Format(ValueOf(s)) == s
  {
    if |s| > 1 {
      var init := s[..|s| - 1];
      ValueOfPositive(init);
      FormatValueOf(init);
      var d := DigitValue(s[|s| - 1]);
      DivModTen(ValueOf(s), ValueOf(init), d);
      assert s == init + [s[|s| - 1]];
    }
  }

  /** `str::parse::<u32>`-style reading of digits, without a sign: `None` for anything else. */
  function Parse(s: string): (r: Option<nat>)
    ensures r.Some? <==> s != [] && AllDigits(s)
  {
    if s != [] && AllDigits(s) then Some(ValueOf(s)) else None
  }

  lemma ParseFormat(n: nat)
    ensures Parse(Format(n)) == Some(n)
  {
    ValueOfFormat(n);
  }
}
