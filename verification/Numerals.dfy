// Decimal numerals, as strconv reads and writes them.
module Numerals {
  import opened Text
  import opened Numbers

  predicate IsDigit(c: char) { '0' <= c <= '9' }

  predicate AllDigits(s: string) {
    s == "" || (IsDigit(s[|s| - 1]) && AllDigits(s[..|s| - 1]))
  }

  function Numeral(digits: string): (n: int)
    requires AllDigits(digits)
    ensures n >= 0
  {
    if digits == "" then 0 else Numeral(digits[..|digits| - 1]) * 10 + (digits[|digits| - 1] - '0') as int
  }

  function Decimal(n: nat): string {
    (if n < 10 then "" else Decimal(n / 10)) + ['0' + (n % 10) as char]
  }

  lemma {:induction false} NumeralOfDecimal(n: nat)
    ensures Decimal(n) != "" && AllDigits(Decimal(n)) && Numeral(Decimal(n)) == n
  {
    var d := Decimal(n);
    if n >= 10 {
      NumeralOfDecimal(n / 10);
      assert d[..|d| - 1] == Decimal(n / 10);
    } else {
      assert d[..|d| - 1] == "";
    }
  }

  lemma {:induction false} DigitsAreSolid(s: string, i: nat)
    requires AllDigits(s) && i < |s|
    ensures IsDigit(s[i]) && !IsSpace(s[i])
  {
    if i < |s| - 1 {
      DigitsAreSolid(s[..|s| - 1], i);
    }
  }

  // The digits a string starts with.
  function LeadingDigits(s: string): (d: string)
    ensures AllDigits(d) && |d| <= |s| && d == s[..|d|]
    ensures |d| < |s| ==> !IsDigit(s[|d|])
  {
    if s == "" then ""
    else
      var d := LeadingDigits(s[..|s| - 1]);
      if |d| == |s| - 1 && IsDigit(s[|s| - 1]) then s else d
  }

  // The value strconv.ParseUint(s, 10, 64) returns, error or not: the largest
  // uint64 as soon as the digits read exceed it, 0 when something is not a digit.
  function ParseUint(s: string): (n: int)
    ensures 0 <= n < TWO_64
  {
    var d := LeadingDigits(s);
    if Numeral(d) >= TWO_64 then TWO_64 - 1
    else if s != "" && d == s then Numeral(d)
    else 0
  }

  lemma {:induction false} LeadingDigitsOfDigits(s: string)
    requires AllDigits(s)
    ensures LeadingDigits(s) == s
  {
    if s != "" {
      LeadingDigitsOfDigits(s[..|s| - 1]);
    }
  }

  lemma {:induction false} LeadingDigitsBefore(d: string, c: char, rest: string)
    requires AllDigits(d) && !IsDigit(c)
    ensures LeadingDigits(d + [c] + rest) == d
  {
    var s := d + [c] + rest;
    if rest == "" {
      LeadingDigitsOfDigits(d);
      assert s[..|s| - 1] == d;
    } else {
      LeadingDigitsBefore(d, c, rest[..|rest| - 1]);
      assert s[..|s| - 1] == d + [c] + rest[..|rest| - 1];
    }
  }

  // A numeral is read as its number or the largest uint64; anything else is 0,
  // unless the digits before the first other character already exceed a uint64.
  lemma ParseUintExactly(d: string, c: char, rest: string)
    requires AllDigits(d)
    ensures d != "" ==> ParseUint(d) == Min(Numeral(d), 0xFFFF_FFFF_FFFF_FFFF)
    ensures !('0' <= c <= '9') ==>
      ParseUint(d + [c] + rest) == if Numeral(d) <= 0xFFFF_FFFF_FFFF_FFFF then 0 else 0xFFFF_FFFF_FFFF_FFFF
    ensures ParseUint("") == 0
  {
    LeadingDigitsOfDigits(d);
    if !IsDigit(c) {
      LeadingDigitsBefore(d, c, rest);
    }
  }

  lemma ParseUintOfDecimal(n: nat)
    ensures ParseUint(Decimal(n)) == Min(n, TWO_64 - 1)
  {
    NumeralOfDecimal(n);
    LeadingDigitsOfDigits(Decimal(n));
  }
}
