/** Decimal integers as the Go runtime reads and writes them: `strconv.Atoi`
    (used on the X-Total-Pages header) and the `%d` verb of `fmt.Sprintf`
    (used in the report text). Go's `int` is 64 bits wide here. */
module Decimal {
  import opened Wrappers

  const MinInt: int := -0x8000_0000_0000_0000
  const MaxInt: int := 0x7FFF_FFFF_FFFF_FFFF

  predicate IsDigit(c: char) { '0' <= c <= '9' }

  predicate AllDigits(s: string) { forall i :: 0 <= i < |s| ==> IsDigit(s[i]) }

  /** The value of a string of decimal digits, most significant first. */
  function DigitsValue(s: string): (v: nat)
    requires AllDigits(s)
  {
    if s == [] then 0
    else DigitsValue(s[..|s| - 1]) * 10 + (s[|s| - 1] as int - '0' as int)
  }

  /** `s` without its leading '+' or '-', if it has one. */
  function Unsigned(s: string): (d: string)
    ensures |d| <= |s|
  {
    if |s| > 0 && (s[0] == '+' || s[0] == '-') then s[1..] else s
  }

  /** `strconv.Atoi`: an optional '+' or '-', then one or more decimal digits
      (leading zeros allowed), whose value fits in 64 bits. Anything else, the
      empty string included, is a syntax or range error. */
  function Atoi(s: string): (r: Option<int>)
    ensures r.Some? ==> MinInt <= r.value <= MaxInt
    ensures r.Some? ==> |s| > 0 && (IsDigit(s[0]) || s[0] == '+' || s[0] == '-')
    ensures r.Some? <==>
      var d := Unsigned(s);
      |d| > 0 && AllDigits(d) &&
      (if s[0] == '-' then DigitsValue(d) <= -MinInt else DigitsValue(d) <= MaxInt)
    ensures r.Some? ==> r.value == (if s[0] == '-' then -1 else 1) * DigitsValue(Unsigned(s))
  {
    var digits := Unsigned(s);
    if |digits| == 0 || !AllDigits(digits) then None
    else
      var v: int := if s[0] == '-' then 0 - DigitsValue(digits) as int else DigitsValue(digits);
      if MinInt <= v <= MaxInt then Some(v) else None
  }

  function DigitChar(d: nat): (c: char)
    requires d < 10
    ensures IsDigit(c) && c as int - '0' as int == d
  {
    (d + '0' as int) as char
  }

  /** The decimal digits of a natural number, with no leading zero. */
  function NatToString(n: nat): (s: string)
    ensures |s| > 0 && AllDigits(s)
    ensures |s| > 1 ==> s[0] != '0'
    decreases n
  {
    if n < 10 then [DigitChar(n)] else NatToString(n / 10) + [DigitChar(n % 10)]
  }

  /** `%d`: a '-' sign for negative numbers, then the digits. */
  function IntToString(n: int): (s: string)
    ensures |s| > 0
    ensures n >= 0 ==> AllDigits(s)
    ensures n < 0 ==> s[0] == '-' && AllDigits(s[1..])
  {
    if n < 0 then "-" + NatToString(-n) else NatToString(n)
  }

  lemma {:induction false} DigitsOfNat(n: nat)
    ensures DigitsValue(NatToString(n)) == n
    decreases n
  {
    var s := NatToString(n);
    if n >= 10 {
      DigitsOfNat(n / 10);
      assert s[..|s| - 1] == NatToString(n / 10);
    }
  }

  /** Reading back what `%d` wrote gives the number again, for every 64-bit value. */
  lemma AtoiOfIntToString(n: int)
    requires MinInt <= n <= MaxInt
    ensures Atoi(IntToString(n)) == Some(n)
  {
    var s := IntToString(n);
    if n < 0 {
      DigitsOfNat(-n);
      assert s[1..] == NatToString(-n);
    } else {
      DigitsOfNat(n);
    }
  }

  /** A decimal rendering never contains a line break. */
  lemma IntToStringHasNoNewline(n: int)
    ensures '\n' !in IntToString(n)
  {
    var s := IntToString(n);
    if n < 0 {
      assert forall i :: 1 <= i < |s| ==> s[i] == s[1..][i - 1];
    }
  }
}
