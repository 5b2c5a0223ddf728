/**
 * Kotlin's 64-bit `Long` and the two conversions the trash ledger uses to store
 * ids as strings: `Long.toString()` (decimal, a leading '-' for negatives) and
 * `String.toLongOrNull()` (an optional '+' or '-', then decimal digits, null on
 * anything else or on overflow).
 */
module Decimal {
  import opened Wrappers

  const MinLong: int := -0x8000_0000_0000_0000
  const MaxLong: int := 0x7FFF_FFFF_FFFF_FFFF

  /** A Kotlin `Long`. */
  type Long = x: int | MinLong <= x <= MaxLong

  predicate IsDigit(c: char) {
    '0' <= c <= '9'
  }

  predicate AllDigits(s: string) {
    forall i :: 0 <= i < |s| ==> IsDigit(s[i])
  }

  function DigitChar(d: nat): (c: char)
    requires d < 10
    ensures IsDigit(c) && c as int - '0' as int == d
  {
    (d + '0' as int) as char
  }

  /** The decimal numeral of `n`, most significant digit first. */
  function NatDigits(n: nat): (s: string)
    ensures |s| > 0 && AllDigits(s)
    ensures (s[0] == '0') == (n == 0)
    ensures |s| == 1 || s[0] != '0'
    decreases n
  {
    if n < 10 then [DigitChar(n)] else NatDigits(n / 10) + [DigitChar(n % 10)]
  }

  /** The value of a string of decimal digits (leading zeros allowed). */
  function DigitsValue(s: string): nat
    requires AllDigits(s)
    decreases |s|
  {
    if s == [] then 0
    else 10 * DigitsValue(s[..|s| - 1]) + (s[|s| - 1] as int - '0' as int)
  }

  /** `Long.toString()`: a '-' for negatives only, then the digits without leading zeros. */
  function LongToString(x: Long): (s: string)
    ensures IsNumeral(s) && (s[0] == '-') == (x < 0) && s[0] != '+'
    ensures |Unsigned(s)| == 1 || Unsigned(s)[0] != '0'
  {
    if x < 0 then "-" + NatDigits(-(x as int)) else NatDigits(x)
  }

  predicate IsSign(c: char) {
    c == '-' || c == '+'
  }

  /** A numeral without its sign, if it has one. */
  function Unsigned(s: string): string {
    if |s| > 0 && IsSign(s[0]) then s[1..] else s
  }

  /** An optional sign followed by one or more decimal digits. */
  predicate IsNumeral(s: string) {
    |Unsigned(s)| > 0 && AllDigits(Unsigned(s))
  }

  /** The signed value a numeral denotes, whatever its size. */
  function NumeralValue(s: string): int
    requires IsNumeral(s)
  {
    if s[0] == '-' then -(DigitsValue(Unsigned(s)) as int) else DigitsValue(Unsigned(s))
  }

  /**
   * `String.toLongOrNull()` in radix 10: the value of a numeral that fits in
   * a `Long`, and null for a numeral out of range and for anything else.
   */
  function ToLongOrNull(s: string): (r: Option<Long>)
    ensures r.Some? <==> IsNumeral(s) && MinLong <= NumeralValue(s) <= MaxLong
    ensures r.Some? ==> r.value == NumeralValue(s)
    ensures r.Some? ==> |s| > 0 && IsDigit(s[|s| - 1])
  {
    if |s| == 0 then None
    else if s[0] == '-' || s[0] == '+' then
      var digits := s[1..];
      if |digits| == 0 || !AllDigits(digits) then None
      else
        var v: int := if s[0] == '-' then -(DigitsValue(digits) as int) else DigitsValue(digits);
        if MinLong <= v <= MaxLong then Some(v) else None
    else if AllDigits(s) then
      var v := DigitsValue(s);
      if v <= MaxLong then Some(v) else None
    else None
  }

  /** Reading a numeral back gives the number it was written from. */
  lemma {:induction false} DigitsValueOfNatDigits(n: nat)
    ensures DigitsValue(NatDigits(n)) == n
  {
    if n >= 10 {
      var s := NatDigits(n);
      assert s[..|s| - 1] == NatDigits(n / 10);
      DigitsValueOfNatDigits(n / 10);
    }
  }

  /** Every id written with `toString` is read back as itself by `toLongOrNull`. */
  lemma ToLongOrNullOfLongToString(x: Long)
    ensures ToLongOrNull(LongToString(x)) == Some(x)
  {
    var s := LongToString(x);
    if x < 0 {
      assert s[1..] == NatDigits(-(x as int));
      DigitsValueOfNatDigits(-(x as int));
    } else {
      DigitsValueOfNatDigits(x);
    }
  }

  /** Distinct ids are written as distinct strings. */
  lemma LongToStringInjective(a: Long, b: Long)
    requires LongToString(a) == LongToString(b)
    ensures a == b
  {
    ToLongOrNullOfLongToString(a);
    ToLongOrNullOfLongToString(b);
  }

  /**
   * `toLongOrNull` also accepts numerals `toString` never writes: an explicit
   * '+' sign parses to the same id as the unsigned numeral.
   */
  lemma ToLongOrNullAcceptsPlusSign(x: Long)
    requires x >= 0
    ensures ToLongOrNull("+" + LongToString(x)) == Some(x)
    ensures "+" + LongToString(x) != LongToString(x)
  {
    var s := "+" + LongToString(x);
    assert s[1..] == NatDigits(x);
    DigitsValueOfNatDigits(x);
  }
}
