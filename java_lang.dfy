/**
 * The few pieces of java.lang that the modelled code leans on: 32-bit `int`
 * arithmetic, the ASCII part of `Character.isDigit`/`isLetter`, and
 * `Integer.parseInt`.
 */
module JavaLang {
  import opened Wrappers

  const INT_MIN: int := -0x8000_0000
  const INT_MAX: int := 0x7fff_ffff
  const TWO_TO_THE_32: int := 0x1_0000_0000

  /** A value of Java's `int`. */
  type Int32 = x: int | INT_MIN <= x <= INT_MAX

  /** Two's-complement wrap-around of a mathematical integer into `int`. */
  function Wrap32(v: int): (r: Int32)
    ensures (r - v) % TWO_TO_THE_32 == 0
    ensures INT_MIN <= v <= INT_MAX ==> r == v
  {
    (v - INT_MIN) % TWO_TO_THE_32 + INT_MIN
  }

  /** Two integers that agree modulo 2^32 wrap to the same `int`. */
  lemma Wrap32Congruent(a: int, b: int)
    requires (a - b) % TWO_TO_THE_32 == 0
    ensures Wrap32(a) == Wrap32(b)
  {
    var k := (a - b) / TWO_TO_THE_32;
    assert a - INT_MIN == (b - INT_MIN) + k * TWO_TO_THE_32;
    ModAddMultiple(b - INT_MIN, k);
  }

  lemma ModAddMultiple(x: int, k: int)
    ensures (x + k * TWO_TO_THE_32) % TWO_TO_THE_32 == x % TWO_TO_THE_32
  {
  }

  predicate IsDigit(c: char) { '0' <= c <= '9' }

  predicate IsLetter(c: char) { 'a' <= c <= 'z' || 'A' <= c <= 'Z' }

  predicate AllDigits(s: string) { forall k :: 0 <= k < |s| ==> IsDigit(s[k]) }

  function DigitValue(c: char): nat
    requires IsDigit(c)
  {
    c as int - '0' as int
  }

  /** The value of a run of decimal digits, most significant first. */
  function DigitsValue(s: string): nat
    requires AllDigits(s)
  {
    if s == [] then 0 else 10 * DigitsValue(s[..|s| - 1]) + DigitValue(s[|s| - 1])
  }

  /** The decimal text of a natural number, without leading zeros. */
  function NatToString(n: nat): (s: string)
    ensures |s| > 0 && IsDigit(s[0])
  {
    if n < 10 then [DigitChar(n)] else NatToString(n / 10) + [DigitChar(n % 10)]
  }

  function DigitChar(d: nat): (c: char)
    requires d < 10
    ensures IsDigit(c) && DigitValue(c) == d
  {
    ('0' as int + d) as char
  }

  /** The decimal text of a number is all digits, with no leading zero. */
  lemma {:induction false} NatToStringDigits(n: nat)
    ensures AllDigits(NatToString(n))
    ensures |NatToString(n)| > 1 ==> NatToString(n)[0] != '0'
  {
    if n >= 10 {
      NatToStringDigits(n / 10);
      var s := NatToString(n);
      assert s[0] == NatToString(n / 10)[0];
      assert forall k :: 0 <= k < |s| - 1 ==> s[k] == NatToString(n / 10)[k];
    }
  }

  /** Reading back the decimal text of `n` gives `n`. */
  lemma {:induction false} NatToStringValue(n: nat)
    ensures AllDigits(NatToString(n)) && DigitsValue(NatToString(n)) == n
  {
    NatToStringDigits(n);
    var s := NatToString(n);
    if n >= 10 {
      NatToStringValue(n / 10);
      assert s[..|s| - 1] == NatToString(n / 10);
    }
  }

  /**
   * `Integer.parseInt(s)`: an optional '+' or '-' followed by one or more
   * digits whose value fits in an `int`; anything else is a
   * NumberFormatException, here `None`.
   */
  function ParseInt(s: string): (r: Option<Int32>)
    ensures r.Some? ==> |s| > 0
    ensures r.Some? && AllDigits(s) ==> r.value == DigitsValue(s)
    ensures AllDigits(s) && s != [] && DigitsValue(s) <= INT_MAX ==> r == Some(DigitsValue(s))
  {
    if s == [] then None
    else if s[0] == '-' || s[0] == '+' then
      var digits := s[1..];
      if digits == [] || !AllDigits(digits) then None
      else
        var v: int := if s[0] == '-' then -(DigitsValue(digits) as int) else DigitsValue(digits);
        if INT_MIN <= v <= INT_MAX then Some(v) else None
    else if !AllDigits(s) then None
    else if DigitsValue(s) <= INT_MAX then Some(DigitsValue(s))
    else None
  }
}
