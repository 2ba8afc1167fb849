/**
 * Java's decimal rendering of a `Long`, as string concatenation produces it
 * (`"" + id` calls `Long.toString`): an optional minus sign followed by the
 * digits of the magnitude, with no leading zeros.
 */
module JavaText {

  predicate IsDigit(c: char) {
    '0' <= c <= '9'
  }

  predicate AllDigits(s: string) {
    forall i :: 0 <= i < |s| ==> IsDigit(s[i])
  }

  function DigitChar(d: nat): (c: char)
    requires d < 10
    ensures IsDigit(c)
  {
    (d + '0' as int) as char
  }

  ghost function DigitValue(c: char): nat
    requires IsDigit(c)
  {
    c as int - '0' as int
  }

  /** The decimal digits of `n`, most significant first. */
  function NatDigits(n: nat): (s: string)
    ensures |s| > 0 && AllDigits(s)
    ensures s[0] == '0' ==> s == "0"
    decreases n
  {
    if n < 10 then [DigitChar(n)] else NatDigits(n / 10) + [DigitChar(n % 10)]
  }

  /** `Long.toString(n)`. */
  function LongToString(n: int): (s: string)
    ensures |s| > 0
    ensures n < 0 <==> s[0] == '-'
    ensures n >= 0 ==> AllDigits(s)
    ensures n < 0 ==> AllDigits(s[1..])
  {
    if n < 0 then "-" + NatDigits(-n) else NatDigits(n)
  }

  /** The number a string of decimal digits denotes, read most significant first. */
  ghost function DigitsValue(s: string): nat
    requires AllDigits(s)
    decreases |s|
  {
    if s == [] then 0 else DigitsValue(s[..|s| - 1]) * 10 + DigitValue(s[|s| - 1])
  }

  /** Reading the digits back gives the number: the rendering loses nothing. */
  lemma {:induction false} NatDigitsRoundTrip(n: nat)
    ensures DigitsValue(NatDigits(n)) == n
    decreases n
  {
    var s := NatDigits(n);
    if n >= 10 {
      NatDigitsRoundTrip(n / 10);
      assert s[..|s| - 1] == NatDigits(n / 10);
      assert s[|s| - 1] == DigitChar(n % 10);
    } else {
      assert s[..|s| - 1] == [];
    }
  }

  /** Distinct numbers render as distinct strings. */
  lemma LongToStringInjective(a: int, b: int)
    requires LongToString(a) == LongToString(b)
    ensures a == b
  {
    if a < 0 && b < 0 {
      assert NatDigits(-a) == LongToString(a)[1..] == LongToString(b)[1..] == NatDigits(-b);
      NatDigitsRoundTrip(-a);
      NatDigitsRoundTrip(-b);
    } else if a >= 0 && b >= 0 {
      NatDigitsRoundTrip(a);
      NatDigitsRoundTrip(b);
    }
  }

  /** A few renderings written out. */
  lemma LongToStringExamples()
    ensures LongToString(0) == "0"
    ensures LongToString(7) == "7"
    ensures LongToString(42) == "42"
    ensures LongToString(-305) == "-305"
  {
    assert NatDigits(42) == NatDigits(4) + [DigitChar(2)];
    assert NatDigits(305) == NatDigits(30) + [DigitChar(5)];
    assert NatDigits(30) == NatDigits(3) + [DigitChar(0)];
  }
}
