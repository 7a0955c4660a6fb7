/**
 * Decimal numerals as JavaScript's `String(n)` writes a non-negative
 * integer, and the prefix test used on strings throughout the model.
 */
module Text {

  /** The decimal digit character for `d`. */
  function DigitChar(d: nat): (c: char)
    requires d < 10
    ensures '0' <= c <= '9'
    ensures c as int - '0' as int == d
  {
    ('0' as int + d) as char
  }

  /** `String(n)`: the shortest decimal numeral of `n`. */
  function NatToString(n: nat): (s: string)
    ensures |s| >= 1
    ensures n >= 10 <==> |s| >= 2
    decreases n
  {
    if n < 10 then [DigitChar(n)] else NatToString(n / 10) + [DigitChar(n % 10)]
  }

  predicate IsDigit(c: char) {
    '0' <= c <= '9'
  }

  /** Every character of a numeral is a decimal digit. */
  lemma {:induction false} NatToStringDigits(n: nat)
    ensures forall i :: 0 <= i < |NatToString(n)| ==> IsDigit(NatToString(n)[i])
    decreases n
  {
    if n >= 10 {
      NatToStringDigits(n / 10);
    }
  }

  /** Different numbers have different numerals. */
  lemma {:induction false} NatToStringInjective(m: nat, n: nat)
    requires NatToString(m) == NatToString(n)
    ensures m == n
    decreases n
  {
    var s := NatToString(n);
    if m >= 10 && n >= 10 {
      assert NatToString(m)[|s| - 1] == DigitChar(m % 10);
      assert s[|s| - 1] == DigitChar(n % 10);
      assert NatToString(m / 10) == NatToString(m)[..|s| - 1];
      assert NatToString(n / 10) == s[..|s| - 1];
      NatToStringInjective(m / 10, n / 10);
    } else {
      assert m < 10 && n < 10;
      assert s[0] == DigitChar(n) && NatToString(m)[0] == DigitChar(m);
    }
  }

  predicate StartsWith(s: string, prefix: string) {
    |prefix| <= |s| && s[..|prefix|] == prefix
  }
}
