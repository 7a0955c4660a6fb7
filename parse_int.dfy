/**
 * JavaScript's `parseInt(s)` with no radix argument: leading white space is
 * skipped, one sign is accepted, a `0x`/`0X` prefix selects base 16, and the
 * longest run of digits that follows is read. No digits at all is `NaN`,
 * written here as `None`.
 */
module JsParseInt {
  import opened Wrappers
  import opened Text

  /** The white space and line terminators `parseInt` skips. */
  predicate IsJsSpace(c: char) {
    var n := c as int;
    n == 0x9 || n == 0xA || n == 0xB || n == 0xC || n == 0xD || n == 0x20 || n == 0xA0
    || n == 0x1680 || (0x2000 <= n <= 0x200A) || n == 0x2028 || n == 0x2029
    || n == 0x202F || n == 0x205F || n == 0x3000 || n == 0xFEFF
  }

  function TrimStart(s: string): (r: string)
    ensures |r| <= |s|
    ensures r == [] || !IsJsSpace(r[0])
  {
    if s != [] && IsJsSpace(s[0]) then TrimStart(s[1..]) else s
  }

  /** The value of `c` as a digit in base `radix` (10 or 16), if it is one. */
  function DigitValue(c: char, radix: nat): (d: Option<nat>)
    ensures d.Some? ==> d.value < radix || radix < 10
  {
    if '0' <= c <= '9' then Some(c as int - '0' as int)
    else if radix == 16 && 'a' <= c <= 'f' then Some(c as int - 'a' as int + 10)
    else if radix == 16 && 'A' <= c <= 'F' then Some(c as int - 'A' as int + 10)
    else None
  }

  /** The length of the run of base-`radix` digits at the start of `s`. */
  function DigitRun(s: string, radix: nat): (k: nat)
    ensures k <= |s|
    ensures forall i :: 0 <= i < k ==> DigitValue(s[i], radix).Some?
    ensures k < |s| ==> DigitValue(s[k], radix).None?
  {
    if s != [] && DigitValue(s[0], radix).Some? then 1 + DigitRun(s[1..], radix) else 0
  }

  /** The number written by a string of base-`radix` digits, most significant first. */
  function DigitsValue(s: string, radix: nat): nat
    requires forall i :: 0 <= i < |s| ==> DigitValue(s[i], radix).Some?
  {
    if s == [] then 0
    else DigitsValue(s[..|s| - 1], radix) * radix + DigitValue(s[|s| - 1], radix).value
  }

  /** The digits that follow an optional sign, read in base 16 after `0x`, else base 10. */
  function Magnitude(t: string): Option<nat> {
    var hex := |t| >= 2 && t[0] == '0' && (t[1] == 'x' || t[1] == 'X');
    var radix := if hex then 16 else 10;
    var u := if hex then t[2..] else t;
    var k := DigitRun(u, radix);
    if k == 0 then None else Some(DigitsValue(u[..k], radix))
  }

  /** `parseInt(s)`; `None` is `NaN`. */
  function ParseInt(s: string): Option<int> {
    var t := TrimStart(s);
    if t != [] && t[0] == '-' then
      match Magnitude(t[1..])
      case None => None
      case Some(m) => Some(0 - m)
    else
      var u := if t != [] && t[0] == '+' then t[1..] else t;
      match Magnitude(u)
      case None => None
      case Some(m) => Some(m)
  }

  /** `parseInt(s) || 0`: `NaN` and zero both become 0. */
  function IntOrZero(s: string): (n: int)
    ensures n != 0 ==> ParseInt(s) == Some(n)
    ensures ParseInt(s).None? ==> n == 0
  {
    match ParseInt(s)
    case None => 0
    case Some(v) => v
  }

  lemma {:induction false} DigitsValueOfNumeral(n: nat)
    ensures forall i :: 0 <= i < |NatToString(n)| ==> DigitValue(NatToString(n)[i], 10).Some?
    ensures DigitsValue(NatToString(n), 10) == n
    decreases n
  {
    NatToStringDigits(n);
    var s := NatToString(n);
    if n >= 10 {
      DigitsValueOfNumeral(n / 10);
      assert s[..|s| - 1] == NatToString(n / 10);
    }
  }

  lemma MagnitudeOfDigits(s: string)
    requires s != [] && forall i :: 0 <= i < |s| ==> IsDigit(s[i])
    ensures forall i :: 0 <= i < |s| ==> DigitValue(s[i], 10).Some?
    ensures Magnitude(s) == Some(DigitsValue(s, 10))
  {
    assert !(|s| >= 2 && s[0] == '0' && (s[1] == 'x' || s[1] == 'X')) by {
      if |s| >= 2 { assert IsDigit(s[1]); }
    }
    assert DigitRun(s, 10) == |s|;
    assert s[..|s|] == s;
  }

  /** `parseInt(String(n)) == n` for every non-negative integer `n`. */
  lemma ParseIntOfNumeral(n: nat)
    ensures ParseInt(NatToString(n)) == Some(n)
  {
    var s := NatToString(n);
    NatToStringDigits(n);
    DigitsValueOfNumeral(n);
    assert IsDigit(s[0]);
    assert TrimStart(s) == s;
    MagnitudeOfDigits(s);
  }
}
