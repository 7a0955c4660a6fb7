/**
 * JavaScript's `encodeURIComponent` and `decodeURIComponent`, as the
 * ECMAScript standard defines them (sections "Encode" and "Decode" of
 * ECMA-262): characters outside the unreserved set are written as the
 * UTF-8 bytes of their code point, each as `%HH` with upper-case hex;
 * decoding accepts either case and fails (URIError) on a malformed escape
 * or an invalid UTF-8 sequence. Characters here are Unicode scalar values,
 * so the lone surrogates that make `encodeURIComponent` throw do not arise.
 */
module UriComponent {
  import Seqs
  import opened Wrappers

  /** The URIError that `decodeURIComponent` throws. */
  datatype UriError = UriError

  type Byte = b: int | 0 <= b < 256

  /** The characters `encodeURIComponent` leaves unescaped. */
  predicate Unreserved(c: char) {
    || ('A' <= c <= 'Z') || ('a' <= c <= 'z') || ('0' <= c <= '9')
    || c == '-' || c == '_' || c == '.' || c == '!' || c == '~'
    || c == '*' || c == '\'' || c == '(' || c == ')'
  }

  function HexUpper(d: nat): (c: char)
    requires d < 16
  {
    if d < 10 then ('0' as int + d) as char else ('A' as int + d - 10) as char
  }

  predicate IsHex(c: char) {
    ('0' <= c <= '9') || ('A' <= c <= 'F') || ('a' <= c <= 'f')
  }

  function HexValue(c: char): (d: nat)
    requires IsHex(c)
    ensures d < 16
  {
    if '0' <= c <= '9' then c as int - '0' as int
    else if 'A' <= c <= 'F' then c as int - 'A' as int + 10
    else c as int - 'a' as int + 10
  }

  /** `%HH` for one byte. */
  function Escape(b: Byte): (s: string)
    ensures |s| == 3 && s[0] == '%'
  {
    ['%', HexUpper(b / 16), HexUpper(b % 16)]
  }

  /** The UTF-8 encoding of a scalar value. */
  function Utf8(c: char): (bs: seq<Byte>)
    ensures 1 <= |bs| <= 4
  {
    var n := c as int;
    if n < 0x80 then [n]
    else if n < 0x800 then [0xC0 + n / 64, 0x80 + n % 64]
    else if n < 0x1_0000 then [0xE0 + n / 4096, 0x80 + (n / 64) % 64, 0x80 + n % 64]
    else [0xF0 + n / 262144, 0x80 + (n / 4096) % 64, 0x80 + (n / 64) % 64, 0x80 + n % 64]
  }

  function EscapeBytes(bs: seq<Byte>): (s: string)
    ensures |s| == 3 * |bs|
  {
    if bs == [] then [] else Escape(bs[0]) + EscapeBytes(bs[1..])
  }

  function EncodeChar(c: char): (s: string)
    ensures |s| >= 1
  {
    if Unreserved(c) then [c] else EscapeBytes(Utf8(c))
  }

  /** `encodeURIComponent(s)`. */
  function Encode(s: string): (r: string)
  {
    if s == [] then [] else EncodeChar(s[0]) + Encode(s[1..])
  }

  /** The byte written by the escape at the start of `s`, if there is one. */
  function EscapeAt(s: string): Option<Byte> {
    if |s| >= 3 && s[0] == '%' && IsHex(s[1]) && IsHex(s[2])
    then Some(16 * HexValue(s[1]) + HexValue(s[2]))
    else None
  }

  /** The six payload bits of the `k`-th escape of `s` when it is a UTF-8 continuation byte. */
  function ContinuationAt(s: string, k: nat): Option<int> {
    if 3 * k > |s| then None
    else match EscapeAt(s[3 * k..])
      case Some(b) => if 0x80 <= b < 0xC0 then Some(b - 0x80) else None
      case None => None
  }

  predicate IsScalar(n: int) {
    (0 <= n < 0xD800) || (0xE000 <= n < 0x11_0000)
  }

  /**
   * Decodes the escape sequence at the start of `s` (which starts with `%`)
   * into one character and the number of characters it spans.
   */
  function DecodeEscapes(s: string): (r: Option<(char, nat)>)
    requires |s| > 0 && s[0] == '%'
    ensures r.Some? ==> 3 <= r.value.1 <= |s|
  {
    match EscapeAt(s)
    case None => None
    case Some(b0) =>
      if b0 < 0x80 then Some((b0 as char, 3))
      else if 0xC0 <= b0 < 0xE0 then
        match ContinuationAt(s, 1)
        case None => None
        case Some(c1) =>
          var n := (b0 - 0xC0) * 64 + c1;
          if 0x80 <= n then Some((n as char, 6)) else None
      else if 0xE0 <= b0 < 0xF0 then
        match (ContinuationAt(s, 1), ContinuationAt(s, 2))
        case (Some(c1), Some(c2)) =>
          var n := (b0 - 0xE0) * 4096 + c1 * 64 + c2;
          if 0x800 <= n && IsScalar(n) then Some((n as char, 9)) else None
        case _ => None
      else if 0xF0 <= b0 < 0xF8 then
        match (ContinuationAt(s, 1), ContinuationAt(s, 2), ContinuationAt(s, 3))
        case (Some(c1), Some(c2), Some(c3)) =>
          var n := (b0 - 0xF0) * 262144 + c1 * 4096 + c2 * 64 + c3;
          if 0x1_0000 <= n < 0x11_0000 then Some((n as char, 12)) else None
        case _ => None
      else None
  }

  /** `decodeURIComponent(s)`: fails exactly where JavaScript throws URIError. */
  function Decode(s: string): (r: Result<string, UriError>)
    decreases |s|
  {
    if s == [] then Ok([])
    else if s[0] != '%' then
      match Decode(s[1..])
      case Ok(t) => Ok([s[0]] + t)
      case Err(e) => Err(e)
    else
      match DecodeEscapes(s)
      case None => Err(UriError)
      case Some((c, k)) =>
        match Decode(s[k..])
        case Ok(t) => Ok([c] + t)
        case Err(e) => Err(e)
  }

  // ----- Proofs -----

  lemma EscapeRoundTrip(b: Byte, rest: string)
    ensures EscapeAt(Escape(b) + rest) == Some(b)
  {
    var s := Escape(b) + rest;
    assert s[1] == HexUpper(b / 16) && s[2] == HexUpper(b % 16);
  }

  lemma ContinuationFromEscape(s: string, k: nat, b: Byte)
    requires 3 * k <= |s| && 0x80 <= b < 0xC0
    requires EscapeAt(s[3 * k..]) == Some(b)
    ensures ContinuationAt(s, k) == Some(b as int - 0x80)
  {
  }

  lemma ContinuationOfEscapes(bs: seq<Byte>, rest: string, k: nat)
    requires k < |bs| && 0x80 <= bs[k] < 0xC0
    ensures ContinuationAt(EscapeBytes(bs) + rest, k) == Some(bs[k] as int - 0x80)
  {
    var e := EscapeBytes(bs);
    var s := e + rest;
    var tail := EscapeBytes(bs[k + 1..]) + rest;
    var i := 3 * k;
    assert i <= |e|;
    Seqs.DropAppend(e, rest, i);
    EscapeBytesSuffix(bs, k);
    Seqs.AppendAssoc(Escape(bs[k]), EscapeBytes(bs[k + 1..]), rest);
    EscapeRoundTrip(bs[k], tail);
    ContinuationFromEscape(s, k, bs[k]);
  }

  lemma {:induction false} EscapeBytesSuffix(bs: seq<Byte>, k: nat)
    requires k < |bs|
    ensures EscapeBytes(bs)[3 * k..] == Escape(bs[k]) + EscapeBytes(bs[k + 1..])
  {
    if k > 0 {
      EscapeBytesSuffix(bs[1..], k - 1);
      assert bs[1..][k - 1] == bs[k] && bs[1..][k..] == bs[k + 1..];
      assert EscapeBytes(bs)[3 * k..] == EscapeBytes(bs[1..])[3 * (k - 1)..];
    } else {
      assert bs[k + 1..] == bs[1..];
    }
  }

  lemma SplitDigits(n: int)
    requires 0 <= n
    ensures n == 64 * (n / 64) + n % 64
    ensures n / 64 == 64 * (n / 4096) + (n / 64) % 64
    ensures n / 4096 == 64 * (n / 262144) + (n / 4096) % 64
  {
  }

  /** The escapes of a non-unreserved character decode back to it. */
  lemma DecodeEscapesOfChar(c: char, rest: string)
    requires !Unreserved(c)
    ensures EncodeChar(c)[0] == '%'
    ensures DecodeEscapes(EncodeChar(c) + rest) == Some((c, |EncodeChar(c)|))
  {
    FirstEscape(c, rest);
    var n := c as int;
    if n < 0x80 {
      DecodeOne(c, rest);
    } else if n < 0x800 {
      DecodeTwo(c, rest);
    } else if n < 0x1_0000 {
      DecodeThree(c, rest);
    } else {
      DecodeFour(c, rest);
    }
  }

  /** The escapes of a character start with the escape of its first UTF-8 byte. */
  lemma FirstEscape(c: char, rest: string)
    requires !Unreserved(c)
    ensures EncodeChar(c) == EscapeBytes(Utf8(c)) && EncodeChar(c)[0] == '%'
    ensures EscapeAt(EscapeBytes(Utf8(c)) + rest) == Some(Utf8(c)[0])
  {
    var bs := Utf8(c);
    assert EscapeBytes(bs) + rest == Escape(bs[0]) + (EscapeBytes(bs[1..]) + rest);
    EscapeRoundTrip(bs[0], EscapeBytes(bs[1..]) + rest);
  }

  lemma DecodeOne(c: char, rest: string)
    requires !Unreserved(c) && c as int < 0x80
    requires EscapeAt(EscapeBytes(Utf8(c)) + rest) == Some(Utf8(c)[0])
    ensures DecodeEscapes(EscapeBytes(Utf8(c)) + rest) == Some((c, 3))
  {
  }

  /** The two UTF-8 bytes of a character from U+0080 to U+07FF: a lead byte and a continuation byte. */
  lemma Utf8Two(c: char)
    requires 0x80 <= c as int < 0x800
    ensures var bs := Utf8(c);
      && |bs| == 2 && 0xC0 <= bs[0] < 0xE0 && 0x80 <= bs[1] < 0xC0
      && (bs[0] as int - 0xC0) * 64 + (bs[1] as int - 0x80) == c as int
  {
    SplitDigits(c as int);
  }

  lemma Utf8Three(c: char)
    requires 0x800 <= c as int < 0x1_0000
    ensures var bs := Utf8(c);
      && |bs| == 3 && 0xE0 <= bs[0] < 0xF0 && 0x80 <= bs[1] < 0xC0 && 0x80 <= bs[2] < 0xC0
      && (bs[0] as int - 0xE0) * 4096 + (bs[1] as int - 0x80) * 64 + (bs[2] as int - 0x80) == c as int
  {
    SplitDigits(c as int);
  }

  lemma Utf8Four(c: char)
    requires 0x1_0000 <= c as int
    ensures var bs := Utf8(c);
      && |bs| == 4 && 0xF0 <= bs[0] < 0xF8 && 0x80 <= bs[1] < 0xC0 && 0x80 <= bs[2] < 0xC0 && 0x80 <= bs[3] < 0xC0
      && (bs[0] as int - 0xF0) * 262144 + (bs[1] as int - 0x80) * 4096 + (bs[2] as int - 0x80) * 64 + (bs[3] as int - 0x80) == c as int
  {
    SplitDigits(c as int);
  }

  lemma DecodeTwo(c: char, rest: string)
    requires !Unreserved(c) && 0x80 <= c as int < 0x800
    requires EscapeAt(EscapeBytes(Utf8(c)) + rest) == Some(Utf8(c)[0])
    ensures DecodeEscapes(EscapeBytes(Utf8(c)) + rest) == Some((c, 6))
  {
    var bs := Utf8(c);
    Utf8Two(c);
    ContinuationOfEscapes(bs, rest, 1);
  }

  lemma DecodeThree(c: char, rest: string)
    requires !Unreserved(c) && 0x800 <= c as int < 0x1_0000
    requires EscapeAt(EscapeBytes(Utf8(c)) + rest) == Some(Utf8(c)[0])
    ensures DecodeEscapes(EscapeBytes(Utf8(c)) + rest) == Some((c, 9))
  {
    var bs := Utf8(c);
    Utf8Three(c);
    ContinuationOfEscapes(bs, rest, 1);
    ContinuationOfEscapes(bs, rest, 2);
  }

  lemma DecodeFour(c: char, rest: string)
    requires !Unreserved(c) && 0x1_0000 <= c as int
    requires EscapeAt(EscapeBytes(Utf8(c)) + rest) == Some(Utf8(c)[0])
    ensures DecodeEscapes(EscapeBytes(Utf8(c)) + rest) == Some((c, 12))
  {
    var bs := Utf8(c);
    Utf8Four(c);
    ContinuationOfEscapes(bs, rest, 1);
    ContinuationOfEscapes(bs, rest, 2);
    ContinuationOfEscapes(bs, rest, 3);
  }

  /** `decodeURIComponent(encodeURIComponent(s)) == s`. */
  lemma {:induction false} DecodeEncode(s: string)
    ensures Decode(Encode(s)) == Ok(s)
  {
    if s != [] {
      var c := s[0];
      var e := Encode(s);
      assert e == EncodeChar(c) + Encode(s[1..]);
      DecodeEncode(s[1..]);
      if Unreserved(c) {
        assert e[0] == c && c != '%' && e[1..] == Encode(s[1..]);
        assert s == [c] + s[1..];
      } else {
        DecodeEscapesOfChar(c, Encode(s[1..]));
        assert e[|EncodeChar(c)|..] == Encode(s[1..]);
        assert s == [c] + s[1..];
      }
    }
  }

  /** Encoding works character by character, so it distributes over concatenation. */
  lemma {:induction false} EncodeAppend(a: string, b: string)
    ensures Encode(a + b) == Encode(a) + Encode(b)
  {
    if a != [] {
      assert (a + b)[0] == a[0] && (a + b)[1..] == a[1..] + b;
      EncodeAppend(a[1..], b);
    } else {
      assert a + b == b;
    }
  }

  /** Decimal numerals (the chunk count) are left as they are. */
  lemma {:induction false} EncodeUnreserved(s: string)
    requires forall i :: 0 <= i < |s| ==> Unreserved(s[i])
    ensures Encode(s) == s
  {
    if s != [] {
      EncodeUnreserved(s[1..]);
    }
  }
}
