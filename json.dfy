/**
 * `JSON.stringify` and `JSON.parse` for the JSON the extension stores and
 * exchanges: objects whose members are all strings. An object is a list of
 * members in property order with distinct keys, as a JavaScript object is.
 * `Parse` yields `None` wherever `JSON.parse` would throw and also where the
 * text is valid JSON that is not such an object.
 */
module Json {
  import Seqs
  import opened Wrappers
  import Uri = UriComponent

  type Member = (string, string)

  predicate DistinctKeys(o: seq<Member>) {
    forall i, j :: 0 <= i < j < |o| ==> o[i].0 != o[j].0
  }

  /** A JavaScript object whose properties all hold strings. */
  type Object = o: seq<Member> | DistinctKeys(o) witness []

  function Keys(o: seq<Member>): set<string> {
    set i | 0 <= i < |o| :: o[i].0
  }

  lemma KeysCons(m: Member, o: seq<Member>)
    ensures Keys([m] + o) == {m.0} + Keys(o)
  {
    var r := [m] + o;
    forall x | x in Keys(r) ensures x in {m.0} + Keys(o) {
      var i :| 0 <= i < |r| && r[i].0 == x;
      if i > 0 { assert r[i] == o[i - 1]; }
    }
    forall x | x in Keys(o) ensures x in Keys(r) {
      var i :| 0 <= i < |o| && o[i].0 == x;
      assert r[i + 1] == o[i];
    }
    assert r[0].0 == m.0;
  }

  lemma DistinctCons(m: Member, o: seq<Member>)
    ensures DistinctKeys([m] + o) <==> DistinctKeys(o) && m.0 !in Keys(o)
  {
    var r := [m] + o;
    if DistinctKeys(r) {
      forall i, j | 0 <= i < j < |o| ensures o[i].0 != o[j].0 {
        assert o[i] == r[i + 1] && o[j] == r[j + 1];
      }
      forall i | 0 <= i < |o| ensures o[i].0 != m.0 {
        assert r[0] == m && r[i + 1] == o[i];
      }
    }
    if DistinctKeys(o) && m.0 !in Keys(o) {
      forall i, j | 0 <= i < j < |r| ensures r[i].0 != r[j].0 {
        assert r[j] == o[j - 1];
        if i > 0 { assert r[i] == o[i - 1]; } else { assert o[j - 1].0 in Keys(o); }
      }
    }
  }

  /** `o[k]`: the value of property `k`, or `undefined`. */
  function Get(o: seq<Member>, k: string): (r: Option<string>)
    ensures r.Some? <==> k in Keys(o)
  {
    if o == [] then None
    else
      KeysCons(o[0], o[1..]);
      assert [o[0]] + o[1..] == o;
      if o[0].0 == k then Some(o[0].1) else Get(o[1..], k)
  }

  /** `o[k] = v`: replaces the value of an existing property in place, or adds it last. */
  function Put(o: Object, k: string, v: string): (r: Object)
    ensures Keys(r) == Keys(o) + {k}
    ensures k !in Keys(o) ==> r == o + [(k, v)]
    decreases |o|
  {
    if o == [] then
      KeysCons((k, v), []);
      [(k, v)]
    else
      assert [o[0]] + o[1..] == o;
      KeysCons(o[0], o[1..]);
      DistinctCons(o[0], o[1..]);
      var rest: Object := o[1..];
      if o[0].0 == k then
        KeysCons((k, v), rest);
        DistinctCons((k, v), rest);
        [(k, v)] + rest
      else
        var tail := Put(rest, k, v);
        KeysCons(o[0], tail);
        DistinctCons(o[0], tail);
        assert k !in Keys(o) ==> [o[0]] + tail == o + [(k, v)];
        [o[0]] + tail
  }

  /** `{...a, ...b}`: the properties of `a` in order, then those of `b`, later ones overriding. */
  function Spread(a: Object, b: Object): (r: Object)
    decreases |b|
  {
    if b == [] then a else Spread(Put(a, b[0].0, b[0].1), b[1..])
  }

  lemma {:induction false} GetPut(o: Object, k: string, v: string, q: string)
    ensures Get(Put(o, k, v), q) == if q == k then Some(v) else Get(o, q)
    decreases |o|
  {
    if o != [] {
      var rest: Object := o[1..];
      assert [o[0]] + rest == o;
      DistinctCons(o[0], rest);
      if o[0].0 != k {
        GetPut(rest, k, v, q);
        var tail := Put(rest, k, v);
        assert Put(o, k, v) == [o[0]] + tail;
        assert ([o[0]] + tail)[1..] == tail;
      } else {
        assert ([(k, v)] + rest)[1..] == rest;
      }
    }
  }

  /** Each property of the spread object comes from `b` if `b` has it, otherwise from `a`. */
  lemma {:induction false} GetSpread(a: Object, b: Object, q: string)
    ensures Get(Spread(a, b), q) == if q in Keys(b) then Get(b, q) else Get(a, q)
    decreases |b|
  {
    if b != [] {
      var rest: Object := b[1..];
      assert [b[0]] + rest == b;
      KeysCons(b[0], rest);
      DistinctCons(b[0], rest);
      GetSpread(Put(a, b[0].0, b[0].1), rest, q);
      GetPut(a, b[0].0, b[0].1, q);
    }
  }

  /** Spreading properties that are all new appends them in order. */
  lemma {:induction false} SpreadFresh(a: Object, b: Object)
    requires Keys(a) !! Keys(b)
    ensures Spread(a, b) == a + b
    decreases |b|
  {
    if b != [] {
      var m := b[0];
      var rest: Object := b[1..];
      Seqs.HeadTail(b);
      var a' := Put(a, m.0, m.1);
      assert Keys(a') !! Keys(rest) && a' == a + [m] by {
        KeysCons(m, rest);
        DistinctCons(m, rest);
      }
      SpreadFresh(a', rest);
      Seqs.AppendAssoc(a, [m], rest);
    } else {
      assert a + b == a;
    }
  }

  // ----- JSON.stringify -----

  function HexLower(d: nat): (c: char)
    requires d < 16
  {
    if d < 10 then ('0' as int + d) as char else ('a' as int + d - 10) as char
  }

  /** How `JSON.stringify` writes one character inside a string literal. */
  function EscapeChar(c: char): (s: string)
    ensures |s| >= 1
  {
    if c == '"' then ['\\', '"']
    else if c == '\\' then ['\\', '\\']
    else if c as int == 8 then ['\\', 'b']
    else if c as int == 0xC then ['\\', 'f']
    else if c == '\n' then ['\\', 'n']
    else if c == '\r' then ['\\', 'r']
    else if c == '\t' then ['\\', 't']
    else if (c as int) < 0x20 then ['\\', 'u', '0', '0', HexLower(c as int / 16), HexLower(c as int % 16)]
    else [c]
  }

  function EscapeString(s: string): string {
    if s == [] then [] else EscapeChar(s[0]) + EscapeString(s[1..])
  }

  function Quote(s: string): string {
    "\"" + EscapeString(s) + "\""
  }

  function MemberText(m: Member): string {
    Quote(m.0) + ":" + Quote(m.1)
  }

  function MembersText(o: seq<Member>): string {
    if |o| == 0 then ""
    else if |o| == 1 then MemberText(o[0])
    else MemberText(o[0]) + "," + MembersText(o[1..])
  }

  /** `JSON.stringify(o)`: no white space, members in property order. */
  function Stringify(o: Object): string {
    "{" + MembersText(o) + "}"
  }

  // ----- JSON.parse -----

  predicate IsWs(c: char) {
    c == ' ' || c == '\t' || c == '\n' || c == '\r'
  }

  function SkipWs(s: string): (r: string)
    ensures |r| <= |s|
    ensures r == [] || !IsWs(r[0])
  {
    if s != [] && IsWs(s[0]) then SkipWs(s[1..]) else s
  }

  /**
   * The character written by the escape at the start of `s` and the number
   * of characters the escape spans. A `\u` escape of a surrogate code unit
   * is refused, since a character here is a whole scalar value.
   */
  function Unescape(s: string): (r: Option<(char, nat)>)
    requires |s| >= 2 && s[0] == '\\'
    ensures r.Some? ==> 2 <= r.value.1 <= |s|
  {
    match s[1]
    case '"' => Some(('"', 2))
    case '\\' => Some(('\\', 2))
    case '/' => Some(('/', 2))
    case 'b' => Some((8 as char, 2))
    case 'f' => Some((0xC as char, 2))
    case 'n' => Some(('\n', 2))
    case 'r' => Some(('\r', 2))
    case 't' => Some(('\t', 2))
    case 'u' =>
      if |s| >= 6 && Uri.IsHex(s[2]) && Uri.IsHex(s[3]) && Uri.IsHex(s[4]) && Uri.IsHex(s[5]) then
        var n := 4096 * Uri.HexValue(s[2]) + 256 * Uri.HexValue(s[3]) + 16 * Uri.HexValue(s[4]) + Uri.HexValue(s[5]);
        if n < 0xD800 || 0xE000 <= n then Some((n as char, 6)) else None
      else None
    case _ => None
  }

  function Prepend(c: char, r: Option<(string, string)>): Option<(string, string)> {
    match r
    case None => None
    case Some((v, rest)) => Some(([c] + v, rest))
  }

  /** The body of a string literal up to its closing quote, and what follows the quote. */
  function ParseChars(s: string): (r: Option<(string, string)>)
    ensures r.Some? ==> |r.value.1| < |s|
    decreases |s|
  {
    if s == [] then None
    else if s[0] == '"' then Some(([], s[1..]))
    else if s[0] == '\\' then
      if |s| < 2 then None
      else match Unescape(s)
        case None => None
        case Some((c, k)) => Prepend(c, ParseChars(s[k..]))
    else if (s[0] as int) < 0x20 then None
    else Prepend(s[0], ParseChars(s[1..]))
  }

  function ParseString(s: string): (r: Option<(string, string)>)
    ensures r.Some? ==> |r.value.1| < |s|
  {
    if s != [] && s[0] == '"' then ParseChars(s[1..]) else None
  }

  /** One `"key": "value"` member, and the text after it with white space skipped. */
  function ParseMember(s: string): (r: Option<(Member, string)>)
    ensures r.Some? ==> |r.value.1| < |s|
  {
    match ParseString(s)
    case None => None
    case Some((k, r1)) =>
      var r2 := SkipWs(r1);
      if r2 == [] || r2[0] != ':' then None
      else
        match ParseString(SkipWs(r2[1..]))
        case None => None
        case Some((v, r3)) => Some(((k, v), SkipWs(r3)))
  }

  /** Members separated by commas, assigned in order into `acc` (a repeated key keeps its first place and takes the last value). */
  function ParseMembers(s: string, acc: Object): (r: Option<(Object, string)>)
    decreases |s|
  {
    match ParseMember(s)
    case None => None
    case Some((m, rest)) =>
      var acc' := Put(acc, m.0, m.1);
      if rest != [] && rest[0] == ',' then ParseMembers(SkipWs(rest[1..]), acc')
      else Some((acc', rest))
  }

  /** `JSON.parse(s)` when `s` is an object whose members are all strings. */
  function Parse(s: string): (r: Option<Object>)
  {
    var t := SkipWs(s);
    if t == [] || t[0] != '{' then None
    else
      var u := SkipWs(t[1..]);
      if u != [] && u[0] == '}' then
        if SkipWs(u[1..]) == [] then Some([]) else None
      else
        match ParseMembers(u, [])
        case None => None
        case Some((o, r)) => if r != [] && r[0] == '}' && SkipWs(r[1..]) == [] then Some(o) else None
  }

  // ----- JSON.parse(JSON.stringify(o)) -----

  lemma HexLowerValue(d: nat)
    requires d < 16
    ensures Uri.IsHex(HexLower(d)) && Uri.HexValue(HexLower(d)) == d
  {
  }

  /** The escape `JSON.stringify` writes for `c` reads back as `c`. */
  lemma UnescapeChar(c: char, t: string)
    ensures ParseChars(EscapeChar(c) + t) == Prepend(c, ParseChars(t))
  {
    var s := EscapeChar(c) + t;
    if |EscapeChar(c)| == 1 {
      assert s[0] == c && s[1..] == t;
    } else if |EscapeChar(c)| == 2 {
      assert s[0] == '\\' && s[2..] == t;
      UnescapeShort(c, t);
    } else {
      UnescapeUnicode(c, t);
    }
  }

  lemma UnescapeShort(c: char, t: string)
    requires |EscapeChar(c)| == 2
    ensures Unescape(EscapeChar(c) + t) == Some((c, 2))
  {
    var s := EscapeChar(c) + t;
    assert s[1] == EscapeChar(c)[1];
  }

  /** A control character without a short escape is written as `\u00hh` and read back. */
  lemma UnescapeUnicode(c: char, t: string)
    requires |EscapeChar(c)| > 2
    ensures ParseChars(EscapeChar(c) + t) == Prepend(c, ParseChars(t))
  {
    var s := EscapeChar(c) + t;
    var n := c as int;
    assert n < 0x20;
    HexLowerValue(n / 16);
    HexLowerValue(n % 16);
    assert s[0] == '\\' && s[1] == 'u' && s[2] == '0' && s[3] == '0';
    assert s[4] == HexLower(n / 16) && s[5] == HexLower(n % 16);
    assert Unescape(s) == Some((c, 6)) by {
      assert 4096 * Uri.HexValue(s[2]) + 256 * Uri.HexValue(s[3]) + 16 * Uri.HexValue(s[4]) + Uri.HexValue(s[5]) == n;
    }
    assert s[6..] == t;
  }

  lemma {:induction false} ParseEscaped(v: string, rest: string)
    ensures ParseChars(EscapeString(v) + "\"" + rest) == Some((v, rest))
    decreases |v|
  {
    if v == [] {
      assert EscapeString(v) + "\"" + rest == "\"" + rest;
    } else {
      var t := EscapeString(v[1..]) + "\"" + rest;
      assert EscapeString(v) + "\"" + rest == EscapeChar(v[0]) + t;
      UnescapeChar(v[0], t);
      ParseEscaped(v[1..], rest);
      assert [v[0]] + v[1..] == v;
    }
  }

  lemma ParseQuoted(v: string, rest: string)
    ensures ParseString(Quote(v) + rest) == Some((v, rest))
  {
    assert Quote(v) + rest == "\"" + (EscapeString(v) + "\"" + rest);
    ParseEscaped(v, rest);
  }

  lemma ParseMemberText(m: Member, rest: string)
    requires rest != [] && !IsWs(rest[0])
    ensures ParseMember(MemberText(m) + rest) == Some((m, rest))
  {
    var after := ":" + Quote(m.1) + rest;
    MemberTextSplit(m, rest);
    ParseQuoted(m.0, after);
    ParseQuoted(m.1, rest);
  }

  lemma MemberTextSplit(m: Member, rest: string)
    ensures MemberText(m) + rest == Quote(m.0) + (":" + Quote(m.1) + rest)
    ensures (":" + Quote(m.1) + rest)[1..] == Quote(m.1) + rest
  {
  }

  lemma MembersTextStart(o: seq<Member>)
    requires o != []
    ensures MembersText(o) != [] && MembersText(o)[0] == '"'
  {
    assert MemberText(o[0])[0] == '"';
  }

  lemma MembersTextCons(o: seq<Member>)
    requires |o| >= 2
    ensures MembersText(o) + "}" == MemberText(o[0]) + ("," + (MembersText(o[1..]) + "}"))
  {
    var a, b := MemberText(o[0]), MembersText(o[1..]);
    assert MembersText(o) == a + "," + b;
    Seqs.AppendAssoc(a + ",", b, "}");
    Seqs.AppendAssoc(a, ",", b + "}");
  }

  lemma SkipWsQuote(t: string)
    requires t != [] && t[0] == '"'
    ensures SkipWs(t) == t
  {
  }

  /** Reading the members `JSON.stringify` wrote assigns them, in order, into `acc`. */
  lemma {:induction false} ParseMembersText(o: Object, acc: Object)
    requires o != []
    ensures ParseMembers(MembersText(o) + "}", acc) == Some((Spread(acc, o), "}"))
    decreases |o|
  {
    var acc' := Put(acc, o[0].0, o[0].1);
    var rest: Object := o[1..];
    assert Spread(acc, o) == Spread(acc', rest);
    if |o| == 1 {
      ParseMemberText(o[0], "}");
      assert rest == [];
    } else {
      var tail := MembersText(rest) + "}";
      MembersTextCons(o);
      ParseMemberText(o[0], "," + tail);
      assert ("," + tail)[1..] == tail;
      MembersTextStart(rest);
      SkipWsQuote(tail);
      assert ParseMembers(MembersText(o) + "}", acc) == ParseMembers(tail, acc');
      ParseMembersText(rest, acc');
    }
  }

  lemma ParseBraced(u: string, o: Object)
    requires u != [] && u[0] == '"'
    requires ParseMembers(u, []) == Some((o, "}"))
    ensures Parse(['{'] + u) == Some(o)
  {
    var s := ['{'] + u;
    assert SkipWs(s) == s;
    assert s[1..] == u;
    assert SkipWs(u) == u;
    assert SkipWs("}"[1..]) == [];
  }

  /** `JSON.parse(JSON.stringify(o))` gives back `o`, property order included. */
  lemma ParseStringify(o: Object)
    ensures Parse(Stringify(o)) == Some(o)
  {
    var u := MembersText(o) + "}";
    assert Stringify(o) == ['{'] + u;
    if o == [] {
      assert Stringify(o) == "{}";
      assert SkipWs("{}") == "{}";
      assert SkipWs("}") == "}";
      assert SkipWs("}"[1..]) == [];
    } else {
      MembersTextStart(o);
      ParseMembersText(o, []);
      SpreadFresh([], o);
      assert [] + o == o;
      ParseBraced(u, o);
    }
  }
}
