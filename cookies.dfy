/**
 * The credential cookie codec (src/util/cookies.ts). The credential record is
 * written as JSON, percent-encoded once, cut into chunks of at most 3800
 * characters and sent as `Set-Cookie` headers: a count cookie
 * `emayl-cookie-auth-count` followed by `emayl-cookie-auth-chunk-0 .. n-1`.
 * Reading it back takes the count, then the chunks in index order.
 *
 * The `cookie` library's `serialize` percent-encodes every value once more;
 * a `SetCookie` record holds the value exactly as it goes on the wire, and
 * the browser stores it as it is, so a chunk read back from the store is
 * encoded twice.
 */
module Cookies {
  import Seqs
  import opened Wrappers
  import opened Text
  import opened JsParseInt
  import Uri = UriComponent
  import Json

  const ChunkSize: nat := 3800
  const Prefix: string := "emayl-cookie"

  function CountName(): string {
    Prefix + "-auth-count"
  }

  function ChunkName(i: nat): string {
    Prefix + "-auth-chunk-" + NatToString(i)
  }

  // ----- Set-Cookie headers -----

  /** One `Set-Cookie` header as `serialize(name, value, options)` writes it. */
  datatype SetCookie = SetCookie(name: string, value: string, path: string, httpOnly: bool, secure: bool)

  /** `serialize` with the options `wrapCookie` uses: `httpOnly`, path `/`, `secure` outside development. */
  function Serialize(name: string, raw: string, secure: bool): (h: SetCookie)
    ensures h.name == name && h.path == "/" && h.httpOnly && h.secure == secure
  {
    SetCookie(name, Uri.Encode(raw), "/", true, secure)
  }

  /** The value `serialize` stores decodes back to the raw value. */
  lemma SerializeDecodes(name: string, raw: string, secure: bool)
    ensures Uri.Decode(Serialize(name, raw, secure).value) == Ok(raw)
  {
    Uri.DecodeEncode(raw);
  }

  /** `Math.ceil(len / 3800)`. */
  function NumChunks(len: nat): (n: nat)
    ensures n * ChunkSize >= len
    ensures n > 0 ==> (n - 1) * ChunkSize < len
  {
    (len + ChunkSize - 1) / ChunkSize
  }

  function Min(a: nat, b: nat): nat {
    if a <= b then a else b
  }

  /** `e.slice(i * 3800, (i + 1) * 3800)`; `slice` clamps both ends to the length. */
  function Chunk(e: string, i: nat): string {
    e[Min(i * ChunkSize, |e|)..Min((i + 1) * ChunkSize, |e|)]
  }

  /** The headers for chunks `0 .. k-1`, appended in index order. */
  function ChunkCookies(e: string, secure: bool, k: nat): (hs: seq<SetCookie>)
    ensures |hs| == k
  {
    if k == 0 then [] else ChunkCookies(e, secure, k - 1) + [Serialize(ChunkName(k - 1), Chunk(e, k - 1), secure)]
  }

  /** The headers `wrapCookie` returns for an encoded credential `e`, in order. */
  function WrappedCookies(e: string, secure: bool): seq<SetCookie> {
    var n := NumChunks(|e|);
    [Serialize(CountName(), NatToString(n), secure)] + ChunkCookies(e, secure, n)
  }

  /** The string `wrapCookie` cuts into chunks: the record as JSON, percent-encoded. */
  function EncodedRecord(c: Json.Object): string {
    Uri.Encode(Json.Stringify(c))
  }

  /**
   * `wrapCookie(c)`: the count header first, then one header per chunk,
   * appended in index order.
   */
  method WrapCookie(c: Json.Object, secure: bool) returns (headers: seq<SetCookie>)
    ensures headers == WrappedCookies(EncodedRecord(c), secure)
  {
    var e := Uri.Encode(Json.Stringify(c));
    var n := NumChunks(|e|);
    ghost var all := WrappedCookies(e, secure);
    WrappedStart(e, secure);
    headers := [Serialize(CountName(), NatToString(n), secure)];
    var i := 0;
    while i < n
      invariant 0 <= i <= n
      invariant headers == all[..i + 1]
    {
      WrappedAt(e, secure, i);
      Seqs.TakeNext(all, i + 1);
      headers := headers + [Serialize(ChunkName(i), Chunk(e, i), secure)];
      i := i + 1;
    }
    Seqs.TakeAll(all);
  }

  /** The wrapped headers open with the count cookie, followed by one header per chunk. */
  lemma WrappedStart(e: string, secure: bool)
    ensures |WrappedCookies(e, secure)| == NumChunks(|e|) + 1
    ensures WrappedCookies(e, secure)[..1] == [Serialize(CountName(), NatToString(NumChunks(|e|)), secure)]
  {
  }

  /** Chunk header `i` is the `serialize` of chunk `i` under its name. */
  lemma {:induction false} ChunkCookiesAt(e: string, secure: bool, k: nat, i: nat)
    requires i < k
    ensures ChunkCookies(e, secure, k)[i] == Serialize(ChunkName(i), Chunk(e, i), secure)
  {
    if i < k - 1 {
      ChunkCookiesAt(e, secure, k - 1, i);
    }
  }

  /** The header for chunk `i` sits right after the count header and the chunks before it. */
  lemma WrappedAt(e: string, secure: bool, i: nat)
    requires i < NumChunks(|e|)
    ensures |WrappedCookies(e, secure)| == NumChunks(|e|) + 1
    ensures WrappedCookies(e, secure)[i + 1] == Serialize(ChunkName(i), Chunk(e, i), secure)
  {
    ChunkCookiesAt(e, secure, NumChunks(|e|), i);
  }

  // ----- facts about the chunks -----

  /** The first `k` chunks, joined in order. */
  function Joined(e: string, k: nat): string {
    if k == 0 then "" else Joined(e, k - 1) + Chunk(e, k - 1)
  }

  /** Joining the first `k` chunks gives the first `k * 3800` characters. */
  lemma {:induction false} JoinedPrefix(e: string, k: nat)
    ensures Joined(e, k) == e[..Min(k * ChunkSize, |e|)]
  {
    if k > 0 {
      JoinedPrefix(e, k - 1);
      var a, b := Min((k - 1) * ChunkSize, |e|), Min(k * ChunkSize, |e|);
      assert e[..a] + e[a..b] == e[..b];
    }
  }

  /**
   * Every chunk has at most 3800 characters, all but the last exactly 3800,
   * none is empty, and joining them in index order gives `e` back.
   */
  lemma ChunksCover(e: string)
    ensures var n := NumChunks(|e|);
      && (forall i :: 0 <= i < n ==> 0 < |Chunk(e, i)| <= ChunkSize)
      && (forall i :: 0 <= i < n - 1 ==> |Chunk(e, i)| == ChunkSize)
      && Joined(e, n) == e
  {
    var n := NumChunks(|e|);
    JoinedPrefix(e, n);
    assert e[..|e|] == e;
  }

  // ----- names -----

  lemma ChunkNamesDistinct(i: nat, j: nat)
    requires ChunkName(i) == ChunkName(j)
    ensures i == j
  {
    var p := Prefix + "-auth-chunk-";
    assert ChunkName(i)[|p|..] == NatToString(i);
    assert ChunkName(j)[|p|..] == NatToString(j);
    NatToStringInjective(i, j);
  }

  lemma CountNameNotChunk(i: nat)
    ensures CountName() != ChunkName(i)
  {
    assert CountName()[19] == 'o';
    assert ChunkName(i)[19] == 'h';
  }

  // ----- the browser's cookie store -----

  /** What the browser stores after applying `headers` in order: each sets its name to its value. */
  function Apply(jar: map<string, string>, headers: seq<SetCookie>): map<string, string>
    decreases |headers|
  {
    if headers == [] then jar else Apply(jar[headers[0].name := headers[0].value], headers[1..])
  }

  predicate DistinctNames(headers: seq<SetCookie>) {
    forall i, j :: 0 <= i < j < |headers| ==> headers[i].name != headers[j].name
  }

  lemma {:induction false} ApplyOther(jar: map<string, string>, headers: seq<SetCookie>, k: string)
    requires forall i :: 0 <= i < |headers| ==> headers[i].name != k
    ensures (k in Apply(jar, headers)) == (k in jar)
    ensures k in jar ==> Apply(jar, headers)[k] == jar[k]
    decreases |headers|
  {
    if headers != [] {
      ApplyOther(jar[headers[0].name := headers[0].value], headers[1..], k);
    }
  }

  /** With distinct names, every header's value ends up in the store. */
  lemma {:induction false} ApplyDistinct(jar: map<string, string>, headers: seq<SetCookie>, p: nat)
    requires DistinctNames(headers) && p < |headers|
    ensures headers[p].name in Apply(jar, headers)
    ensures Apply(jar, headers)[headers[p].name] == headers[p].value
    decreases |headers|
  {
    var jar' := jar[headers[0].name := headers[0].value];
    if p == 0 {
      ApplyOther(jar', headers[1..], headers[0].name);
    } else {
      ApplyDistinct(jar', headers[1..], p - 1);
    }
  }

  lemma WrappedNamesDistinct(e: string, secure: bool)
    ensures DistinctNames(WrappedCookies(e, secure))
  {
    var hs := WrappedCookies(e, secure);
    forall i, j | 0 <= i < j < |hs| ensures hs[i].name != hs[j].name {
      WrappedPairDistinct(e, secure, i, j);
    }
  }

  lemma WrappedPairDistinct(e: string, secure: bool, i: nat, j: nat)
    requires i < j < |WrappedCookies(e, secure)|
    ensures WrappedCookies(e, secure)[i].name != WrappedCookies(e, secure)[j].name
  {
    WrappedName(e, secure, j);
    WrappedName(e, secure, i);
    if i == 0 {
      CountNameNotChunk(j - 1);
    } else {
      ChunkNamesDiffer(i - 1, j - 1);
    }
  }

  lemma ChunkNamesDiffer(i: nat, j: nat)
    requires i != j
    ensures ChunkName(i) != ChunkName(j)
  {
    if ChunkName(i) == ChunkName(j) {
      ChunkNamesDistinct(i, j);
    }
  }

  /** The count header comes first, and header `k > 0` is chunk `k - 1`. */
  lemma WrappedName(e: string, secure: bool, k: nat)
    requires k < |WrappedCookies(e, secure)|
    ensures k == 0 ==> WrappedCookies(e, secure)[k].name == CountName()
    ensures k > 0 ==> WrappedCookies(e, secure)[k].name == ChunkName(k - 1)
  {
    if k > 0 {
      WrappedAt(e, secure, k - 1);
    }
  }

  // ----- getLargeCookie -----

  datatype CookieError =
    | ListingFailed   // `chrome.cookies.getAll` reported an error
    | NoCount         // "No cookie count"
    | ZeroCount       // "invalid cookie count or chunk is zero"
    | MissingChunk    // "Invalid cookie count or missing chunk"

  /** The chunks `0 .. k-1` joined in order, or `MissingChunk` when one of them is absent. */
  function Assemble(jar: map<string, string>, k: nat): (r: Result<string, CookieError>)
    ensures r.Ok? <==> forall i :: 0 <= i < k ==> ChunkName(i) in jar
    ensures r.Err? ==> r.error == MissingChunk
  {
    if k == 0 then Ok("")
    else
      match Assemble(jar, k - 1)
      case Err(e) => Err(e)
      case Ok(v) => if ChunkName(k - 1) in jar then Ok(v + jar[ChunkName(k - 1)]) else Err(MissingChunk)
  }

  /**
   * What `getLargeCookie` resolves or rejects with, given the cookies of the
   * app's URL and whether listing them failed.
   */
  function LargeCookie(jar: map<string, string>, listingFails: bool): (r: Result<string, CookieError>)
    ensures listingFails ==> r == Err(ListingFailed)
    ensures !listingFails && CountName() !in jar ==> r == Err(NoCount)
    ensures !listingFails && CountName() in jar && IntOrZero(jar[CountName()]) == 0 ==> r == Err(ZeroCount)
    ensures !listingFails && CountName() in jar && IntOrZero(jar[CountName()]) < 0 ==> r == Ok("")
    ensures r.Ok? ==> forall i :: 0 <= i < IntOrZero(jar[CountName()]) ==> ChunkName(i) in jar
    ensures !listingFails && CountName() in jar && IntOrZero(jar[CountName()]) > 0 ==>
      (r.Err? <==> exists i :: 0 <= i < IntOrZero(jar[CountName()]) && ChunkName(i) !in jar)
  {
    if listingFails then Err(ListingFailed)
    else if CountName() !in jar then Err(NoCount)
    else
      var n := IntOrZero(jar[CountName()]);
      if n == 0 then Err(ZeroCount)
      else if n < 0 then Ok("")
      else Assemble(jar, n)
  }

  /** Only the count cookie and chunks `0 .. n-1` matter; any other cookie, a chunk `n` included, is ignored. */
  lemma {:induction false} AssembleIgnoresOthers(jar1: map<string, string>, jar2: map<string, string>, k: nat)
    requires forall i :: 0 <= i < k ==>
      (ChunkName(i) in jar1 <==> ChunkName(i) in jar2)
      && (ChunkName(i) in jar1 ==> jar1[ChunkName(i)] == jar2[ChunkName(i)])
    ensures Assemble(jar1, k) == Assemble(jar2, k)
  {
    if k > 0 {
      AssembleIgnoresOthers(jar1, jar2, k - 1);
    }
  }

  /**
   * The cookie store as the browser keeps it: name to stored value, for the
   * cookies the extension can see.
   */
  class CookieJar {
    var cookies: map<string, string>

    constructor(initial: map<string, string>)
      ensures cookies == initial
    {
      cookies := initial;
    }

    /** `getLargeCookie()`: reads the count, then appends the chunks in index order. */
    method GetLargeCookie(listingFails: bool) returns (r: Result<string, CookieError>)
      ensures r == LargeCookie(cookies, listingFails)
    {
      if listingFails {
        return Err(ListingFailed);
      }
      if CountName() !in cookies {
        return Err(NoCount);
      }
      var numChunks := IntOrZero(cookies[CountName()]);
      if numChunks == 0 {
        return Err(ZeroCount);
      }
      var value := "";
      var i := 0;
      while i < numChunks
        invariant numChunks < 0 ==> i == 0
        invariant 0 <= numChunks ==> 0 <= i <= numChunks
        invariant Assemble(cookies, i) == Ok(value)
      {
        var chunkName := ChunkName(i);
        if chunkName !in cookies {
          return Err(MissingChunk);
        }
        value := value + cookies[chunkName];
        i := i + 1;
      }
      return Ok(value);
    }

    /**
     * `removeAllCookies()`: lists every cookie and removes each. If listing
     * fails nothing is removed; otherwise every cookie is removed except those
     * whose removal fails, and the call succeeds only if none fails.
     */
    method RemoveAllCookies(listingFails: bool, removalFails: set<string>) returns (ok: bool)
      modifies this
      ensures listingFails ==> !ok && cookies == old(cookies)
      ensures !listingFails ==> cookies == map k | k in old(cookies) && k in removalFails :: old(cookies)[k]
      ensures ok <==> !listingFails && old(cookies).Keys !! removalFails
    {
      if listingFails {
        return false;
      }
      var pending := cookies.Keys;
      ok := true;
      while pending != {}
        invariant pending <= old(cookies).Keys
        invariant cookies == map k | k in old(cookies) && (k in pending || k in removalFails) :: old(cookies)[k]
        invariant ok <==> (old(cookies).Keys - pending) !! removalFails
        decreases pending
      {
        var k :| k in pending;
        if k in removalFails {
          ok := false;
        } else {
          cookies := cookies - {k};
        }
        pending := pending - {k};
      }
    }
  }

  // ----- the round trip -----

  /** After the browser stores `wrapCookie`'s headers, the chunk values join into the percent-encoded record. */
  lemma {:induction false} AssembleWrapped(jar: map<string, string>, e: string, secure: bool, k: nat)
    requires k <= NumChunks(|e|)
    ensures Assemble(Apply(jar, WrappedCookies(e, secure)), k) == Ok(Uri.Encode(Joined(e, k)))
  {
    if k > 0 {
      var hs := WrappedCookies(e, secure);
      var stored := Apply(jar, hs);
      AssembleWrapped(jar, e, secure, k - 1);
      WrappedNamesDistinct(e, secure);
      ApplyDistinct(jar, hs, k);
      WrappedAt(e, secure, k - 1);
      assert stored[ChunkName(k - 1)] == Uri.Encode(Chunk(e, k - 1));
      Uri.EncodeAppend(Joined(e, k - 1), Chunk(e, k - 1));
      assert Assemble(stored, k) == Ok(Uri.Encode(Joined(e, k - 1)) + Uri.Encode(Chunk(e, k - 1)));
    }
  }

  /**
   * Storing the headers `wrapCookie` returns and then calling
   * `getLargeCookie` yields the record percent-encoded twice: once by
   * `wrapCookie`, once by `serialize`. Cookies already in the store do not
   * matter.
   */
  lemma LargeCookieRoundTrip(jar: map<string, string>, e: string, secure: bool)
    requires e != []
    ensures LargeCookie(Apply(jar, WrappedCookies(e, secure)), false) == Ok(Uri.Encode(e))
  {
    var hs := WrappedCookies(e, secure);
    var n := NumChunks(|e|);
    var stored := Apply(jar, hs);
    WrappedNamesDistinct(e, secure);
    ApplyDistinct(jar, hs, 0);
    NatToStringDigits(n);
    Uri.EncodeUnreserved(NatToString(n));
    ParseIntOfNumeral(n);
    assert stored[CountName()] == NatToString(n);
    assert IntOrZero(stored[CountName()]) == n;
    AssembleWrapped(jar, e, secure, n);
    ChunksCover(e);
  }

  /** The whole write-then-read path: decoding the stored value twice and parsing it gives the record back. */
  lemma RecordRoundTrip(jar: map<string, string>, c: Json.Object, secure: bool)
    ensures var stored := LargeCookie(Apply(jar, WrappedCookies(EncodedRecord(c), secure)), false);
      && stored.Ok?
      && Uri.Decode(stored.value) == Ok(EncodedRecord(c))
      && Uri.Decode(EncodedRecord(c)) == Ok(Json.Stringify(c))
      && Json.Parse(Json.Stringify(c)) == Some(c)
  {
    var e := EncodedRecord(c);
    assert Json.Stringify(c)[0] == '{';
    Uri.EncodeAppend([Json.Stringify(c)[0]], Json.Stringify(c)[1..]);
    assert [Json.Stringify(c)[0]] + Json.Stringify(c)[1..] == Json.Stringify(c);
    LargeCookieRoundTrip(jar, e, secure);
    Uri.DecodeEncode(e);
    Uri.DecodeEncode(Json.Stringify(c));
    Json.ParseStringify(c);
  }

  // ----- isTokenExpired -----

  /** What `jwtDecode` yields for a token: it throws on a malformed one, else gives the `exp` claim if present. */
  datatype Jwt = Malformed | Claims(exp: Option<int>)

  datatype TokenError = InvalidTokenError

  /**
   * `isTokenExpired(token)` at time `nowMs` (milliseconds, as `Date.now()`):
   * a missing or zero `exp` counts as expired; otherwise the token is expired
   * when `exp` seconds lie strictly before now.
   */
  function IsTokenExpired(token: string, decode: string -> Jwt, nowMs: int): (r: Result<bool, TokenError>)
    ensures r.Err? <==> decode(token) == Malformed
    ensures r == Ok(false) <==>
      decode(token).Claims? && decode(token).exp.Some? && decode(token).exp.value != 0
      && nowMs <= decode(token).exp.value * 1000
  {
    match decode(token)
    case Malformed => Err(InvalidTokenError)
    case Claims(exp) =>
      if exp.None? || exp.value == 0 then Ok(true) else Ok(exp.value * 1000 < nowMs)
  }

  /** Once expired, a token stays expired as time goes on. */
  lemma ExpiryIsMonotone(token: string, decode: string -> Jwt, now1: int, now2: int)
    requires now1 <= now2 && IsTokenExpired(token, decode, now1) == Ok(true)
    ensures IsTokenExpired(token, decode, now2) == Ok(true)
  {
  }
}
