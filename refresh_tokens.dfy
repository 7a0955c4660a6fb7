/**
 * The token freshness decision (src/util/refreshTokens.ts). The credential
 * record is read from the chunked cookie, decoded twice and parsed; if its
 * identity token has expired, the token endpoint is asked for new tokens.
 * The decision only reads the cookie store: on a refresh the merged record
 * comes back as `Set-Cookie` headers for the caller, and the store keeps the
 * old chunks.
 */
module RefreshTokens {
  import opened Wrappers
  import opened Fetch
  import Json
  import Uri = UriComponent
  import opened Cookies

  /** Everything the decision depends on besides the cookie store. */
  datatype Env = Env(
    listingFails: bool,              // whether `chrome.cookies.getAll` reports an error
    nowMs: int,                      // `Date.now()`
    decode: string -> Jwt,           // `jwtDecode`
    refresh: Response<Json.Object>,  // what the token endpoint answers
    secure: bool)                    // `secure` cookie option (not a development build)

  /** The requests a call made, in order, and how it ended. */
  datatype Call<T> = Call(requests: seq<Request>, result: Result<T, Failure>)

  /** `{tokens, headers?}`: `headers` is present only after a refresh. */
  datatype Tokens = Tokens(tokens: Json.Object, headers: Option<seq<SetCookie>>)

  /** The member `k` of `c` as a one-member list, or nothing when `c` has no `k`. */
  function Field(c: Json.Object, k: string): (f: seq<Json.Member>)
    ensures Json.Get(c, k).None? ==> f == []
    ensures Json.Get(c, k).Some? ==> f == [(k, Json.Get(c, k).value)]
  {
    match Json.Get(c, k)
    case None => []
    case Some(v) => [(k, v)]
  }

  /** `{subscriberId, refreshToken, emailAddress}` of the record; `JSON.stringify` drops the missing ones. */
  function RefreshData(c: Json.Object): (d: Json.Object)
    ensures forall k :: Json.Get(d, k) == if k in {"subscriberId", "refreshToken", "emailAddress"} then Json.Get(c, k) else None
  {
    var d := Field(c, "subscriberId") + Field(c, "refreshToken") + Field(c, "emailAddress");
    assert Json.DistinctKeys(d);
    forall k ensures Json.Get(d, k) == if k in {"subscriberId", "refreshToken", "emailAddress"} then Json.Get(c, k) else None {
      RefreshDataGet(c, k);
    }
    d
  }

  lemma RefreshDataGet(c: Json.Object, k: string)
    ensures var d := Field(c, "subscriberId") + Field(c, "refreshToken") + Field(c, "emailAddress");
      Json.Get(d, k) == if k in {"subscriberId", "refreshToken", "emailAddress"} then Json.Get(c, k) else None
  {
    var a, b, e := Field(c, "subscriberId"), Field(c, "refreshToken"), Field(c, "emailAddress");
    GetConcat(a, b + e, k);
    GetConcat(b, e, k);
    assert a + b + e == a + (b + e);
  }

  lemma {:induction false} GetConcat(a: seq<Json.Member>, b: seq<Json.Member>, k: string)
    ensures Json.Get(a + b, k) == if Json.Get(a, k).Some? then Json.Get(a, k) else Json.Get(b, k)
  {
    if a != [] {
      assert (a + b)[0] == a[0] && (a + b)[1..] == a[1..] + b;
      GetConcat(a[1..], b, k);
    } else {
      assert a + b == b;
    }
  }

  /** The token-refresh request: a POST carrying exactly the three fields, with no `Authorization` header. */
  function RefreshRequest(c: Json.Object): Request {
    Request(POST, BaseUrl + "/token-refresh", None, Some(Json.Stringify(RefreshData(c))))
  }

  /** Whether `logExpiration(prefix, token)` returns, rather than throwing in `jwtDecode`. */
  predicate LogsWithoutThrowing(token: Option<string>, decode: string -> Jwt) {
    token.None? || token.value == "" || decode(token.value) != Malformed
  }

  /**
   * `updateRefreshToken(c)` given what the endpoint answers: the response
   * body, if the response is `ok` and the body has a non-empty
   * `accessToken`; a rejection otherwise.
   */
  function UpdateRefreshToken(response: Response<Json.Object>, decode: string -> Jwt): (r: Result<Json.Object, Failure>)
    ensures r.Ok? <==>
      && response.Responded? && response.ok && response.body.Some?
      && Json.Get(response.body.value, "accessToken").Some?
      && Json.Get(response.body.value, "accessToken").value != ""
      && LogsWithoutThrowing(Json.Get(response.body.value, "identityToken"), decode)
    ensures r.Ok? ==> r.value == response.body.value
  {
    match response
    case NetworkError => Err(FetchFailed)
    case Responded(ok, _, _, body) =>
      match body
      case None => Err(BodyUnreadable)
      case Some(b) =>
        var access := Json.Get(b, "accessToken");
        if !ok || access.None? || access.value == "" then Err(RefreshRejected)
        else if !LogsWithoutThrowing(Json.Get(b, "identityToken"), decode) then Err(InvalidToken)
        else Ok(b)
  }

  /** The stored record: the chunked cookie, decoded twice, parsed. */
  function StoredRecord(jar: map<string, string>, listingFails: bool): Result<Json.Object, Failure> {
    match LargeCookie(jar, listingFails)
    case Err(_) => Err(CookieUnreadable)
    case Ok(raw) =>
      match Uri.Decode(raw)
      case Err(_) => Err(UriMalformed)
      case Ok(once) =>
        match Uri.Decode(once)
        case Err(_) => Err(UriMalformed)
        case Ok(json) =>
          match Json.Parse(json)
          case None => Err(JsonSyntax)
          case Some(rec) => Ok(rec)
  }

  /** The identity token of the stored record, when it has a non-empty one. */
  function IdentityToken(rec: Json.Object): Option<string> {
    match Json.Get(rec, "identityToken")
    case Some(t) => if t == "" then None else Some(t)
    case None => None
  }

  /** `ensureTokensAreNotExpired()`, once the stored record has been read. */
  function EnsureTokensOf(stored: Result<Json.Object, Failure>, env: Env): (c: Call<Tokens>)
    ensures stored.Err? ==> c == Call([], Err(stored.error))
    ensures stored.Ok? && IdentityToken(stored.value).None? ==> c == Call([], Err(NoIdentityToken))
    ensures c.requests == [] || c.requests == [RefreshRequest(stored.value)]
    ensures c.result.Ok? && c.result.value.headers.None? ==> c.requests == []
  {
    match stored
    case Err(e) => Call([], Err(e))
    case Ok(rec) =>
      match IdentityToken(rec)
      case None => Call([], Err(NoIdentityToken))
      case Some(id) =>
        match IsTokenExpired(id, env.decode, env.nowMs)
        case Err(_) => Call([], Err(InvalidToken))
        case Ok(false) => Call([], Ok(Tokens(rec, None)))
        case Ok(true) => Refresh(rec, env)
  }

  /** `ensureTokensAreNotExpired()`: the record read from the cookie jar, then checked and refreshed. */
  function EnsureTokens(jar: map<string, string>, env: Env): Call<Tokens> {
    EnsureTokensOf(StoredRecord(jar, env.listingFails), env)
  }

  /** The only request the token check makes is an unauthorised POST to `/token-refresh`. */
  lemma EnsureTokensRequests(jar: map<string, string>, env: Env)
    ensures |EnsureTokens(jar, env).requests| <= 1
    ensures forall r :: r in EnsureTokens(jar, env).requests ==>
      r.verb == POST && r.authorization.None? && r.url == BaseUrl + "/token-refresh"
  {
  }

  /** The expired branch: the refresh request, then the new tokens and the merged record re-wrapped as headers. */
  function Refresh(rec: Json.Object, env: Env): (c: Call<Tokens>)
    ensures c.requests == [RefreshRequest(rec)]
    ensures c.result.Ok? ==> c.result.value.headers.Some?
  {
    match UpdateRefreshToken(env.refresh, env.decode)
    case Err(e) => Call([RefreshRequest(rec)], Err(e))
    case Ok(renewed) =>
      Call([RefreshRequest(rec)], Ok(Tokens(renewed, Some(WrappedCookies(EncodedRecord(Json.Spread(rec, renewed)), env.secure)))))
  }

  // ----- properties -----

  /** A live identity token: the stored record comes back as it is, with no headers and no request. */
  lemma NotExpiredKeepsRecord(jar: map<string, string>, env: Env)
    requires StoredRecord(jar, env.listingFails).Ok?
    requires var rec := StoredRecord(jar, env.listingFails).value;
      IdentityToken(rec).Some? && IsTokenExpired(IdentityToken(rec).value, env.decode, env.nowMs) == Ok(false)
    ensures EnsureTokens(jar, env) == Call([], Ok(Tokens(StoredRecord(jar, env.listingFails).value, None)))
  {
  }

  /**
   * An expired identity token: exactly one request, to the token endpoint,
   * carrying the stored record's three fields. The call fails whenever
   * `updateRefreshToken` does; otherwise `tokens` is the response body as it
   * came and `headers` re-wraps the stored record with the response's
   * properties laid over it.
   */
  lemma ExpiredRefreshes(jar: map<string, string>, env: Env)
    requires StoredRecord(jar, env.listingFails).Ok?
    requires var rec := StoredRecord(jar, env.listingFails).value;
      IdentityToken(rec).Some? && IsTokenExpired(IdentityToken(rec).value, env.decode, env.nowMs) == Ok(true)
    ensures var rec := StoredRecord(jar, env.listingFails).value;
      var c := EnsureTokens(jar, env);
      && c.requests == [RefreshRequest(rec)]
      && (c.result.Ok? <==> UpdateRefreshToken(env.refresh, env.decode).Ok?)
      && (c.result.Ok? ==>
          && c.result.value.tokens == env.refresh.body.value
          && c.result.value.headers
             == Some(WrappedCookies(EncodedRecord(Json.Spread(rec, env.refresh.body.value)), env.secure)))
  {
  }

  /** The re-wrapped record takes each property from the response when it has one, else keeps the stored value. */
  lemma MergedRecord(rec: Json.Object, renewed: Json.Object, k: string)
    ensures Json.Get(Json.Spread(rec, renewed), k) == if Json.Get(renewed, k).Some? then Json.Get(renewed, k) else Json.Get(rec, k)
  {
    Json.GetSpread(rec, renewed, k);
  }

  /**
   * `wrapCookie` decodes the merged record's identity token for its log line
   * and would throw on a malformed one; on the refresh path that token is
   * either empty or one `jwtDecode` has already accepted.
   */
  lemma MergedTokenDecodes(jar: map<string, string>, env: Env)
    requires var c := EnsureTokens(jar, env); c.result.Ok? && c.result.value.headers.Some?
    ensures var rec := StoredRecord(jar, env.listingFails).value;
      LogsWithoutThrowing(Json.Get(Json.Spread(rec, env.refresh.body.value), "identityToken"), env.decode)
  {
    var stored := StoredRecord(jar, env.listingFails);
    RefreshedPath(stored, env);
    MergedRecord(stored.value, env.refresh.body.value, "identityToken");
  }

  /** Headers come back only from the expired branch after `updateRefreshToken` accepted the response. */
  lemma RefreshedPath(stored: Result<Json.Object, Failure>, env: Env)
    requires var c := EnsureTokensOf(stored, env); c.result.Ok? && c.result.value.headers.Some?
    ensures stored.Ok? && IdentityToken(stored.value).Some?
    ensures IsTokenExpired(IdentityToken(stored.value).value, env.decode, env.nowMs) == Ok(true)
    ensures UpdateRefreshToken(env.refresh, env.decode).Ok?
  {
  }

  /**
   * The refresh is not written back: the store still holds the expired
   * record, so every later call, at the same time or after it, asks the token
   * endpoint again.
   */
  lemma RefreshNotPersisted(jar: map<string, string>, env: Env, later: Env)
    requires var c := EnsureTokens(jar, env); c.result.Ok? && c.result.value.headers.Some?
    requires later.listingFails == env.listingFails && later.decode == env.decode && env.nowMs <= later.nowMs
    ensures EnsureTokens(jar, later).requests == EnsureTokens(jar, env).requests
  {
    var rec := StoredRecord(jar, env.listingFails).value;
    ExpiryIsMonotone(IdentityToken(rec).value, env.decode, env.nowMs, later.nowMs);
  }

  /** The whole write-then-read path: a record that `wrapCookie` stored is the record read back. */
  lemma StoredRecordRoundTrip(jar: map<string, string>, c: Json.Object, secure: bool)
    ensures StoredRecord(Apply(jar, WrappedCookies(EncodedRecord(c), secure)), false) == Ok(c)
  {
    RecordRoundTrip(jar, c, secure);
  }
}
