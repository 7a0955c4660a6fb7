/**
 * `EmaylClient` (src/eMaylClient.ts): the client the popup and the
 * background script build from the stored client state. Its authentication
 * check and its sign-out both go through the token freshness decision and
 * ignore the client's own fields.
 */
module EmaylClient {
  import opened Wrappers
  import opened Fetch
  import Json
  import Cookies
  import opened RefreshTokens

  datatype Webservice = Webservice(url: string, status: string)

  /** `Record<'premiummailsettings', {url, status}>`: the only service name there is. */
  datatype Webservices = Webservices(premiummailsettings: Webservice)

  datatype Client = Client(setupUrl: string, webservices: Option<Webservices>)

  datatype ClientError = WebservicesNotInitialised

  /** `webserviceUrl('premiummailsettings')`: throws while `webservices` is undefined. */
  function WebserviceUrl(client: Client): (r: Result<string, ClientError>)
    ensures r.Err? <==> client.webservices.None?
    ensures r.Ok? ==> r.value == client.webservices.value.premiummailsettings.url
  {
    match client.webservices
    case None => Err(WebservicesNotInitialised)
    case Some(ws) => Ok(ws.premiummailsettings.url)
  }

  /**
   * `isAuthenticated()`: never throws; true exactly when the token check
   * succeeds and the tokens it hands back have an `accessToken`.
   */
  function IsAuthenticated(jar: map<string, string>, env: Env): (b: bool)
    ensures b <==> EnsureTokens(jar, env).result.Ok? && Json.Get(EnsureTokens(jar, env).result.value.tokens, "accessToken").Some?
  {
    match EnsureTokens(jar, env).result
    case Err(_) => false
    case Ok(t) => Json.Get(t.tokens, "accessToken").Some?
  }

  /**
   * What decides `isAuthenticated`: after a refresh the response always has
   * an access token; without one, the stored record must have it.
   */
  lemma AuthenticatedMeans(jar: map<string, string>, env: Env)
    requires EnsureTokens(jar, env).result.Ok?
    ensures EnsureTokens(jar, env).result.value.headers.Some? ==> IsAuthenticated(jar, env)
    ensures EnsureTokens(jar, env).result.value.headers.None? ==>
      (IsAuthenticated(jar, env) <==> Json.Get(StoredRecord(jar, env.listingFails).value, "accessToken").Some?)
  {
  }

  /** The logout request, authorised with the token check's access token. */
  function LogoutRequest(tokens: Json.Object): Request {
    Request(POST, BaseUrl + "/logout", Some(Bearer(Json.Get(tokens, "accessToken"))), None)
  }

  /**
   * The requests `signOut` makes and how its promise settles: a failed token
   * check or a rejected `fetch` propagates; a logout response that is not
   * `ok` is only logged.
   */
  function SignOutCall(jar: map<string, string>, env: Env, logout: Response<()>): (c: Call<()>)
    ensures EnsureTokens(jar, env).result.Err? ==>
      c == Call(EnsureTokens(jar, env).requests, Err(EnsureTokens(jar, env).result.error))
    ensures EnsureTokens(jar, env).result.Ok? ==>
      && c.requests == EnsureTokens(jar, env).requests + [LogoutRequest(EnsureTokens(jar, env).result.value.tokens)]
      && (c.result.Ok? <==> logout.Responded?)
  {
    var check := EnsureTokens(jar, env);
    match check.result
    case Err(e) => Call(check.requests, Err(e))
    case Ok(t) =>
      var requests := check.requests + [LogoutRequest(t.tokens)];
      match logout
      case NetworkError => Call(requests, Err(FetchFailed))
      case Responded(_, _, _, _) => Call(requests, Ok(()))
  }

  /**
   * `signOut()`: the token check and the logout request, then, in `finally`,
   * `removeAllCookies()` whatever happened before. The removal is not
   * awaited, so its own failure never reaches the caller.
   */
  method SignOut(jar: Cookies.CookieJar, env: Env, logout: Response<()>, listingFails: bool, removalFails: set<string>)
      returns (c: Call<()>)
    modifies jar
    ensures c == SignOutCall(old(jar.cookies), env, logout)
    ensures listingFails ==> jar.cookies == old(jar.cookies)
    ensures !listingFails ==> jar.cookies == map k | k in old(jar.cookies) && k in removalFails :: old(jar.cookies)[k]
  {
    c := SignOutCall(jar.cookies, env, logout);
    var _ := jar.RemoveAllCookies(listingFails, removalFails);
  }
}
