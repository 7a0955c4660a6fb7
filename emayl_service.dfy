/**
 * `EmaylService` (src/eMaylService.ts): the authorised calls to the web
 * service. Each first runs the token freshness decision; only if it
 * succeeds is the call's own request sent, with the access token it handed
 * back as the bearer token. `isAuthenticated` and `signOut` are the same
 * code as in `EmaylClient` and are modelled there.
 */
module EmaylService {
  import opened Wrappers
  import opened Fetch
  import Json
  import opened Types
  import opened RefreshTokens

  /** A request to the service authorised with the access token of `tokens`. */
  function AuthorizedRequest(verb: HttpMethod, url: string, tokens: Json.Object): Request {
    Request(verb, url, Some(Bearer(Json.Get(tokens, "accessToken"))), None)
  }

  /**
   * The shared shape of the authorised calls: the token check, then the
   * request. A rejected `fetch` or a failed token check rejects; a response
   * that is not `ok` rejects with its status text before the body is read;
   * otherwise the result is the body as `response.json()` reads it.
   */
  function Authorized<B>(jar: map<string, string>, env: Env, verb: HttpMethod, url: string, response: Response<B>)
      : (c: Call<Option<B>>)
    ensures var check := EnsureTokens(jar, env);
      && (check.result.Err? ==> c == Call(check.requests, Err(check.result.error)))
      && (check.result.Ok? ==>
          && c.requests == check.requests + [AuthorizedRequest(verb, url, check.result.value.tokens)]
          && (response.NetworkError? ==> c.result == Err(FetchFailed))
          && (response.Responded? && !response.ok ==> c.result == Err(StatusText(response.statusText)))
          && (response.Responded? && response.ok ==> c.result == Ok(response.body)))
  {
    var check := EnsureTokens(jar, env);
    match check.result
    case Err(e) => Call(check.requests, Err(e))
    case Ok(t) =>
      var requests := check.requests + [AuthorizedRequest(verb, url, t.tokens)];
      match response
      case NetworkError => Call(requests, Err(FetchFailed))
      case Responded(ok, _, statusText, body) =>
        if !ok then Call(requests, Err(StatusText(statusText))) else Call(requests, Ok(body))
  }

  /** `BASE_URL/emaylias/{id}/state:{action}`. */
  function StateUrl(emayliasId: string, action: EmayliasAction): string {
    BaseUrl + "/emaylias/" + emayliasId + "/state:" + ActionName(action)
  }

  /** `changeEmayliasState(id, action)`: a POST whose response body is never read. */
  function ChangeEmayliasState(jar: map<string, string>, env: Env, emayliasId: string, action: EmayliasAction,
                               response: Response<()>): (c: Call<()>)
    ensures var a := Authorized(jar, env, POST, StateUrl(emayliasId, action), response);
      c.requests == a.requests && (c.result.Ok? <==> a.result.Ok?) && (a.result.Err? ==> c.result == Err(a.result.error))
  {
    var a := Authorized(jar, env, POST, StateUrl(emayliasId, action), response);
    match a.result
    case Err(e) => Call(a.requests, Err(e))
    case Ok(_) => Call(a.requests, Ok(()))
  }

  /** `getProfile()`: the profile as the body holds it; an unreadable body rejects. */
  function GetProfile<P>(jar: map<string, string>, env: Env, response: Response<P>): (c: Call<P>)
    ensures var a := Authorized(jar, env, GET, BaseUrl + "/profile", response);
      && c.requests == a.requests
      && (a.result.Ok? && a.result.value.Some? ==> c.result == Ok(a.result.value.value))
      && (a.result.Ok? && a.result.value.None? ==> c.result == Err(BodyUnreadable))
      && (a.result.Err? ==> c.result == Err(a.result.error))
  {
    var a := Authorized(jar, env, GET, BaseUrl + "/profile", response);
    match a.result
    case Err(e) => Call(a.requests, Err(e))
    case Ok(None) => Call(a.requests, Err(BodyUnreadable))
    case Ok(Some(p)) => Call(a.requests, Ok(p))
  }

  /** `getList()`: the body's `emayliasList`, which is `undefined` when the body has none. */
  function GetList(jar: map<string, string>, env: Env, response: Response<EmayliasListResult>)
      : (c: Call<Option<seq<EmayliasRecord>>>)
    ensures var a := Authorized(jar, env, GET, BaseUrl + "/emaylias", response);
      && c.requests == a.requests
      && (a.result.Ok? && a.result.value.Some? ==> c.result == Ok(a.result.value.value.emayliasList))
      && (a.result.Ok? && a.result.value.None? ==> c.result == Err(BodyUnreadable))
      && (a.result.Err? ==> c.result == Err(a.result.error))
  {
    var a := Authorized(jar, env, GET, BaseUrl + "/emaylias", response);
    match a.result
    case Err(e) => Call(a.requests, Err(e))
    case Ok(None) => Call(a.requests, Err(BodyUnreadable))
    case Ok(Some(body)) => Call(a.requests, Ok(body.emayliasList))
  }

  /**
   * No request without a token: the service's own request is sent exactly
   * when the token check succeeds, it is the last request, and it carries
   * the check's access token.
   */
  lemma NoRequestWithoutToken<B>(jar: map<string, string>, env: Env, verb: HttpMethod, url: string, response: Response<B>)
    ensures var check := EnsureTokens(jar, env);
      var c := Authorized(jar, env, verb, url, response);
      && (check.result.Err? <==> |c.requests| == |check.requests|)
      && (forall r :: r in c.requests && r.authorization.Some? ==>
            check.result.Ok? && r == AuthorizedRequest(verb, url, check.result.value.tokens))
  {
    var check := EnsureTokens(jar, env);
    var c := Authorized(jar, env, verb, url, response);
    EnsureTokensRequests(jar, env);
    if check.result.Ok? {
      var own := AuthorizedRequest(verb, url, check.result.value.tokens);
      assert c.requests == check.requests + [own];
      forall r | r in c.requests && r.authorization.Some?
        ensures r == own
      {
        assert r !in check.requests;
      }
    }
  }
}
