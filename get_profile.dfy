/**
 * `getProfile()` of src/util/getProfile.ts: the same authorised GET of the
 * profile as the service's, but every failure is caught and turned into
 * `null`, so its promise never rejects.
 */
module GetProfileOrNull {
  import opened Wrappers
  import opened Fetch
  import opened RefreshTokens
  import EmaylService

  function GetProfile<P>(jar: map<string, string>, env: Env, response: Response<P>): (c: Call<Option<P>>)
    ensures c.result.Ok?
    ensures c.requests == EmaylService.Authorized(jar, env, GET, BaseUrl + "/profile", response).requests
    ensures c.result.value.Some? <==>
      EnsureTokens(jar, env).result.Ok? && response.Responded? && response.ok && response.body.Some?
    ensures c.result.value.Some? ==> c.result.value.value == response.body.value
  {
    var a := EmaylService.Authorized(jar, env, GET, BaseUrl + "/profile", response);
    match a.result
    case Err(_) => Call(a.requests, Ok(None))
    case Ok(None) => Call(a.requests, Ok(None))
    case Ok(Some(p)) => Call(a.requests, Ok(Some(p)))
  }
}
