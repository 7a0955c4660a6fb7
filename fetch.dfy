/**
 * The part of `fetch` the extension relies on. A request is a value; what
 * the network answers is an input to the model: either the promise rejects,
 * or a response arrives with its `ok` flag, status, status text and a body
 * that `response.json()` either parses into a `B` or fails on.
 */
module Fetch {
  import opened Wrappers

  /** `BASE_URL` of the extension's web service. */
  const BaseUrl: string := "https://api.emayl.ai/dev/v0.1.0"

  datatype HttpMethod = GET | POST

  /**
   * A request as the extension sends it. Every request also carries
   * `Accept` and `Content-Type: application/json`; `authorization` is the
   * `Authorization` header when there is one.
   */
  datatype Request = Request(verb: HttpMethod, url: string, authorization: Option<string>, body: Option<string>)

  datatype Response<B> =
    | NetworkError
    | Responded(ok: bool, status: int, statusText: string, body: Option<B>)

  /** The error a call ends in: a step that threw, or a rejection with a reason. */
  datatype Failure =
    | CookieUnreadable        // `getLargeCookie` rejected
    | UriMalformed            // `decodeURIComponent` threw
    | JsonSyntax              // `JSON.parse` threw, or the value is not a record of strings
    | NoIdentityToken         // the stored record has no non-empty `identityToken`
    | InvalidToken            // `jwtDecode` threw
    | RefreshRejected         // the token endpoint answered without success
    | BodyUnreadable          // `response.json()` threw
    | FetchFailed             // `fetch` itself rejected
    | StatusText(text: string) // a call rejected with `response.statusText`

  /** `Bearer ${accessToken}`, where a missing token prints as `undefined`. */
  function Bearer(accessToken: Option<string>): (h: string)
    ensures accessToken.Some? ==> h == "Bearer " + accessToken.value
    ensures accessToken.None? ==> h == "Bearer undefined"
  {
    "Bearer " + match accessToken case Some(t) => t case None => "undefined"
  }
}
