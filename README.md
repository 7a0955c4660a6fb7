# emayl: session, storage and alias-management core in Dafny

emayl is a browser extension that creates and manages e-mail aliases
("emaylias") for the user's account at `https://emayl.app`. This project
models its core and proves properties of the model:

- The credential record lives in the browser's cookie store. It is a JSON
  object, percent-encoded and cut into 3800-character chunk cookies
  (`emayl-cookie-auth-chunk-<i>`), with a count cookie
  (`emayl-cookie-auth-count`). It is read back by re-assembling those
  chunks. The identity token inside it is refreshed when it has expired.
- An authenticated client and service make Bearer-authorised requests and
  sign the user out. The browser's local storage holds three keys:
  `popupState`, `options` and `clientState`.
- The popup has a state machine over its three screens and manages the
  alias list. Each alias entry has activate/deactivate/delete buttons.
- The background worker keeps the context menu and the stored client
  state in step with the session.
- The content script tracks the page's e-mail inputs and answers the
  background's messages.
- A domain validator checks domain names.

Pure parts of the code are datatypes, functions and lemmas:
- the encoders (`encodeURIComponent`, `JSON.stringify`, `parseInt`);
- cookie chunking;
- token refresh;
- the services;
- the validator;
- the popup's list operations.

Parts that update objects in place are classes with `modifies` clauses:
- the cookie jar;
- local storage;
- the popup component;
- the alias list manager;
- an alias entry;
- the background worker;
- the content-script page and its buttons and inputs.

The network, the clock and the JWT decoder are inputs: each operation
receives the response it would get, the current time in milliseconds, or
a function from a token to its `exp` claim. A fetch yields a `Call`,
which records the requests made and the result or the failure that would
reject the promise.

## Model

| member | source | states |
|---|---|---|
| Text.NatToStringInjective | src/util/cookies.ts:128-132 | `String(i)` is injective, so chunk indexes give distinct cookie names |
| UriComponent.DecodeEncode | src/util/cookies.ts:104 | `decodeURIComponent(encodeURIComponent(s)) == s` for every string (UTF-8 escapes of 1 to 4 bytes, errors on malformed escapes) |
| UriComponent.EncodeAppend | src/util/cookies.ts:104 | encoding distributes over concatenation |
| UriComponent.EncodeUnreserved | src/util/cookies.ts:104 | strings of unreserved characters are left unchanged by the encoder |
| Json.Get | src/util/refreshTokens.ts:6 | a property read is defined exactly for the object's keys |
| Json.Put | src/util/refreshTokens.ts:48 | setting a property adds its key and nothing else; a new key is appended last |
| Json.GetPut | src/util/refreshTokens.ts:48 | after setting `k` to `v`, reading `k` gives `v` and every other key reads as before |
| Json.GetSpread | src/util/refreshTokens.ts:48 | in `{...a, ...b}` a key of `b` reads as in `b`, and every other key reads as in `a` |
| Json.SpreadFresh | src/util/refreshTokens.ts:48 | spreading objects with disjoint keys appends the second's members after the first's, in order |
| Json.ParseStringify | src/util/cookies.ts:103 | `JSON.parse(JSON.stringify(o))` gives back `o`, member order and escapes included |
| JsParseInt.IntOrZero | src/util/cookies.ts:63 | `parseInt(s) \|\| 0` is the parsed value when that is a nonzero number, and 0 when the parse gives NaN |
| JsParseInt.ParseIntOfNumeral | src/util/cookies.ts:63 | `parseInt(String(n)) == n`, so the chunk count written is the count read |
| Cookies.Serialize | src/util/cookies.ts:106-110 | a set-cookie for the given name with path `/`, `httpOnly` set and the `secure` option as configured |
| Cookies.SerializeDecodes | src/util/cookies.ts:128 | the value `serialize` stores decodes back to the raw value, since `serialize` URI-encodes it |
| Cookies.NumChunks | src/util/cookies.ts:105 | `ceil(len / 3800)`: that many chunks cover the length, one fewer does not |
| Cookies.WrapCookie | src/util/cookies.ts:102-137 | the loop's headers are the count cookie followed by one cookie per chunk, in index order, over the encoded JSON of the record |
| Cookies.JoinedPrefix | src/util/cookies.ts:130-134 | the first `k` slices joined are the first `min(3800k, len)` characters of the encoded value |
| Cookies.ChunksCover | src/util/cookies.ts:130-134 | every chunk is 1 to 3800 characters long, all but the last exactly 3800, and together they give back the encoded value |
| Cookies.ChunkNamesDistinct | src/util/cookies.ts:132 | different indexes give different chunk cookie names |
| Cookies.CountNameNotChunk | src/util/cookies.ts:128-132 | the count cookie's name is never a chunk cookie's name |
| Cookies.WrappedNamesDistinct | src/util/cookies.ts:127-134 | the names of the headers `wrapCookie` sets are pairwise distinct |
| Cookies.ApplyOther | src/util/cookies.ts:127-134 | applying set-cookie headers leaves every cookie whose name none of them sets unchanged |
| Cookies.ApplyDistinct | src/util/cookies.ts:127-134 | applying headers with distinct names stores each header's value under its name |
| Cookies.Assemble | src/util/cookies.ts:69-80 | the chunk loop succeeds iff every chunk `0..n-1` is present, and otherwise fails with a missing chunk |
| Cookies.LargeCookie | src/util/cookies.ts:50-89 | listing failure, a missing count cookie and a count that parses to 0 each reject; a negative count resolves to `""`; any other count resolves iff all its chunks are present |
| Cookies.AssembleIgnoresOthers | src/util/cookies.ts:69-80 | cookies other than the chunks `0..n-1` do not affect the assembled value |
| Cookies.CookieJar.GetLargeCookie | src/util/cookies.ts:50-89 | the loop over the jar computes `LargeCookie` of the jar's cookies |
| Cookies.CookieJar.RemoveAllCookies | src/util/cookies.ts:21-48 | on listing failure the jar is unchanged and the call rejects; otherwise exactly the cookies whose removal fails remain, and it resolves iff none failed |
| Cookies.AssembleWrapped | src/util/cookies.ts:69-80 | assembling the chunks `wrapCookie` produced gives back the encoded value |
| Cookies.LargeCookieRoundTrip | src/util/cookies.ts:50-137 | reading the jar after `wrapCookie`'s headers are applied gives back the stored (serialised) encoding of the record's JSON |
| Cookies.RecordRoundTrip | src/util/refreshTokens.ts:35 | the two `decodeURIComponent`s and `JSON.parse` in `ensureTokensAreNotExpired` give back the record `wrapCookie` stored |
| Cookies.IsTokenExpired | src/util/cookies.ts:91-100 | a token the decoder rejects throws; otherwise it is unexpired iff `exp` is present, nonzero and not below the current time in seconds |
| Cookies.ExpiryIsMonotone | src/util/cookies.ts:91-100 | a token expired at one time stays expired at every later time |
| Fetch.Bearer | src/eMaylService.ts:17 | the Authorization header is `Bearer ` followed by the access token, or by `undefined` when there is none |
| RefreshTokens.RefreshData | src/util/refreshTokens.ts:6-7 | the request body keeps the record's `subscriberId`, `refreshToken` and `emailAddress` and no other property |
| RefreshTokens.UpdateRefreshToken | src/util/refreshTokens.ts:5-27 | given the `/token-refresh` response, it resolves with the body iff the response is ok, has a JSON body with a non-empty `accessToken`, and logging the new identity token does not throw |
| RefreshTokens.EnsureTokensOf | src/util/refreshTokens.ts:34-52 | once the record is read: a cookie or parse failure propagates with no request; a missing or empty identity token rejects with no request; the only possible request is the refresh request for the stored record; a result without headers comes from no request |
| RefreshTokens.EnsureTokensRequests | src/util/refreshTokens.ts:34-52 | the whole check makes at most one request, an unauthorised POST to `BASE_URL/token-refresh` |
| RefreshTokens.Refresh | src/util/refreshTokens.ts:42-48 | the expired branch makes exactly the refresh request for the stored record, and a success always carries headers |
| RefreshTokens.RefreshedPath | src/util/refreshTokens.ts:42-51 | a result with headers comes only from a stored record whose identity token is present and expired, and a refresh response `updateRefreshToken` accepted |
| RefreshTokens.NotExpiredKeepsRecord | src/util/refreshTokens.ts:42-51 | an unexpired token gives the stored record back unchanged, with no headers and no request |
| RefreshTokens.ExpiredRefreshes | src/util/refreshTokens.ts:42-48 | an expired token makes exactly the refresh request; the check resolves iff the refresh does, with the response body as tokens and the merged record wrapped as headers |
| RefreshTokens.MergedRecord | src/util/refreshTokens.ts:48 | each property of the rewrapped record comes from the refresh response when it has one, and from the stored record otherwise |
| RefreshTokens.MergedTokenDecodes | src/util/refreshTokens.ts:48 | after a successful refresh, the merged record's identity token decodes, so the log in `wrapCookie` cannot throw |
| RefreshTokens.RefreshNotPersisted | src/util/refreshTokens.ts:34-52 | the refreshed cookies are only returned as headers, so a later check on the same jar makes the same refresh request again |
| RefreshTokens.StoredRecordRoundTrip | src/util/refreshTokens.ts:35 | once a record's wrapped cookies are applied to a jar, reading the jar yields that record |
| EmaylClient.WebserviceUrl | src/eMaylClient.ts:41-46 | fails iff the client has no webservices; otherwise the named service's URL |
| EmaylClient.IsAuthenticated | src/eMaylClient.ts:48-55 | authenticated iff the token check resolves with an access token |
| EmaylClient.AuthenticatedMeans | src/eMaylClient.ts:48-55 | after a successful refresh the client is authenticated; without a refresh it is authenticated iff the stored record holds an access token |
| EmaylClient.SignOutCall | src/eMaylClient.ts:57-77 | the logout POST is authorised with the current token; a failed token check or a network error rejects, and every logout response resolves; it clears no cookie (`SignOut` does) |
| EmaylClient.SignOut | src/eMaylClient.ts:57-77 | returns `SignOutCall` and applies `removeAllCookies` to the jar, in the `finally` clause |
| EmaylService.Authorized | src/eMaylService.ts:34-55 | a request is made only after the token check resolves; it carries the Bearer header; non-ok responses reject with their status text |
| EmaylService.ChangeEmayliasState | src/eMaylService.ts:8-30 | a POST to `/emaylias/<id>/state:<action>`; it resolves iff the token check resolves and the response is ok |
| EmaylService.GetProfile | src/eMaylService.ts:34-55 | a GET of `/profile` that resolves with the body iff authorised, ok and the body parses |
| EmaylService.GetList | src/eMaylService.ts:60-82 | a GET of `/emaylias` that resolves with the body's `emayliasList` field iff authorised, ok and the body parses |
| EmaylService.NoRequestWithoutToken | src/eMaylService.ts:11-19 | when the token check rejects, no request reaches the network |
| GetProfileOrNull.GetProfile | src/util/getProfile.ts:5-26 | never rejects; it gives the profile iff the token check resolves and the response is ok with a body, and `null` otherwise |
| Types.ActionNamesDistinct | src/types.ts:25-30 | the four action path segments are distinct |
| Types.Next | src/types.ts:19-30 | each action applies from exactly one state: activate takes inactive to active, deactivate active to inactive, delete inactive to deleted, and undelete deleted to inactive |
| Types.Run | src/types.ts:19-30 | a successful run of actions has one state per action plus the starting state, which comes first |
| Types.RunSteps | src/types.ts:19-30 | in a successful run, each state follows from the previous one by a legal transition of its action |
| Types.ActiveToDeletedPassesInactive | src/types.ts:19-30 | a run from active that ends deleted passes through inactive at an intermediate step |
| Validation.Split | src/util/validation.ts:29-32 | `split('.')` gives at least one label, and no label contains a dot |
| Validation.JoinSplit | src/util/validation.ts:29-32 | joining the labels with dots gives the domain back |
| Validation.SplitFirst | src/util/validation.ts:51-54 | a non-empty first label means the domain does not start with a dot |
| Validation.SplitLast | src/util/validation.ts:51-54 | a non-empty last label means the domain does not end with a dot |
| Validation.CheckForDomainError | src/util/validation.ts:26-66 | each error is characterised both ways, in the code's order: too few sections iff fewer than 2 labels; label too long iff some label has more than 63 UTF-16 code units; consecutive dots iff `..` occurs; domain too long iff it has more than 253 code units; bad ends iff it starts or ends with `.` or `-`; last label too short iff it has fewer than 2 code units; invalid characters iff all earlier checks pass and the regex fails; never "already in use" |
| Validation.Utf16Length | src/util/validation.ts:35-60 | the `length` the checks read counts UTF-16 code units: between one and two per character |
| Validation.Utf16LengthBmp | src/util/validation.ts:35-60 | a string of characters below U+10000 has one code unit per character |
| Validation.NoEmptyLabel | src/util/validation.ts:12-66 | a domain that neither starts nor ends with a dot and has no `..` has no empty label, so the regex's `+` on each label is met |
| Validation.InvalidCharsExactly | src/util/validation.ts:12-66 | once the earlier checks pass, the regex fails iff some character is neither a letter, digit, `-` nor `.`, or a `.-` or `-.` pair occurs |
| Validation.RegexLengths | src/util/validation.ts:12-66 | a domain the regex accepts is ASCII, so its code-unit lengths equal its character counts, label by label |
| Validation.NoneIffWellFormed | src/util/validation.ts:12-66 | no error iff the domain matches the regex, has at most 253 characters and a last label of at least 2 |
| Validation.NoneBounds | src/util/validation.ts:26-66 | an accepted domain has 2 or more labels of 1 to 63 characters and at most 253 characters |
| Utils.ParseDomains | src/util/utils.ts:3-9 | one `{domain}` record per string, in order |
| Utils.FormatDomains | src/util/utils.ts:11-13 | the records' domains, in order |
| Utils.FormatParse | src/util/utils.ts:3-13 | formatting parsed domains gives the strings back |
| Utils.ParseFormat | src/util/utils.ts:3-13 | parsing formatted records gives the records back |
| Utils.ParseAppend | src/util/utils.ts:3-9 | parsing distributes over concatenation |
| Storage.Lookup | src/storage.ts:34-39 | a read gives a value iff the key is stored, and then the stored value |
| Storage.Stored | src/storage.ts:41-50 | a write keeps every value of the right type for its key; the stored keys gain the key, or lose it when the value is undefined |
| Storage.LookupStored | src/storage.ts:41-50 | reading a key just written gives the value written |
| Storage.LookupStoredOther | src/storage.ts:41-50 | a write leaves every other key's value unchanged |
| Storage.DefaultStore | src/storage.ts:23-32 | the default store is well typed, signed out, has both autofill options on and no client state |
| Storage.Default | src/storage.ts:23-32 | the default for a key is what the default store holds under it |
| Storage.LocalStore.constructor | src/storage.ts:34-50 | the store starts from a given well-typed area |
| Storage.LocalStore.Get | src/storage.ts:34-39 | `get` returns `Lookup` of the area, of the key's type when the store is valid |
| Storage.LocalStore.Set | src/storage.ts:41-50 | `set` replaces the area by `Stored` and keeps the store well typed |
| PremiumMailSettings.New | src/PremiumMailSettings.ts:22-24 | construction fails iff the client has no webservices; otherwise the base URL is the `premiummailsettings` URL followed by `/v1` |
| PremiumMailSettings.GetList | src/PremiumMailSettings.ts:26-27 | always rejects as not implemented |
| PremiumMailSettings.GenerateEmail | src/PremiumMailSettings.ts:35-36 | always rejects as not implemented |
| PremiumMailSettings.ReserveEmaylias | src/PremiumMailSettings.ts:48-66 | always rejects as not implemented |
| PremiumMailSettings.UpdateAlias | src/PremiumMailSettings.ts:68-83 | always rejects as not implemented |
| PremiumMailSettings.DeactivateAlias | src/PremiumMailSettings.ts:85-96 | always rejects as not implemented |
| PremiumMailSettings.ReactivateAlias | src/PremiumMailSettings.ts:98-109 | always rejects as not implemented |
| PremiumMailSettings.DeleteAlias | src/PremiumMailSettings.ts:111-122 | always rejects as not implemented |
| PremiumMailSettings.UpdateForwardTo | src/PremiumMailSettings.ts:124-135 | always rejects as not implemented |
| PopupPage.ConstructClient | src/pages/Popup/Popup.tsx:720-726 | throws iff no client state is stored; otherwise a client with the stored URL and webservices |
| PopupPage.NextStateElement | src/pages/Popup/Popup.tsx:728-759 | signed out shows the sign-in instructions; authenticated shows the generator and managing shows the manager, over the stored client; a signed-in state with no client state shows the thrown error; never the spinner |
| PopupPage.Render | src/pages/Popup/Popup.tsx:800-811 | the spinner shows iff the state is loading or the session is not yet synced; otherwise the screen of the current state |
| PopupPage.Emits | src/pages/Popup/Popup.tsx:378-707 | sign-out is offered iff signed in, "manage" iff on the generator, and "generate" iff on the manager |
| PopupPage.Popup.constructor | src/pages/Popup/Popup.tsx:761-768 | the component starts signed out, with no client state, both loads pending and unsynced |
| PopupPage.Popup.LoadState | src/pages/Popup/Popup.tsx:762-766 | the loaded popup state, or the default, replaces the state and ends its loading |
| PopupPage.Popup.LoadClientState | src/pages/Popup/Popup.tsx:767-768 | the loaded client state replaces the current one and ends its loading |
| PopupPage.Popup.SyncClientAuthState | src/pages/Popup/Popup.tsx:770-792 | runs once, after the client state loads; signed out becomes authenticated when the session holds; no session clears the client state and signs out; the screen never becomes the thrown error |
| PopupPage.Popup.Transition | src/pages/Popup/Popup.tsx:737-750 | an action the screen emits moves the state by the transition table |
| PopupPage.Popup.SignOutClick | src/pages/Popup/Popup.tsx:174-192 | cookies are cleared whatever happens; on success the state follows `SIGN_OUT` and the stored client state is removed; on failure nothing else changes |
| PopupPage.Insert | src/pages/Popup/Popup.tsx:571 | inserting keeps the list's multiset and adds the item |
| PopupPage.InsertNewestFirst | src/pages/Popup/Popup.tsx:571 | inserting into a newest-first list keeps it newest first |
| PopupPage.SortNewestFirst | src/pages/Popup/Popup.tsx:571 | the sorted list is a permutation ordered by descending creation time |
| PopupPage.Flipped | src/pages/Popup/Popup.tsx:583-590 | the toggled alias has its active flag inverted and keeps its id, address, label and creation time |
| PopupPage.ToggleActive | src/pages/Popup/Popup.tsx:583-590 | the target is replaced by its flipped copy, and every other alias is kept in place |
| PopupPage.ToggleActiveUndo | src/pages/Popup/Popup.tsx:583-590 | toggling the flipped alias back restores the list |
| PopupPage.RemoveEqual | src/pages/Popup/Popup.tsx:592-596 | the filter leaves no copy of the target and keeps every other alias's count |
| PopupPage.RemoveEqualAppend | src/pages/Popup/Popup.tsx:592-596 | filtering distributes over concatenation |
| PopupPage.RemoveEqualAbsent | src/pages/Popup/Popup.tsx:592-596 | filtering an absent alias changes nothing |
| PopupPage.Manager.constructor | src/pages/Popup/Popup.tsx:557-559 | the manager starts fetching, with no list and no error |
| PopupPage.Manager.FetchList | src/pages/Popup/Popup.tsx:563-580 | fetching ends; because the settings service always rejects, an error is recorded and the list is unchanged; the error is the client failure iff there are no webservices |
| PopupPage.Manager.Activation | src/pages/Popup/Popup.tsx:583-590 | a fetched list gets the target toggled; otherwise nothing changes |
| PopupPage.Manager.Deletion | src/pages/Popup/Popup.tsx:592-596 | a fetched list loses the target; otherwise nothing changes |
| PopupPage.EntryDetails.constructor | src/pages/Popup/Popup.tsx:391-407 | the popup's inline entry details start with no submission in progress, no error and no callback run |
| PopupPage.EntryDetails.OnActivationClick | src/pages/Popup/Popup.tsx:409-424 | the settings service is built from the client; an active alias is sent to `deactivateAlias`, an inactive one to `reactivateAlias`; both reject, so the error is recorded (the client failure iff there are no webservices), the activation callback never runs and the flag is reset |
| PopupPage.EntryDetails.OnDeletionClick | src/pages/Popup/Popup.tsx:426-437 | the alias is sent to `deleteAlias`, which rejects, so the error is recorded (the client failure iff there are no webservices), the deletion callback never runs and the flag is reset |
| AliasEntryDetails.ToggleAction | src/pages/Popup/AliasEntryDetails.tsx:31-35 | the toggle deactivates iff the alias is active |
| AliasEntryDetails.ToggleActionLegal | src/pages/Popup/AliasEntryDetails.tsx:31-35 | the toggle is a legal state change iff the alias is not deleted |
| AliasEntryDetails.DeleteOffered | src/pages/Popup/AliasEntryDetails.tsx:139-149 | the delete button is offered iff deleting is a legal state change |
| AliasEntryDetails.Details.constructor | src/pages/Popup/AliasEntryDetails.tsx:16-19 | an entry starts with no submission in progress, no error and no callback run |
| AliasEntryDetails.Details.OnActivationClick | src/pages/Popup/AliasEntryDetails.tsx:28-42 | the toggle's state change is requested; success runs the activation callback once, failure records the error, and the flag is reset |
| AliasEntryDetails.Details.OnDeletionClick | src/pages/Popup/AliasEntryDetails.tsx:44-54 | a delete is requested only where the state machine allows it; success runs the deletion callback once, failure records the error, and the flag is reset |
| Background.Background.constructor | src/pages/Background/index.ts:26-76 | the worker starts over its store, with no menu item and no notification |
| Background.StoredClient | src/pages/Background/index.ts:26-35 | without stored client state the client uses the base URL and no webservices; otherwise the stored fields |
| Background.RequestFailed | src/pages/Background/index.ts:281 | the status guard `statusCode < 200 && statusCode > 299` holds for no status code |
| Background.FirstPart | src/pages/Background/index.ts:286 | `url.split(sep)[0]` is the prefix of the URL before the first occurrence of the separator, or the whole URL |
| Background.Background.ConstructClient | src/pages/Background/index.ts:26-35 | the client is `StoredClient` of the store |
| Background.Background.Deauth | src/pages/Background/index.ts:37-47 | the store holds the signed-out state and no client state; the options are unchanged |
| Background.Background.Auth | src/pages/Background/index.ts:49-76 | the store holds the client state; an existing menu item becomes an enabled "generate" item; a notification is raised only when asked |
| Background.Background.OnStorageChanged | src/pages/Background/index.ts:202-219 | only a change of the local options' context-menu flag shows or hides the menu item; nothing else changes |
| Background.Background.SetupContextMenu | src/pages/Background/index.ts:157-180 | a disabled loading item is created, visible per the options (default on); with a session the stored client becomes the client state and the item is enabled with the generate title; without one the signed-out screen is stored, the client state removed, the options kept and the loading item left; no notification either way |
| Background.Background.OnInstalled | src/pages/Background/index.ts:324-336 | install and update authenticate or deauthenticate by the session; authenticating stores the stored client's URL and webservices as client state, enables every menu item and notifies; deauthenticating stores the signed-out screen, removes the client state, keeps the options and leaves the menu alone; other reasons change nothing |
| Background.Background.OnLoginResponse | src/pages/Background/index.ts:278-299 | when the session holds, the client state becomes the URL before `/accountLogin` with no webservices and every menu item is enabled; otherwise nothing changes |
| Background.Background.OnLogoutResponse | src/pages/Background/index.ts:303-317 | every logout response deauthenticates |
| Background.Background.OnGenerateRequest | src/pages/Background/index.ts:84-126 | a reply is sent iff client state is stored and the session holds; it is for the same element, carries no e-mail and carries an error, and that error is the client failure iff there are no stored webservices |
| ContentScript.ClassName | src/pages/Content/script.ts:22-23 | the class name starts with the extension's prefix and a dash, followed by the short name |
| ContentScript.ClassNameInjective | src/pages/Content/script.ts:22-23 | different short names give different class names |
| ContentScript.InputElement.constructor | src/pages/Content/script.ts:140-142 | an input with its shape and value |
| ContentScript.Button.constructor | src/pages/Content/script.ts:226-229 | a button with its markup, disabled flag and classes |
| ContentScript.WithCursor | src/pages/Content/script.ts:35-71 | exactly one cursor class remains, the new one, and every other class is kept |
| ContentScript.DisableButton | src/pages/Content/script.ts:35-53 | the button shows the text or a spinner, is disabled, loses the hover class and has exactly the given cursor class |
| ContentScript.EnableButton | src/pages/Content/script.ts:55-71 | the button is emptied, enabled, gains the icon class and has exactly the given cursor class |
| ContentScript.FirstIndex | src/pages/Content/script.ts:189-191 | the index of the first tracked input equal to the node, or none iff no tracked input is equal |
| ContentScript.AddOne | src/pages/Content/script.ts:170-177 | an added input is appended iff no equal node is tracked, so no two tracked inputs are equal |
| ContentScript.AddAll | src/pages/Content/script.ts:161-178 | additions only append, keep the list free of equal nodes, and leave every added node tracked |
| ContentScript.RemoveOne | src/pages/Content/script.ts:188-198 | the first equal tracked input is spliced out, the others kept in order; nothing changes when none is equal |
| ContentScript.RemoveOneGone | src/pages/Content/script.ts:188-198 | in a list without equal nodes, a removed node is no longer tracked |
| ContentScript.RemoveAfterAdd | src/pages/Content/script.ts:170-198 | removing a node just added gives back the list before |
| ContentScript.Page.constructor | src/pages/Content/script.ts:156-158 | the page tracks the inputs that match at start |
| ContentScript.Page.AddInputs | src/pages/Content/script.ts:170-177 | the loop tracks `AddAll` of the list and the added inputs |
| ContentScript.Page.RemoveInputs | src/pages/Content/script.ts:188-198 | the loop tracks the list with each removed input spliced out |
| ContentScript.Page.OnMutations | src/pages/Content/script.ts:160-201 | each mutation's additions, then its removals, in order |
| ContentScript.Page.Fill | src/pages/Content/script.ts:214-220 | every tracked input holds the text |
| ContentScript.Page.OnGenerateResponse | src/pages/Content/script.ts:221-243 | an error disables the button, showing the error text; otherwise an e-mail enables it; otherwise the button is unchanged |
| ContentScript.Page.OnReservationResponse | src/pages/Content/script.ts:244-278 | an error disables the button, showing the error text; otherwise the button is unchanged |
| ContentScript.Page.OnActiveInputElementWrite | src/pages/Content/script.ts:279-302 | the active input holds the text; the text goes to the clipboard iff there is an active input and copying was asked for |
| ContentScript.Page.OnMessage | src/pages/Content/script.ts:210-308 | each message goes to its handler: a generate or reservation response with an error disables the target button with the error text, a generate response with an e-mail and no error enables it, and no response writes an input; only these two responses touch the target element; only autofill and active-input writes touch the active or tracked inputs; a clipboard write carries the message text; the tracked list itself never changes |

## Left out

- Asynchrony: each promise chain is modelled as one sequential step. `Promise.all` over cookie removals is an unordered set of outcomes. Concurrent handlers interleaving is not modelled.
- Console logging (`logExpiration` and the `wrapCookie` expiry log) is left out, except where it can throw. The `logExpiration` call in `updateRefreshToken` is an input flag saying whether it throws.
- `jwtDecode` is an input function from a token to its claims: the JWT base64 and JSON layers are not modelled.
- The current time is an integer number of milliseconds. An `exp` equal to the current second counts as unexpired, because the code compares `exp < now`.
- Json.Parse: covers objects whose members all have string values, with the escapes `JSON.stringify` writes. It leaves out other value types, surrogate `\u` escapes and the reordering of integer-like keys.
- JsParseInt.ParseInt: uses unbounded integers, so precision loss above 2^53 is not modelled.
- Cookies.CookieJar: cookies are keyed by name only. Cookies with the same name on different domains or paths are not modelled, and neither are their URLs in the removal calls.
- The secure flag of `wrapCookie` reads `NODE_ENV` at build time. It is an input.
- The popup's state machine table (`STATE_MACHINE_TRANSITIONS`) is not part of this model. It is an input function from state and action to state.
- The `useBrowserStorageState` hook is modelled only as its two loads, `LoadState` and `LoadClientState`. Its write-back of `setState` to storage is not modelled.
- The `Emaylias` record the popup's list holds is not declared in `src/types.ts`. The model gives it the fields the popup reads: `id`, the address, the label, the active flag and the creation time.
- `SortNewestFirst` models `Array.prototype.sort` by comparator on a sequence. The in-place update of the array and the sort's stability are not modelled.
- `EmaylService.reserveEmaylias` and `generateEmails` are not modelled: they reject as not implemented.
- The background's `ReservationRequest` handler and the `contextMenus.onClicked` listener are not part of this model. The handler calls only `reserveEmaylias`, and the listener calls `generateEmail` and then `reserveEmaylias`; both of those always reject (`ReserveEmaylias`, `GenerateEmail`).
- The manager's callbacks (`PopupPage.Manager.Activation`, `PopupPage.Manager.Deletion`) are modelled on their own. The inline entry details never run them, because the settings calls before them always reject.
- The user-guide `onInstalled` listener and tab opening are not modelled.
- `AliasEntryDetails.tsx` (line 8) imports `emaylService` from `./Popup`, but `Popup.tsx` exports only its default component (line 814). The binding is undefined as written. `AliasEntryDetails.Details` assumes instead that it is a working `EmaylService` over the entry's client. It does not model the failure the missing export would cause.
- The Fuse search over the alias list is not modelled.
- Error values are datatypes: their `toString` text and the exact rejection payloads (`null`, `Error()`) are not modelled.
- Context-menu API failures and notification contents are not modelled. Notifications are a counter.
- `classList.forEach` with live removal is modelled as removing every cursor class at once.
- Button support (`makeButtonSupport`, `removeButtonSupport`) is not modelled: the content script never enables it, because both branches give `undefined`.
- `isEqualNode` is equality of an element's `Shape` (tag and attributes).
- DOM event dispatch, `getElementById` and `document.activeElement` are inputs. The clipboard write is a returned value.
