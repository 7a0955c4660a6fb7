/**
 * The background script (src/pages/Background/index.ts): it keeps the
 * stored popup screen, the stored client state and the context-menu item
 * in line with the session, and answers the content script's requests
 * for a generated address.
 */
module Background {
  import opened Wrappers
  import opened Text
  import opened Fetch
  import opened RefreshTokens
  import EmaylClient
  import Storage
  import PopupStates
  import Settings = PremiumMailSettings

  /** The context-menu item; its title is the name of the localised message it shows. */
  datatype MenuItem = MenuItem(title: string, enabled: bool, visible: bool)

  /** `browser.storage.onChanged`'s entry for `options`. */
  datatype OptionsChange = OptionsChange(oldValue: Option<Storage.Options>, newValue: Option<Storage.Options>)

  /** `details.reason` of `runtime.onInstalled`. */
  datatype InstallReason = Install | Update | BrowserUpdate | SharedModuleUpdate

  /** The `GenerateResponse` message sent back to the tab. */
  datatype GenerateResponse = GenerateResponse(email: Option<string>, error: Option<Settings.SettingsError>, elementId: string)

  /** The client `constructClient()` builds: the stored one, or one on `BASE_URL` without webservices. */
  function StoredClient(area: Storage.Area): (c: EmaylClient.Client)
    requires Storage.WellTyped(area)
    ensures Storage.ClientStateKey !in area ==> c == EmaylClient.Client(BaseUrl, None)
    ensures Storage.ClientStateKey in area ==>
      Storage.ClientStateValue(Storage.ClientState(c.setupUrl, c.webservices)) == area[Storage.ClientStateKey]
  {
    match Storage.Lookup(area, Storage.ClientStateKey)
    case None => EmaylClient.Client(BaseUrl, None)
    case Some(v) => EmaylClient.Client(v.clientState.setupUrl, v.clientState.webservices)
  }

  /**
   * The failed-request guard of the `webRequest` listeners: a status below
   * 200 and above 299 at once, which no status is.
   */
  function RequestFailed(statusCode: int): (failed: bool)
    ensures !failed
  {
    statusCode < 200 && statusCode > 299
  }

  /** `url.split(sep)[0]`: the part of `url` before the first `sep`, or all of it. */
  function FirstPart(url: string, sep: string): (r: string)
    requires sep != []
    ensures r <= url
    ensures |r| < |url| ==> StartsWith(url[|r|..], sep)
    ensures |r| == |url| ==> forall i :: 0 <= i <= |url| ==> !StartsWith(url[i..], sep)
    ensures forall i :: 0 <= i < |r| ==> !StartsWith(url[i..], sep)
  {
    if StartsWith(url, sep) then []
    else if url == [] then []
    else
      var rest := FirstPart(url[1..], sep);
      assert forall i :: 1 <= i <= |url| ==> url[i..] == url[1..][i - 1..];
      [url[0]] + rest
  }

  /** The store after `performAuthSideEffects(client)`: the client's state under `clientState`, nothing else changed. */
  function AuthArea(area: Storage.Area, client: EmaylClient.Client): Storage.Area {
    Storage.Stored(area, Storage.ClientStateKey,
                   Some(Storage.ClientStateValue(Storage.ClientState(client.setupUrl, client.webservices))))
  }

  /** The store after `performDeauthSideEffects()`: the default screen stored and the client state removed. */
  function DeauthArea(area: Storage.Area): Storage.Area {
    Storage.Stored(Storage.Stored(area, Storage.PopupStateKey, Storage.Default(Storage.PopupStateKey)),
                   Storage.ClientStateKey, None)
  }

  /** The menu after `performAuthSideEffects`: an existing item gets the generate title and is enabled. */
  function EnabledMenu(menu: Option<MenuItem>): Option<MenuItem> {
    if menu.None? then None else Some(menu.value.(title := "GenerateNewEntry", enabled := true))
  }

  /** The background page: the store it shares with the popup, the menu item and the notifications shown. */
  class Background {
    const store: Storage.LocalStore
    var menu: Option<MenuItem>
    var notifications: nat

    constructor(store: Storage.LocalStore)
      ensures this.store == store && menu.None? && notifications == 0
    {
      this.store := store;
      menu := None;
      notifications := 0;
    }

    /** `constructClient()`. */
    method ConstructClient() returns (c: EmaylClient.Client)
      requires store.Valid()
      ensures c == StoredClient(store.area)
    {
      var cs := store.Get(Storage.ClientStateKey);
      if cs.None? {
        c := EmaylClient.Client(BaseUrl, None);
      } else {
        c := EmaylClient.Client(cs.value.clientState.setupUrl, cs.value.clientState.webservices);
      }
    }

    /**
     * `performDeauthSideEffects()`: the stored screen back to its default and
     * the client state removed; the menu item is left alone.
     */
    method Deauth()
      requires store.Valid()
      modifies store
      ensures store.Valid()
      ensures store.area == DeauthArea(old(store.area))
      ensures Storage.Lookup(store.area, Storage.PopupStateKey) == Some(Storage.PopupStateValue(PopupStates.SignedOut))
      ensures Storage.Lookup(store.area, Storage.ClientStateKey).None?
      ensures Storage.Lookup(store.area, Storage.OptionsKey) == Storage.Lookup(old(store.area), Storage.OptionsKey)
    {
      store.Set(Storage.PopupStateKey, Storage.Default(Storage.PopupStateKey));
      store.Set(Storage.ClientStateKey, Storage.Default(Storage.ClientStateKey));
    }

    /**
     * `performAuthSideEffects(client, {notification})`: the client's state
     * stored, the menu item enabled with the generate title (an update of a
     * missing item fails and is ignored), and a notification only when
     * asked for.
     */
    method Auth(client: EmaylClient.Client, notification: bool)
      requires store.Valid()
      modifies this, store
      ensures store.Valid()
      ensures store.area == AuthArea(old(store.area), client)
      ensures menu == EnabledMenu(old(menu))
      ensures notifications == old(notifications) + (if notification then 1 else 0)
    {
      store.Set(Storage.ClientStateKey, Some(Storage.ClientStateValue(Storage.ClientState(client.setupUrl, client.webservices))));
      if menu.Some? {
        menu := Some(menu.value.(title := "GenerateNewEntry", enabled := true));
      }
      if notification {
        notifications := notifications + 1;
      }
    }

    /**
     * The `storage.onChanged` listener: only a local change of `options`
     * whose `contextMenu` flag differs does anything, and then it sets the
     * item's visibility and nothing else.
     */
    method OnStorageChanged(namespace: string, options: Option<OptionsChange>)
      modifies this
      ensures namespace != "local" || options.None? ==> menu == old(menu)
      ensures options.Some? && OptionalFlag(options.value.oldValue) == OptionalFlag(options.value.newValue) ==> menu == old(menu)
      ensures menu.Some? <==> old(menu).Some?
      ensures menu.Some? ==> menu.value.title == old(menu).value.title && menu.value.enabled == old(menu).value.enabled
      ensures namespace == "local" && options.Some? && options.value.newValue.Some? && old(menu).Some? &&
              OptionalFlag(options.value.oldValue) != OptionalFlag(options.value.newValue) ==>
        menu.value.visible == options.value.newValue.value.autofill.contextMenu
      ensures options.Some? && options.value.newValue.None? ==> menu == old(menu)
      ensures notifications == old(notifications)
    {
      if namespace != "local" || options.None? {
        return;
      }
      if OptionalFlag(options.value.oldValue) == OptionalFlag(options.value.newValue) {
        return;
      }
      if menu.Some? && options.value.newValue.Some? {
        menu := Some(menu.value.(visible := options.value.newValue.value.autofill.contextMenu));
      }
    }

    /**
     * `setupContextMenu()`: the item created disabled, with the loading
     * title and the visibility the stored options ask for (default: shown),
     * then the session check decides between the auth and the deauth side
     * effects, the former without a notification.
     */
    method SetupContextMenu(jar: map<string, string>, env: Env)
      requires store.Valid()
      modifies this, store
      ensures store.Valid()
      ensures var client := StoredClient(old(store.area));
        var visible := match Storage.Lookup(old(store.area), Storage.OptionsKey)
                       case Some(v) => v.options.autofill.contextMenu
                       case None => true;
        if EmaylClient.IsAuthenticated(jar, env) then
          && menu == Some(MenuItem("GenerateNewEntry", true, visible))
          && store.area == AuthArea(old(store.area), client)
        else
          && menu == Some(MenuItem("LoadingApp", false, visible))
          && store.area == DeauthArea(old(store.area))
          && Storage.Lookup(store.area, Storage.PopupStateKey) == Some(Storage.PopupStateValue(PopupStates.SignedOut))
          && Storage.Lookup(store.area, Storage.ClientStateKey).None?
          && Storage.Lookup(store.area, Storage.OptionsKey) == Storage.Lookup(old(store.area), Storage.OptionsKey)
      ensures notifications == old(notifications)
    {
      var stored := store.Get(Storage.OptionsKey);
      var options := if stored.Some? then stored.value.options else Storage.Options(Storage.Autofill(true, true));
      menu := Some(MenuItem("LoadingApp", false, options.autofill.contextMenu));
      var client := ConstructClient();
      if EmaylClient.IsAuthenticated(jar, env) {
        Auth(client, false);
      } else {
        Deauth();
      }
    }

    /**
     * The `onInstalled` sync: on install or update, the auth side effects
     * with a notification when the stored client is authenticated and the
     * deauth side effects otherwise; any other reason does nothing.
     */
    method OnInstalled(reason: InstallReason, jar: map<string, string>, env: Env)
      requires store.Valid()
      modifies this, store
      ensures store.Valid()
      ensures reason != Install && reason != Update ==>
        store.area == old(store.area) && menu == old(menu) && notifications == old(notifications)
      ensures (reason == Install || reason == Update) && EmaylClient.IsAuthenticated(jar, env) ==>
        && notifications == old(notifications) + 1
        && store.area == AuthArea(old(store.area), StoredClient(old(store.area)))
        && menu == EnabledMenu(old(menu))
      ensures (reason == Install || reason == Update) && !EmaylClient.IsAuthenticated(jar, env) ==>
        && notifications == old(notifications) && menu == old(menu)
        && store.area == DeauthArea(old(store.area))
        && Storage.Lookup(store.area, Storage.PopupStateKey) == Some(Storage.PopupStateValue(PopupStates.SignedOut))
        && Storage.Lookup(store.area, Storage.ClientStateKey).None?
        && Storage.Lookup(store.area, Storage.OptionsKey) == Storage.Lookup(old(store.area), Storage.OptionsKey)
    {
      if reason == Install || reason == Update {
        var client := ConstructClient();
        if EmaylClient.IsAuthenticated(jar, env) {
          Auth(client, true);
        } else {
          Deauth();
        }
      }
    }

    /**
     * The listener on responses of `BASE_URL/accountLogin*`: a client on the
     * part of the URL before `/accountLogin`, without webservices, and the
     * auth side effects with a notification when it is authenticated.
     */
    method OnLoginResponse(statusCode: int, url: string, jar: map<string, string>, env: Env)
      requires store.Valid()
      modifies this, store
      ensures store.Valid()
      ensures EmaylClient.IsAuthenticated(jar, env) ==>
        && notifications == old(notifications) + 1
        && store.area == AuthArea(old(store.area), EmaylClient.Client(FirstPart(url, "/accountLogin"), None))
        && menu == EnabledMenu(old(menu))
        && Storage.Lookup(store.area, Storage.ClientStateKey) ==
           Some(Storage.ClientStateValue(Storage.ClientState(FirstPart(url, "/accountLogin"), None)))
      ensures !EmaylClient.IsAuthenticated(jar, env) ==>
        store.area == old(store.area) && menu == old(menu) && notifications == old(notifications)
    {
      if RequestFailed(statusCode) {
        return;
      }
      var client := EmaylClient.Client(FirstPart(url, "/accountLogin"), None);
      if EmaylClient.IsAuthenticated(jar, env) {
        Auth(client, true);
      }
    }

    /** The listener on responses of `BASE_URL/logout*`: the deauth side effects, whatever the status. */
    method OnLogoutResponse(statusCode: int)
      requires store.Valid()
      modifies store
      ensures store.Valid()
      ensures Storage.Lookup(store.area, Storage.PopupStateKey) == Some(Storage.PopupStateValue(PopupStates.SignedOut))
      ensures Storage.Lookup(store.area, Storage.ClientStateKey).None?
      ensures Storage.Lookup(store.area, Storage.OptionsKey) == Storage.Lookup(old(store.area), Storage.OptionsKey)
    {
      if RequestFailed(statusCode) {
        return;
      }
      Deauth();
    }

    /**
     * The `GenerateRequest` message: no reply without a stored client state
     * or without a session; otherwise a reply for the same element carrying
     * the error the settings client threw, since it never generates one.
     */
    method OnGenerateRequest(elementId: string, jar: map<string, string>, env: Env) returns (reply: Option<GenerateResponse>)
      requires store.Valid()
      ensures reply.Some? <==> Storage.ClientStateKey in store.area && EmaylClient.IsAuthenticated(jar, env)
      ensures reply.Some? ==> reply.value.elementId == elementId && reply.value.email.None? && reply.value.error.Some?
      ensures reply.Some? ==>
        (reply.value.error.value.ClientFailed? <==> store.area[Storage.ClientStateKey].clientState.webservices.None?)
    {
      var cs := store.Get(Storage.ClientStateKey);
      if cs.None? {
        return None;
      }
      var client := EmaylClient.Client(cs.value.clientState.setupUrl, cs.value.clientState.webservices);
      if !EmaylClient.IsAuthenticated(jar, env) {
        return None;
      }
      var r := None;
      match Settings.New(client) {
        case Err(e) =>
          r := Some(GenerateResponse(None, Some(e), elementId));
        case Ok(pms) =>
          match Settings.GenerateEmail(pms) {
            case Err(e) => r := Some(GenerateResponse(None, Some(e), elementId));
            case Ok(email) => r := Some(GenerateResponse(Some(email), None, elementId));
          }
      }
      reply := r;
    }
  }

  /** `options?.autofill.contextMenu`. */
  function OptionalFlag(o: Option<Storage.Options>): Option<bool> {
    if o.None? then None else Some(o.value.autofill.contextMenu)
  }
}
