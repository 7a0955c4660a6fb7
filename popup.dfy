/**
 * The popup (src/pages/Popup/Popup.tsx): which screen it shows, how it
 * syncs its stored screen with the session once per load, the screen
 * transitions its callbacks make, the sign-out button, and the alias list
 * of the manager screen with its activation and deletion callbacks.
 */
module PopupPage {
  import Seqs
  import opened Wrappers
  import opened Types
  import opened PopupStates
  import opened RefreshTokens
  import Cookies
  import EmaylClient
  import Storage
  import Fetch
  import Settings = PremiumMailSettings

  datatype ConstructError = ClientStateUndefined

  /** `constructClient(clientState)`: throws while there is no client state. */
  function ConstructClient(cs: Option<Storage.ClientState>): (r: Result<EmaylClient.Client, ConstructError>)
    ensures r.Err? <==> cs.None?
    ensures r.Ok? ==> r.value.setupUrl == cs.value.setupUrl && r.value.webservices == cs.value.webservices
  {
    match cs
    case None => Err(ClientStateUndefined)
    case Some(c) => Ok(EmaylClient.Client(c.setupUrl, c.webservices))
  }

  /** What the popup shows; `Thrown` is the render failing because `constructClient` threw. */
  datatype Screen =
    | Spinner
    | SignInInstructions
    | HmeGenerator(client: EmaylClient.Client)
    | EmayliasManager(client: EmaylClient.Client)
    | Thrown(error: ConstructError)

  /** `transitionToNextStateElement(state, setState, clientState)`. */
  function NextStateElement(state: PopupState, cs: Option<Storage.ClientState>): (s: Screen)
    ensures s != Spinner
    ensures s == SignInInstructions <==> state == SignedOut
    ensures s.Thrown? <==> state != SignedOut && cs.None?
    ensures s.HmeGenerator? <==> state == Authenticated && cs.Some?
    ensures s.EmayliasManager? <==> state == AuthenticatedAndManaging && cs.Some?
    ensures s.HmeGenerator? || s.EmayliasManager? ==> Ok(s.client) == ConstructClient(cs)
  {
    match state
    case SignedOut => SignInInstructions
    case Authenticated =>
      (match ConstructClient(cs) case Err(e) => Thrown(e) case Ok(c) => HmeGenerator(c))
    case AuthenticatedAndManaging =>
      (match ConstructClient(cs) case Err(e) => Thrown(e) case Ok(c) => EmayliasManager(c))
  }

  /** The popup's body: a spinner until the stored screen is loaded and the session synced. */
  function Render(isStateLoading: bool, synced: bool, state: PopupState, cs: Option<Storage.ClientState>): (s: Screen)
    ensures s == Spinner <==> isStateLoading || !synced
    ensures !isStateLoading && synced ==> s == NextStateElement(state, cs)
  {
    if isStateLoading || !synced then Spinner else NextStateElement(state, cs)
  }

  /**
   * The actions a screen's callbacks pass on: the generator's "manage" and
   * sign-out buttons, the manager's "generate" and sign-out buttons; the
   * sign-in screen has no callback.
   */
  function Emits(state: PopupState): (actions: set<PopupAction>)
    ensures SIGN_OUT in actions <==> state != SignedOut
    ensures MANAGE in actions <==> state == Authenticated
    ensures GENERATE in actions <==> state == AuthenticatedAndManaging
  {
    match state
    case SignedOut => {}
    case Authenticated => {MANAGE, SIGN_OUT}
    case AuthenticatedAndManaging => {GENERATE, SIGN_OUT}
  }

  /**
   * The `Popup` component's state: the stored screen and client state as
   * `useBrowserStorageState` holds them, whether each is still loading, and
   * whether the session has been synced in this load.
   */
  class Popup {
    var state: PopupState
    var clientState: Option<Storage.ClientState>
    var isStateLoading: bool
    var isClientStateLoading: bool
    var synced: bool

    constructor()
      ensures state == SignedOut && clientState.None?
      ensures isStateLoading && isClientStateLoading && !synced
    {
      state := SignedOut;
      clientState := None;
      isStateLoading := true;
      isClientStateLoading := true;
      synced := false;
    }

    function Screen(): Screen
      reads this
    {
      Render(isStateLoading, synced, state, clientState)
    }

    /** The stored screen has loaded, or the default `SignedOut` when none is stored. */
    method LoadState(stored: Option<PopupState>)
      requires isStateLoading
      modifies this
      ensures state == (if stored.Some? then stored.value else SignedOut) && !isStateLoading
      ensures clientState == old(clientState) && isClientStateLoading == old(isClientStateLoading) && synced == old(synced)
    {
      state := if stored.Some? then stored.value else SignedOut;
      isStateLoading := false;
    }

    /** The stored client state has loaded. */
    method LoadClientState(stored: Option<Storage.ClientState>)
      requires isClientStateLoading
      modifies this
      ensures clientState == stored && !isClientStateLoading
      ensures state == old(state) && isStateLoading == old(isStateLoading) && synced == old(synced)
    {
      clientState := stored;
      isClientStateLoading := false;
    }

    /**
     * The auth-sync effect. It runs once per load, after the client state
     * has loaded. Authenticated: `SignedOut` becomes `Authenticated` and any
     * other screen stays. Not authenticated, or no client state: back to
     * `SignedOut` with the client state cleared. Afterwards the popup never
     * renders a screen whose client cannot be built.
     */
    method SyncClientAuthState(jar: map<string, string>, env: Env)
      modifies this
      ensures old(isClientStateLoading) || old(synced) ==>
        state == old(state) && clientState == old(clientState) && synced == old(synced)
      ensures !old(isClientStateLoading) && !old(synced) ==>
        var auth := old(clientState).Some? && EmaylClient.IsAuthenticated(jar, env);
        && synced
        && (auth ==> state == (if old(state) == SignedOut then Authenticated else old(state)) && clientState == old(clientState))
        && (!auth ==> state == SignedOut && clientState.None?)
        && !Screen().Thrown?
      ensures isStateLoading == old(isStateLoading) && isClientStateLoading == old(isClientStateLoading)
    {
      if !isClientStateLoading && !synced {
        var auth := clientState.Some? && EmaylClient.IsAuthenticated(jar, env);
        if auth {
          if state == SignedOut {
            state := Authenticated;
          }
        } else {
          state := SignedOut;
          clientState := None;
        }
        synced := true;
      }
    }

    /**
     * A screen's callback: `setState(STATE_MACHINE_TRANSITIONS[state][action])`.
     * Only a rendered generator or manager screen has one, and only with the
     * actions that screen emits.
     */
    method Transition(action: PopupAction, table: Transitions)
      requires Screen().HmeGenerator? || Screen().EmayliasManager?
      requires action in Emits(state)
      modifies this
      ensures state == table(old(state), action)
      ensures clientState == old(clientState) && clientState.Some?
      ensures synced == old(synced) && isStateLoading == old(isStateLoading) && isClientStateLoading == old(isClientStateLoading)
      ensures !Screen().Thrown?
    {
      state := table(state, action);
    }

    /**
     * The sign-out button: the client's `signOut()` first; only once it
     * resolves is the stored client state removed and the `SIGN_OUT`
     * transition taken. A rejected sign-out changes neither.
     */
    method SignOutClick(jar: Cookies.CookieJar, store: Storage.LocalStore, env: Env, logout: Fetch.Response<()>,
                        listingFails: bool, removalFails: set<string>, table: Transitions)
        returns (c: Call<()>)
      requires Screen().HmeGenerator? || Screen().EmayliasManager?
      modifies this, jar, store
      ensures c == EmaylClient.SignOutCall(old(jar.cookies), env, logout)
      ensures !listingFails ==> jar.cookies == map k | k in old(jar.cookies) && k in removalFails :: old(jar.cookies)[k]
      ensures listingFails ==> jar.cookies == old(jar.cookies)
      ensures c.result.Err? ==> state == old(state) && store.area == old(store.area)
      ensures c.result.Ok? ==>
        state == table(old(state), SIGN_OUT) && store.area == Storage.Stored(old(store.area), Storage.ClientStateKey, None)
      ensures clientState == old(clientState) && synced == old(synced)
      ensures isStateLoading == old(isStateLoading) && isClientStateLoading == old(isClientStateLoading)
    {
      c := EmaylClient.SignOut(jar, env, logout, listingFails, removalFails);
      if c.result.Ok? {
        store.Set(Storage.ClientStateKey, None);
        state := table(state, SIGN_OUT);
      }
    }
  }

  /** Newest first: `createTimestamp` never increases along the list. */
  predicate NewestFirst(xs: seq<Emaylias>) {
    forall i, j :: 0 <= i < j < |xs| ==> xs[i].createTimestamp >= xs[j].createTimestamp
  }

  /** `x` put before the first item that is not newer than it. */
  function Insert(x: Emaylias, ys: seq<Emaylias>): (r: seq<Emaylias>)
    ensures multiset(r) == multiset(ys) + multiset{x}
  {
    if ys == [] || ys[0].createTimestamp <= x.createTimestamp then [x] + ys
    else
      assert ys == [ys[0]] + ys[1..];
      [ys[0]] + Insert(x, ys[1..])
  }

  /** A list of items no newer than `h`, newest first, stays newest first behind `h`. */
  lemma ConsNewestFirst(h: Emaylias, rest: seq<Emaylias>)
    requires NewestFirst(rest)
    requires forall k :: 0 <= k < |rest| ==> rest[k].createTimestamp <= h.createTimestamp
    ensures NewestFirst([h] + rest)
  {
    var r := [h] + rest;
    forall i, j | 0 <= i < j < |r|
      ensures r[i].createTimestamp >= r[j].createTimestamp
    {
      assert r[j] == rest[j - 1];
      if i > 0 {
        assert r[i] == rest[i - 1];
      }
    }
  }

  /** Inserting keeps every item at or below a bound that `x` and the list respect. */
  lemma InsertBelow(x: Emaylias, ys: seq<Emaylias>, t: int)
    requires x.createTimestamp <= t
    requires forall k :: 0 <= k < |ys| ==> ys[k].createTimestamp <= t
    ensures forall k :: 0 <= k < |Insert(x, ys)| ==> Insert(x, ys)[k].createTimestamp <= t
  {
    var r := Insert(x, ys);
    forall k | 0 <= k < |r|
      ensures r[k].createTimestamp <= t
    {
      assert r[k] in multiset(r);
      if r[k] != x {
        assert r[k] in multiset(ys);
      }
    }
  }

  lemma {:induction false} InsertNewestFirst(x: Emaylias, ys: seq<Emaylias>)
    requires NewestFirst(ys)
    ensures NewestFirst(Insert(x, ys))
  {
    if ys != [] && ys[0].createTimestamp > x.createTimestamp {
      var tail := ys[1..];
      InsertNewestFirst(x, tail);
      assert forall k :: 0 <= k < |tail| ==> tail[k] == ys[k + 1];
      InsertBelow(x, tail, ys[0].createTimestamp);
      ConsNewestFirst(ys[0], Insert(x, tail));
    }
  }

  /**
   * The fetched list sorted with `b.createTimestamp - a.createTimestamp`:
   * the same items, newest first.
   */
  function SortNewestFirst(xs: seq<Emaylias>): (r: seq<Emaylias>)
    ensures multiset(r) == multiset(xs)
    ensures NewestFirst(r)
  {
    if xs == [] then []
    else
      assert xs == [xs[0]] + xs[1..];
      var rest := SortNewestFirst(xs[1..]);
      InsertNewestFirst(xs[0], rest);
      Insert(xs[0], rest)
  }

  /** `{ ...hmeEmail, isActive: !hmeEmail.isActive }`. */
  function Flipped(t: Emaylias): (u: Emaylias)
    ensures u != t && u.isActive == !t.isActive
    ensures u.id == t.id && u.email == t.email && u.aliasLabel == t.aliasLabel && u.createTimestamp == t.createTimestamp
  {
    t.(isActive := !t.isActive)
  }

  /** The activation callback's update: every item equal to the target flipped, the rest kept in place. */
  function ToggleActive(xs: seq<Emaylias>, t: Emaylias): (ys: seq<Emaylias>)
    ensures |ys| == |xs|
    ensures forall i :: 0 <= i < |xs| ==> ys[i] == if xs[i] == t then Flipped(t) else xs[i]
  {
    seq(|xs|, i requires 0 <= i < |xs| => if xs[i] == t then Flipped(t) else xs[i])
  }

  /** Flipping back undoes the activation update when no item already was the flipped target. */
  lemma ToggleActiveUndo(xs: seq<Emaylias>, t: Emaylias)
    requires Flipped(t) !in xs
    ensures ToggleActive(ToggleActive(xs, t), Flipped(t)) == xs
  {
    var ys := ToggleActive(xs, t);
    var zs := ToggleActive(ys, Flipped(t));
    assert Flipped(Flipped(t)) == t;
    forall i | 0 <= i < |xs|
      ensures zs[i] == xs[i]
    {
      assert xs[i] != Flipped(t);
    }
  }

  /** The deletion callback's update: the items not equal to the target, in their order. */
  function RemoveEqual(xs: seq<Emaylias>, t: Emaylias): (ys: seq<Emaylias>)
    ensures t !in ys
    ensures forall x :: x != t ==> multiset(ys)[x] == multiset(xs)[x]
  {
    if xs == [] then []
    else
      assert xs == [xs[0]] + xs[1..];
      (if xs[0] == t then [] else [xs[0]]) + RemoveEqual(xs[1..], t)
  }

  /** The deletion update works piece by piece, so the kept items stay in their order. */
  lemma {:induction false} RemoveEqualAppend(a: seq<Emaylias>, b: seq<Emaylias>, t: Emaylias)
    ensures RemoveEqual(a + b, t) == RemoveEqual(a, t) + RemoveEqual(b, t)
  {
    if a != [] {
      Seqs.ConsAppend(a, b);
      RemoveEqualAppend(a[1..], b, t);
      var head := if a[0] == t then [] else [a[0]];
      assert RemoveEqual(a + b, t) == head + RemoveEqual(a[1..] + b, t);
      Seqs.AppendAssoc(head, RemoveEqual(a[1..], t), RemoveEqual(b, t));
    } else {
      assert a + b == b;
    }
  }

  /** A list without the target is left as it is. */
  lemma {:induction false} RemoveEqualAbsent(xs: seq<Emaylias>, t: Emaylias)
    requires t !in xs
    ensures RemoveEqual(xs, t) == xs
  {
    if xs != [] {
      RemoveEqualAbsent(xs[1..], t);
    }
  }

  /** The manager screen's list state. */
  class Manager {
    var fetched: Option<seq<Emaylias>>
    var emailsError: Option<Settings.SettingsError>
    var isFetching: bool

    constructor()
      ensures fetched.None? && emailsError.None? && isFetching
    {
      fetched := None;
      emailsError := None;
      isFetching := true;
    }

    /**
     * The list fetch: the settings client's list, sorted newest first, or
     * the error it threw. Here it always throws, so the list stays unset.
     */
    method FetchList(client: EmaylClient.Client)
      modifies this
      ensures !isFetching
      ensures emailsError.Some? && fetched == old(fetched)
      ensures client.webservices.None? <==> emailsError.value.ClientFailed?
    {
      emailsError := None;
      isFetching := true;
      var list, error := fetched, None;
      match Settings.New(client) {
        case Err(e) =>
          error := Some(e);
        case Ok(pms) =>
          match Settings.GetList(pms) {
            case Err(e) => error := Some(e);
            case Ok(items) => list := Some(SortNewestFirst(items));
          }
      }
      fetched, emailsError := list, error;
      isFetching := false;
    }

    /** `activationCallbackFactory(target)()`: the update applies to a fetched list only. */
    method Activation(target: Emaylias)
      modifies this
      ensures fetched == if old(fetched).None? then None else Some(ToggleActive(old(fetched).value, target))
      ensures emailsError == old(emailsError) && isFetching == old(isFetching)
    {
      if fetched.Some? {
        fetched := Some(ToggleActive(fetched.value, target));
      }
    }

    /** `deletionCallbackFactory(target)()`. */
    method Deletion(target: Emaylias)
      modifies this
      ensures fetched == if old(fetched).None? then None else Some(RemoveEqual(old(fetched).value, target))
      ensures emailsError == old(emailsError) && isFetching == old(isFetching)
    {
      if fetched.Some? {
        fetched := Some(RemoveEqual(fetched.value, target));
      }
    }
  }

  /**
   * The detail pane Popup.tsx declares for itself and renders beside the
   * list: its buttons go through `PremiumMailSettings`, which rejects every
   * lifecycle call, so each click ends in an error and neither callback
   * (the manager's `Activation` and `Deletion`) is ever run.
   */
  class EntryDetails {
    const emaylias: Emaylias
    const client: EmaylClient.Client
    var isActivateSubmitting: bool
    var isDeleteSubmitting: bool
    var error: Option<Settings.SettingsError>
    var activationCallbacks: nat
    var deletionCallbacks: nat

    /** A new alias prop resets the error and both loaders. */
    constructor(emaylias: Emaylias, client: EmaylClient.Client)
      ensures this.emaylias == emaylias && this.client == client
      ensures !isActivateSubmitting && !isDeleteSubmitting && error.None?
      ensures activationCallbacks == 0 && deletionCallbacks == 0
    {
      this.emaylias := emaylias;
      this.client := client;
      isActivateSubmitting := false;
      isDeleteSubmitting := false;
      error := None;
      activationCallbacks := 0;
      deletionCallbacks := 0;
    }

    /** `onActivationClick`: `deactivateAlias` for an active alias, `reactivateAlias` otherwise. */
    method OnActivationClick()
      modifies this
      ensures activationCallbacks == old(activationCallbacks) && error.Some?
      ensures client.webservices.None? <==> error.value.ClientFailed?
      ensures client.webservices.Some? ==>
        error.value == Settings.NotImplemented(if emaylias.isActive then "deactivateAlias" else "reactivateAlias")
      ensures !isActivateSubmitting
      ensures isDeleteSubmitting == old(isDeleteSubmitting) && deletionCallbacks == old(deletionCallbacks)
    {
      isActivateSubmitting := true;
      var calls, err := 0, error;
      match Settings.New(client) {
        case Err(e) =>
          err := Some(e);
        case Ok(pms) =>
          var r := if emaylias.isActive then Settings.DeactivateAlias(pms, emaylias.id)
                   else Settings.ReactivateAlias(pms, emaylias.id);
          match r {
            case Err(e) => err := Some(e);
            case Ok(_) => calls := 1;
          }
      }
      activationCallbacks, error := activationCallbacks + calls, err;
      isActivateSubmitting := false;
    }

    /** `onDeletionClick`: `deleteAlias` for the alias. */
    method OnDeletionClick()
      modifies this
      ensures deletionCallbacks == old(deletionCallbacks) && error.Some?
      ensures client.webservices.None? <==> error.value.ClientFailed?
      ensures client.webservices.Some? ==> error.value == Settings.NotImplemented("deleteAlias")
      ensures !isDeleteSubmitting
      ensures isActivateSubmitting == old(isActivateSubmitting) && activationCallbacks == old(activationCallbacks)
    {
      isDeleteSubmitting := true;
      var calls, err := 0, error;
      match Settings.New(client) {
        case Err(e) =>
          err := Some(e);
        case Ok(pms) =>
          match Settings.DeleteAlias(pms, emaylias.id) {
            case Err(e) => err := Some(e);
            case Ok(_) => calls := 1;
          }
      }
      deletionCallbacks, error := deletionCallbacks + calls, err;
      isDeleteSubmitting := false;
    }
  }
}
