/**
 * The extension's local key/value store (src/storage.ts). The browser's
 * `storage.local` area is a map from the three keys of `Store` to values
 * of the matching type; `setBrowserStorageValue` with `undefined` removes
 * the key.
 */
module Storage {
  import opened Wrappers
  import opened PopupStates
  import EmaylClient

  datatype Autofill = Autofill(button: bool, contextMenu: bool)

  datatype Options = Options(autofill: Autofill)

  /** The arguments the popup and the background rebuild an `EmaylClient` from. */
  datatype ClientState = ClientState(setupUrl: string, webservices: Option<EmaylClient.Webservices>)

  datatype Key = PopupStateKey | OptionsKey | ClientStateKey

  datatype Value =
    | PopupStateValue(popupState: PopupState)
    | OptionsValue(options: Options)
    | ClientStateValue(clientState: ClientState)

  /** `Store[K]`: the type of value each key holds. */
  predicate Fits(k: Key, v: Value) {
    match k
    case PopupStateKey => v.PopupStateValue?
    case OptionsKey => v.OptionsValue?
    case ClientStateKey => v.ClientStateValue?
  }

  type Area = map<Key, Value>

  predicate WellTyped(area: Area) {
    forall k :: k in area ==> Fits(k, area[k])
  }

  /** `getBrowserStorageValue(k)`: the stored value, or `undefined` when the key is absent. */
  function Lookup(area: Area, k: Key): (v: Option<Value>)
    ensures v.Some? <==> k in area
    ensures v.Some? ==> v.value == area[k]
  {
    if k in area then Some(area[k]) else None
  }

  /** The area after `setBrowserStorageValue(k, v)`: `undefined` removes `k`, anything else stores it. */
  function Stored(area: Area, k: Key, v: Option<Value>): (a: Area)
    requires v.Some? ==> Fits(k, v.value)
    ensures WellTyped(area) ==> WellTyped(a)
    ensures a.Keys == if v.None? then area.Keys - {k} else area.Keys + {k}
  {
    match v
    case None => map q | q in area && q != k :: area[q]
    case Some(x) => area[k := x]
  }

  /** Reading a key back after writing it gives what was written; `undefined` reads back as `undefined`. */
  lemma LookupStored(area: Area, k: Key, v: Option<Value>)
    requires v.Some? ==> Fits(k, v.value)
    ensures Lookup(Stored(area, k, v), k) == v
  {
  }

  /** Writing one key leaves every other key as it was. */
  lemma LookupStoredOther(area: Area, k: Key, v: Option<Value>, q: Key)
    requires v.Some? ==> Fits(k, v.value)
    requires q != k
    ensures Lookup(Stored(area, k, v), q) == Lookup(area, q)
  {
  }

  /** `DEFAULT_STORE`: signed out, both autofill options on, no client state. */
  function DefaultStore(): (area: Area)
    ensures WellTyped(area)
    ensures Lookup(area, PopupStateKey) == Some(PopupStateValue(SignedOut))
    ensures Lookup(area, OptionsKey) == Some(OptionsValue(Options(Autofill(true, true))))
    ensures Lookup(area, ClientStateKey).None?
  {
    map[PopupStateKey := PopupStateValue(SignedOut), OptionsKey := OptionsValue(Options(Autofill(true, true)))]
  }

  /** The value `DEFAULT_STORE` holds for a key, `undefined` for the client state. */
  function Default(k: Key): (v: Option<Value>)
    ensures v == Lookup(DefaultStore(), k)
  {
    match k
    case PopupStateKey => Some(PopupStateValue(SignedOut))
    case OptionsKey => Some(OptionsValue(Options(Autofill(true, true))))
    case ClientStateKey => None
  }

  /** The browser's `storage.local` area, which both `get` and `set` go through. */
  class LocalStore {
    var area: Area

    constructor(initial: Area)
      requires WellTyped(initial)
      ensures area == initial
    {
      area := initial;
    }

    predicate Valid()
      reads this
    {
      WellTyped(area)
    }

    /** `getBrowserStorageValue(k)`. */
    method Get(k: Key) returns (v: Option<Value>)
      ensures v == Lookup(area, k)
      ensures Valid() && v.Some? ==> Fits(k, v.value)
    {
      if k in area {
        v := Some(area[k]);
      } else {
        v := None;
      }
    }

    /** `setBrowserStorageValue(k, v)`. */
    method Set(k: Key, v: Option<Value>)
      requires v.Some? ==> Fits(k, v.value)
      modifies this
      ensures area == Stored(old(area), k, v)
      ensures old(Valid()) ==> Valid()
    {
      if v.None? {
        area := map q | q in area && q != k :: area[q];
      } else {
        area := area[k := v.value];
      }
    }
  }
}
