/**
 * `PremiumMailSettings` (src/PremiumMailSettings.ts) as the popup and the
 * background script meet it: the constructor asks the client for its
 * `premiummailsettings` URL, which throws while the client has no
 * webservices, and every operation then throws "not implemented".
 */
module PremiumMailSettings {
  import opened Wrappers
  import opened Types
  import EmaylClient

  datatype SettingsError =
    | ClientFailed(cause: EmaylClient.ClientError)
    | NotImplemented(operation: string)

  datatype Settings = Settings(client: EmaylClient.Client, baseUrl: string)

  /** `new PremiumMailSettings(client)`. */
  function New(client: EmaylClient.Client): (r: Result<Settings, SettingsError>)
    ensures r.Err? <==> client.webservices.None?
    ensures r.Err? ==> r.error == ClientFailed(EmaylClient.WebservicesNotInitialised)
    ensures r.Ok? ==> r.value.client == client && r.value.baseUrl == client.webservices.value.premiummailsettings.url + "/v1"
  {
    match EmaylClient.WebserviceUrl(client)
    case Err(e) => Err(ClientFailed(e))
    case Ok(url) => Ok(Settings(client, url + "/v1"))
  }

  /** `getList()`: always rejects. */
  function GetList(s: Settings): (r: Result<seq<Emaylias>, SettingsError>)
    ensures r.Err? && r.error.NotImplemented?
  {
    Err(NotImplemented("getList"))
  }

  /** `generateEmail()`: always rejects. */
  function GenerateEmail(s: Settings): (r: Result<string, SettingsError>)
    ensures r.Err? && r.error.NotImplemented?
  {
    Err(NotImplemented("generateEmail"))
  }

  /** `reserveEmaylias(email, label)`: always rejects. */
  function ReserveEmaylias(s: Settings, email: string, aliasLabel: string): (r: Result<Emaylias, SettingsError>)
    ensures r == Err(NotImplemented("reserveEmaylias"))
  {
    Err(NotImplemented("reserveEmaylias"))
  }

  /** `updateAlias(id, label)`: always rejects. */
  function UpdateAlias(s: Settings, id: string, aliasLabel: string): (r: Result<(), SettingsError>)
    ensures r == Err(NotImplemented("updateAlias"))
  {
    Err(NotImplemented("updateAlias"))
  }

  /** `deactivateAlias(id)`: always rejects. */
  function DeactivateAlias(s: Settings, id: string): (r: Result<(), SettingsError>)
    ensures r == Err(NotImplemented("deactivateAlias"))
  {
    Err(NotImplemented("deactivateAlias"))
  }

  /** `reactivateAlias(id)`: always rejects. */
  function ReactivateAlias(s: Settings, id: string): (r: Result<(), SettingsError>)
    ensures r == Err(NotImplemented("reactivateAlias"))
  {
    Err(NotImplemented("reactivateAlias"))
  }

  /** `deleteAlias(id)`: always rejects. */
  function DeleteAlias(s: Settings, id: string): (r: Result<(), SettingsError>)
    ensures r == Err(NotImplemented("deleteAlias"))
  {
    Err(NotImplemented("deleteAlias"))
  }

  /** `updateForwardTo(forwardToEmail)`: always rejects. */
  function UpdateForwardTo(s: Settings, forwardToEmail: string): (r: Result<(), SettingsError>)
    ensures r == Err(NotImplemented("updateForwardTo"))
  {
    Err(NotImplemented("updateForwardTo"))
  }
}
