/**
 * The alias details pane (src/pages/Popup/AliasEntryDetails.tsx): which
 * lifecycle action its buttons send, when the delete button exists, and
 * what a click does to the pane's state and the manager's callbacks.
 */
module AliasEntryDetails {
  import opened Wrappers
  import opened Types
  import opened Fetch
  import opened RefreshTokens
  import EmaylService

  /** The action the activation toggle sends: deactivate an active alias, activate any other. */
  function ToggleAction(s: EmayliasState): (a: EmayliasAction)
    ensures a == INACTIVATE <==> s == ACTIVE
    ensures a == ACTIVATE <==> s != ACTIVE
  {
    if s == ACTIVE then INACTIVATE else ACTIVATE
  }

  /**
   * The toggle's action is a valid lifecycle step exactly when the alias is
   * not deleted: a deleted alias is sent `ACTIVATE`, which only an inactive
   * alias accepts.
   */
  lemma ToggleActionLegal(s: EmayliasState)
    ensures Next(s, ToggleAction(s)).Some? <==> s != DELETED
    ensures s != DELETED ==> Next(s, ToggleAction(s)).value == if s == ACTIVE then INACTIVE else ACTIVE
  {
  }

  /** The delete button is rendered for inactive aliases only. */
  function DeleteOffered(s: EmayliasState): (b: bool)
    ensures b <==> Next(s, DELETE).Some?
  {
    s == INACTIVE
  }

  /** The pane's state and how often it has called the manager's callbacks. */
  class Details {
    const emaylias: EmayliasRecord
    var isActivateSubmitting: bool
    var isDeleteSubmitting: bool
    var error: Option<Failure>
    var activationCallbacks: nat
    var deletionCallbacks: nat

    /** A new alias prop resets the error and both loaders. */
    constructor(emaylias: EmayliasRecord)
      ensures this.emaylias == emaylias
      ensures !isActivateSubmitting && !isDeleteSubmitting && error.None?
      ensures activationCallbacks == 0 && deletionCallbacks == 0
    {
      this.emaylias := emaylias;
      isActivateSubmitting := false;
      isDeleteSubmitting := false;
      error := None;
      activationCallbacks := 0;
      deletionCallbacks := 0;
    }

    /**
     * `onActivationClick`: the state change for the toggle's action; the
     * activation callback only when it succeeds, the error otherwise; the
     * loader reset either way.
     */
    method OnActivationClick(jar: map<string, string>, env: Env, response: Response<()>) returns (c: Call<()>)
      modifies this
      ensures c == EmaylService.ChangeEmayliasState(jar, env, emaylias.objectId, ToggleAction(emaylias.state), response)
      ensures c.result.Ok? ==> activationCallbacks == old(activationCallbacks) + 1 && error == old(error)
      ensures c.result.Err? ==> activationCallbacks == old(activationCallbacks) && error == Some(c.result.error)
      ensures !isActivateSubmitting
      ensures isDeleteSubmitting == old(isDeleteSubmitting) && deletionCallbacks == old(deletionCallbacks)
    {
      isActivateSubmitting := true;
      var action := if emaylias.state == ACTIVE then INACTIVATE else ACTIVATE;
      c := EmaylService.ChangeEmayliasState(jar, env, emaylias.objectId, action, response);
      if c.result.Ok? {
        activationCallbacks := activationCallbacks + 1;
      } else {
        error := Some(c.result.error);
      }
      isActivateSubmitting := false;
    }

    /**
     * `onDeletionClick`, reachable only through the delete button: the
     * `DELETE` it sends is therefore always a valid step.
     */
    method OnDeletionClick(jar: map<string, string>, env: Env, response: Response<()>) returns (c: Call<()>)
      requires DeleteOffered(emaylias.state)
      modifies this
      ensures Next(emaylias.state, DELETE) == Some(DELETED)
      ensures c == EmaylService.ChangeEmayliasState(jar, env, emaylias.objectId, DELETE, response)
      ensures c.result.Ok? ==> deletionCallbacks == old(deletionCallbacks) + 1 && error == old(error)
      ensures c.result.Err? ==> deletionCallbacks == old(deletionCallbacks) && error == Some(c.result.error)
      ensures !isDeleteSubmitting
      ensures isActivateSubmitting == old(isActivateSubmitting) && activationCallbacks == old(activationCallbacks)
    {
      isDeleteSubmitting := true;
      c := EmaylService.ChangeEmayliasState(jar, env, emaylias.objectId, DELETE, response);
      if c.result.Ok? {
        deletionCallbacks := deletionCallbacks + 1;
      } else {
        error := Some(c.result.error);
      }
      isDeleteSubmitting := false;
    }
  }
}
