/**
 * The alias records and the alias lifecycle (src/types.ts). The service
 * changes an alias's state through four actions; the comments on
 * `EmayliasAction` say from which state each is valid and where it leads.
 */
module Types {
  import opened Wrappers

  /** An alias is in exactly one of these states. */
  datatype EmayliasState = ACTIVE | INACTIVE | DELETED

  datatype EmayliasAction = ACTIVATE | INACTIVATE | DELETE | UNDELETE

  /** The action's name as it appears in the request URL. */
  function ActionName(a: EmayliasAction): string {
    match a
    case ACTIVATE => "activate"
    case INACTIVATE => "inactivate"
    case DELETE => "delete"
    case UNDELETE => "undelete"
  }

  lemma ActionNamesDistinct(a: EmayliasAction, b: EmayliasAction)
    requires ActionName(a) == ActionName(b)
    ensures a == b
  {
  }

  /** The state an action leads to, or `None` where the action is not valid. */
  function Next(s: EmayliasState, a: EmayliasAction): (t: Option<EmayliasState>)
    ensures a == ACTIVATE ==> (t.Some? <==> s == INACTIVE) && (t.Some? ==> t.value == ACTIVE)
    ensures a == INACTIVATE ==> (t.Some? <==> s == ACTIVE) && (t.Some? ==> t.value == INACTIVE)
    ensures a == DELETE ==> (t.Some? <==> s == INACTIVE) && (t.Some? ==> t.value == DELETED)
    ensures a == UNDELETE ==> (t.Some? <==> s == DELETED) && (t.Some? ==> t.value == INACTIVE)
  {
    match (s, a)
    case (INACTIVE, ACTIVATE) => Some(ACTIVE)
    case (ACTIVE, INACTIVATE) => Some(INACTIVE)
    case (INACTIVE, DELETE) => Some(DELETED)
    case (DELETED, UNDELETE) => Some(INACTIVE)
    case _ => None
  }

  /** The states visited by applying `actions` from `s`, `s` included, or `None` if one is not valid. */
  function Run(s: EmayliasState, actions: seq<EmayliasAction>): (r: Option<seq<EmayliasState>>)
    ensures r.Some? ==> |r.value| == |actions| + 1 && r.value[0] == s
    decreases |actions|
  {
    if actions == [] then Some([s])
    else
      match Next(s, actions[0])
      case None => None
      case Some(t) =>
        match Run(t, actions[1..])
        case None => None
        case Some(trace) => Some([s] + trace)
  }

  /** Each step of a run is a valid action from the state before it to the state after it. */
  lemma {:induction false} RunSteps(s: EmayliasState, actions: seq<EmayliasAction>)
    requires Run(s, actions).Some?
    ensures forall i :: 0 <= i < |actions| ==>
      Next(Run(s, actions).value[i], actions[i]) == Some(Run(s, actions).value[i + 1])
    decreases |actions|
  {
    if actions != [] {
      var t := Next(s, actions[0]).value;
      RunSteps(t, actions[1..]);
      var trace := Run(s, actions).value;
      assert trace == [s] + Run(t, actions[1..]).value;
      forall i | 0 < i < |actions|
        ensures Next(trace[i], actions[i]) == Some(trace[i + 1])
      {
        assert actions[i] == actions[1..][i - 1];
      }
    }
  }

  /** Every valid sequence of actions that takes an active alias to deleted passes through inactive. */
  lemma {:induction false} ActiveToDeletedPassesInactive(actions: seq<EmayliasAction>)
    requires Run(ACTIVE, actions).Some? && Run(ACTIVE, actions).value[|actions|] == DELETED
    ensures exists i :: 0 < i < |actions| && Run(ACTIVE, actions).value[i] == INACTIVE
  {
    var trace := Run(ACTIVE, actions).value;
    RunSteps(ACTIVE, actions);
    var j :| 0 < j <= |actions| && trace[j] == DELETED && forall k :: 0 <= k < j ==> trace[k] != DELETED by {
      FirstDeleted(trace, |actions|);
    }
    assert Next(trace[j - 1], actions[j - 1]) == Some(DELETED);
    assert trace[j - 1] == INACTIVE;
  }

  lemma FirstDeleted(trace: seq<EmayliasState>, n: nat)
    requires n < |trace| && trace[0] != DELETED && trace[n] == DELETED
    ensures exists j :: 0 < j <= n && trace[j] == DELETED && forall k :: 0 <= k < j ==> trace[k] != DELETED
  {
    var j := 1;
    while trace[j] != DELETED
      invariant 0 < j <= n
      invariant forall k :: 0 <= k < j ==> trace[k] != DELETED
      decreases n - j
    {
      j := j + 1;
    }
  }

  datatype AttrDomain = AttrDomain(domain: string)

  /** `EmayliasRecord`: an alias as the service lists it. */
  datatype EmayliasRecord = EmayliasRecord(
    attrDomains: seq<AttrDomain>,
    comment: string,
    emaylias: string,
    forwardingAddress: string,
    aliasLabel: string,        // `label`
    lastModifiedDt: string,
    objectId: string,
    provisionDt: string,
    state: EmayliasState)

  /** `EmayliasListResult`: `emayliasList` is absent when the body lacks it. */
  datatype EmayliasListResult = EmayliasListResult(
    emayliasList: Option<seq<EmayliasRecord>>,
    selectedForwardTo: Option<string>,
    forwardToEmails: Option<seq<string>>)

  /**
   * `Emaylias`: an alias as the popup's manager lists it. Its declaration is
   * not in src/types.ts, so it holds the fields the popup reads.
   */
  datatype Emaylias = Emaylias(id: string, email: string, aliasLabel: string, isActive: bool, createTimestamp: int)

  /** `IDomain`: a domain and nothing else. */
  datatype IDomain = IDomain(domain: string)
}
