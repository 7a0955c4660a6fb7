/**
 * The popup's screens and the actions that move between them. The
 * transition table itself (`STATE_MACHINE_TRANSITIONS` in
 * src/pages/Popup/stateMachine) is not part of this model: it is taken as
 * an arbitrary total function from a state and an action to a state.
 */
module PopupStates {
  datatype PopupState = SignedOut | Authenticated | AuthenticatedAndManaging

  datatype PopupAction = MANAGE | GENERATE | SIGN_OUT

  type Transitions = (PopupState, PopupAction) -> PopupState
}
