/** What the searches and readers are told about a transition system. */
module TransitionSystems {

  /** A transition system over states of type S. An action that cannot be performed fails a check of the
      state; the oracle lists all gold actions, goldAction is the one that training follows. */
  datatype System<!S> = System(
    isAllowed: (S, int) -> bool, isFinal: S -> bool,
    canPerform: (S, int) -> bool, perform: (S, int) -> S,
    goldAction: S -> int, oracle: S -> seq<int>)
}
