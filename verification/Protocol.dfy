/** The lifecycle of a supervised coding agent (shared/protocol/state.go). */
module Protocol {

  datatype AgentState = Idle | Starting | Running | WaitingInput | Stopping | Stopped | Crashed {

    /** Whether a session is live; drives power management. */
    predicate Active() {
      Starting? || Running? || WaitingInput?
    }

    predicate Terminal() {
      Stopped? || Crashed?
    }

    function AllowedTransitions(): seq<AgentState> {
      match this
      case Idle => [Starting]
      case Starting => [Running, Crashed, Stopped]
      case Running => [WaitingInput, Stopping, Stopped, Crashed]
      case WaitingInput => [Running, Stopping, Stopped, Crashed]
      case Stopping => [Stopped, Crashed]
      case Stopped => [Starting]
      case Crashed => [Starting]
    }

    predicate CanTransitionTo(next: AgentState) {
      next in AllowedTransitions()
    }
  }
}
