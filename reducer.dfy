/**
  The countdown reducer: each action overwrites some fields of the state
  record in place and leaves the others alone. No case looks at the
  current lifecycle phase; deciding whether an action may be sent at all
  is left to the caller (module Hook).
 */
module Reducer {
  import opened Types

  /**
    The reducer as a total function from state and action to the next state.
    Start and Pause keep the seconds, Reset and Restart install the given
    duration, Tick takes one second off (below zero too) and keeps the phase,
    and Complete pins the record at zero. The countdown runs afterwards
    exactly when the action is Start or Restart, or a Tick on a running one.
   */
  function Reduce(s: State, action: Action): (r: State)
    ensures action.Start? || action.Pause? ==> r.seconds == s.seconds
    ensures action.Reset? || action.Restart? ==> r.seconds == action.initialSeconds
    ensures action.Tick? ==> r.seconds == s.seconds - 1 && r.state == s.state
    ensures action.Complete? ==> r.seconds == 0
    ensures r.state == Running <==> action.Start? || action.Restart? || (action.Tick? && s.state == Running)
    ensures r.state == Paused <==> action.Pause? || (action.Tick? && s.state == Paused)
    ensures r.state == Idle <==> action.Reset? || (action.Tick? && s.state == Idle)
    ensures r.state == Completed <==> action.Complete? || (action.Tick? && s.state == Completed)
  {
    match action
    case Start => s.(state := Running)
    case Pause => s.(state := Paused)
    case Reset(n) => State(n, Idle)
    case Tick => s.(seconds := s.seconds - 1)
    case Complete => State(0, Completed)
    case Restart(n) => State(n, Running)
  }

  /**
    The result never depends on the incoming phase except through Tick,
    which keeps it; the remaining seconds never depend on it at all.
   */
  lemma ReduceIgnoresPhase(seconds: int, p: CountdownState, q: CountdownState, action: Action)
    ensures Reduce(State(seconds, p), action).seconds == Reduce(State(seconds, q), action).seconds
    ensures !action.Tick? ==> Reduce(State(seconds, p), action) == Reduce(State(seconds, q), action)
    ensures action.Tick? ==> Reduce(State(seconds, p), action).state == p
  {
  }

  /** The mutable state record the reducer updates. */
  class Store {
    var seconds: int
    var state: CountdownState

    constructor (initial: State)
      ensures seconds == initial.seconds && state == initial.state
    {
      seconds := initial.seconds;
      state := initial.state;
    }

    /** The record's current value. */
    function Snapshot(): State
      reads this
    {
      State(seconds, state)
    }

    /** Applies one action to the record in place. */
    method Dispatch(action: Action)
      modifies this
      ensures action.Start? ==> state == Running && seconds == old(seconds)
      ensures action.Pause? ==> state == Paused && seconds == old(seconds)
      ensures action.Reset? ==> state == Idle && seconds == action.initialSeconds
      ensures action.Tick? ==> state == old(state) && seconds == old(seconds) - 1
      ensures action.Complete? ==> state == Completed && seconds == 0
      ensures action.Restart? ==> state == Running && seconds == action.initialSeconds
      ensures Snapshot() == Reduce(old(Snapshot()), action)
    {
      match action
      case Start =>
        state := Running;
      case Pause =>
        state := Paused;
      case Reset(n) =>
        state := Idle;
        seconds := n;
      case Tick =>
        seconds := seconds - 1;
      case Complete =>
        state := Completed;
        seconds := 0;
      case Restart(n) =>
        seconds := n;
        state := Running;
    }
  }
}
