/**
  The countdown's datatypes.

  The lifecycle is one of exactly four phases, an action is one of exactly
  six kinds of which only `Reset` and `Restart` carry a duration, and the
  reducer's state pairs the remaining seconds with the phase and nothing else.
 */
module Types {

  /** The lifecycle phase of a countdown. */
  datatype CountdownState = Idle | Running | Paused | Completed

  /** A transition request handed to the reducer. */
  datatype Action =
    | Start
    | Pause
    | Reset(initialSeconds: int)
    | Tick
    | Complete
    | Restart(initialSeconds: int)

  /** The reducer's state: remaining seconds and lifecycle phase. */
  datatype State = State(seconds: int, state: CountdownState)
}
