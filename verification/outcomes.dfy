/** Outcome of a sequence of bus transactions. */
module Outcomes {

  /**
   * The result of running driver code against a device state `S`.
   * `Done` carries the value the code computed; `Stop` is a failed bus
   * transfer (the driver returns `false`); `Hang` means the transaction
   * budget ran out, i.e. the driver would still be waiting.
   */
  datatype Run<S, T> = Done(state: S, value: T) | Stop(state: S) | Hang(state: S)
  {
    predicate IsFailure() { !Done? }

    function PropagateFailure<U>(): Run<S, U>
      requires IsFailure()
    {
      if Stop? then Stop(state) else Hang(state)
    }

    function Extract(): (S, T)
      requires Done?
    {
      (state, value)
    }
  }

  /** A value that may be absent. */
  datatype Option<T> = None | Some(value: T)
}
