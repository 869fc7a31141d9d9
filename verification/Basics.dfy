/** Option, Result and the saturating arithmetic the agent's clocks use. */
module Basics {

  datatype Option<+T> = None | Some(value: T)

  datatype Result<+T, +E> = Ok(value: T) | Err(error: E)

  /** `a.saturating_sub(b)` on unsigned integers, and `saturating_duration_since` on instants. */
  function SatSub(a: nat, b: nat): nat {
    if a < b then 0 else a - b
  }

  function Min(a: nat, b: nat): nat {
    if a < b then a else b
  }

  /** The clock never steps back from one tick to a later one. */
  ghost predicate ClockNeverSteps<T>(h: seq<T>, clock: T -> nat) {
    forall i, j :: 0 <= i <= j < |h| ==> clock(h[i]) <= clock(h[j])
  }

  /** Instants and durations are whole nanoseconds. */
  const SECOND: nat := 1_000_000_000
}
