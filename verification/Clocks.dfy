/** Runs in time order. */
module Clocks {

  /** No step takes place before `from` or before the step that precedes it. */
  predicate Forward<T>(from: real, steps: seq<T>, time: T -> real)
    decreases |steps|
  {
    steps == [] || (from <= time(steps[0]) && Forward(time(steps[0]), steps[1..], time))
  }
}
