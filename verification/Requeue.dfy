/** Time in nanoseconds, and the result with which a pass ends. */
module Requeue {
  const SECOND := 1_000_000_000

  datatype Result = Result(requeueAfter: int, requeue: bool)
}
