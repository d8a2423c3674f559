/** Types shared by the models. */
module Basics {

  datatype Option<+T> = None | Some(value: T)

  /** Nanoseconds since Go's zero time, 1 January of year 1, 00:00 UTC. */
  type Instant = int
}
