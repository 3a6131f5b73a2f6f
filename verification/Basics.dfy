/** Values shared by every module of the model. */
module Basics {

  datatype Option<+T> = None | Some(value: T)

  /** A reading of the server's clock, in nanoseconds since the process started. */
  type Time = nat

  /** Left and right track speeds, as a client, the motor link and the service exchange them. */
  datatype Pair = Pair(left: int, right: int) {
    predicate IsStop() {
      left == 0 && right == 0
    }
  }

  const STOP := Pair(0, 0)

  /** Counters of Go type `uint64` wrap around here. */
  const TWO_64: nat := 0x1_0000_0000_0000_0000
}
