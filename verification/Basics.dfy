/** The few types every other module shares. */
module Basics {

  datatype Option<+T> = None | Some(value: T) {
    predicate IsFailure() {
      None?
    }

    function PropagateFailure<U>(): Option<U>
      requires None?
    {
      None
    }

    function Extract(): T
      requires Some?
    {
      value
    }
  }

  newtype byte = b: int | 0 <= b < 256

  type bytes = seq<byte>

  const U64_LIMIT := 0x1_0000_0000_0000_0000

  type u64 = n: int | 0 <= n < U64_LIMIT

  type i64 = n: int | -0x8000_0000_0000_0000 <= n < 0x8000_0000_0000_0000

  /** How far below zero a negative i64 can lie. */
  type magnitude = n: int | 0 < n <= 0x8000_0000_0000_0000 witness 1
}
