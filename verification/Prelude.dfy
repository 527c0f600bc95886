/** Small datatypes and integer facts shared by every component. */
module Prelude {
  datatype Option<+T> = None | Some(value: T)

  datatype Result<+T, +E> = Ok(value: T) | Err(error: E) {
    predicate IsFailure() {
      Err?
    }

    function PropagateFailure<U>(): Result<U, E>
      requires Err?
    {
      Err(error)
    }

    function Extract(): T
      requires Ok?
    {
      value
    }
  }

  /** The number of values of Go's `uint64`. */
  const TWO_TO_THE_64: int := 0x1_0000_0000_0000_0000

  /** The number of values of Go's `uint32`. */
  const TWO_TO_THE_32: int := 0x1_0000_0000

  /** The largest `int64`. */
  const MAX_INT64: int := 0x7FFF_FFFF_FFFF_FFFF

  /** Times are unsigned 64-bit; the models keep them below 2^63, which is 292 million years of milliseconds. */
  const TIME_LIMIT: int := 0x8000_0000_0000_0000

  /** `uint64` subtraction, which wraps around below zero. */
  function Sub64(a: int, b: int): int {
    if a >= b then a - b else a - b + TWO_TO_THE_64
  }

  /** `uint64` addition, which wraps around above 2^64 - 1. */
  function Add64(a: int, b: int): int {
    if a + b < TWO_TO_THE_64 then a + b else a + b - TWO_TO_THE_64
  }

  function Min(a: int, b: int): int {
    if a <= b then a else b
  }

  function Max(a: int, b: int): int {
    if a >= b then a else b
  }
}
