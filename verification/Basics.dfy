/** Values shared by every component: optional values, results and 64-bit saturating counters. */
module Basics {

  datatype Option<+T> = None | Some(value: T)

  datatype Result<+T, +E> = Ok(value: T) | Err(error: E) {
    predicate IsFailure() {
      Err?
    }

    function PropagateFailure<U>(): Result<U, E>
      requires Err?
    {
      Err(error)
    }

    function Extract(): T
      requires Ok?
    {
      value
    }
  }

  /** One octet of a wire message, a key or a file. */
  type Byte = x: nat | x < 256

  type Bytes = seq<Byte>

  const U64_MAX: nat := 0xFFFF_FFFF_FFFF_FFFF

  /** A value of an unsigned 64-bit counter. */
  type U64 = x: nat | x <= U64_MAX

  function Min(x: int, y: int): int {
    if x < y then x else y
  }

  function Max(x: int, y: int): int {
    if x < y then y else x
  }

  /** The `saturating_add` of an unsigned 64-bit counter. */
  function SaturatingAdd(x: nat, y: nat): U64 {
    Min(x + y, U64_MAX)
  }

  /** Counting one by one saturates exactly where adding at once does. */
  lemma SaturatingAddAssociates(x: nat, y: nat, z: nat)
    ensures SaturatingAdd(SaturatingAdd(x, y), z) == SaturatingAdd(x, y + z)
  {
  }
}
