/**
 Small general-purpose definitions shared by the other modules.
 */
module Wrappers {

  /** The result of a lookup that may find nothing. */
  datatype Option<+T> = None | Some(value: T)

  function Min(a: int, b: int): int
  {
    if a <= b then a else b
  }
}
