/** Small things that several models use. */
module Basics {
  datatype Option<T> = None | Some(value: T)

  function OneIf(b: bool): int { if b then 1 else 0 }
}
