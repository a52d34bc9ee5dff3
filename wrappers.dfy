/** Failure-carrying values shared by the puzzle models: an absent value
    (`Option`) stands for a Rust `Option` or for a `.unwrap()` that panics. */
module Wrappers {

  datatype Option<+T> = None | Some(value: T)

  function Max(a: int, b: int): (m: int)
    ensures m >= a && m >= b
    ensures m == a || m == b
  {
    if a >= b then a else b
  }
}
