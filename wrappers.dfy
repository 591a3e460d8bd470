/** Option and Result, as used throughout the model, and a sequence fact the proofs share. */
module Wrappers {
  datatype Option<+T> = None | Some(value: T)

  /** The outcome of a computation the source can abort with a Python exception. */
  datatype Result<+T, +E> = Ok(value: T) | Err(error: E)

  /** Concatenation regroups freely; stated apart so that a proof can use it without
    * the solver searching for it among the other facts in scope. */
  lemma AppendAssoc<T>(a: seq<T>, b: seq<T>, c: seq<T>)
    ensures a + (b + c) == (a + b) + c
  {
  }
}
