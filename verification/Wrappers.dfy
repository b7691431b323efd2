/** Option, Result, bytes and a law of sequences, shared by every module of the model. */
module Wrappers {

  datatype Option<+T> = None | Some(value: T)

  /** The source's return value or its raised exception. */
  datatype Result<+T, +E> = Ok(value: T) | Err(error: E)

  type byte = x: int | 0 <= x < 256

  type Bytes = seq<byte>

  lemma Associative<T>(a: seq<T>, b: seq<T>, c: seq<T>)
    ensures a + (b + c) == a + b + c
  {
  }
}
