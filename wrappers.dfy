/**
 * PHP's `null` for an optional value, the outcome of an operation that can throw, and the one fact
 * about sequences that the proofs use everywhere.
 */
module Wrappers {

  /** A value or PHP's `null`. */
  datatype Option<+T> = None | Some(value: T)

  /** A value or the exception that a PHP function threw instead of returning it. */
  datatype Result<+T> = Ok(value: T) | Threw(error: Error)

  /** The exceptions and engine errors that the modelled code can raise. */
  datatype Error =
    | RuntimeException(message: string)
    | TypeError(message: string)

  /** Concatenation is associative. */
  lemma ConcatAssoc<T>(a: seq<T>, b: seq<T>, c: seq<T>)
    ensures a + (b + c) == (a + b) + c
  {
  }
}
