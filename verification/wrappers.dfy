/** Failure-carrying values used where the program relies on a library raising
    an exception or returning a sentinel. */
module Wrappers {

  /** An optional value: `None` stands for "no value" (a missing section, a
      render that raised, a timestamp that did not parse). */
  datatype Option<+T> = None | Some(value: T)

  /** A value or the reason it could not be produced. */
  datatype Result<+R, +E> = Success(value: R) | Failure(error: E)
}
