/** The optional and failure-carrying values the note code uses in place of
    `undefined`/`null` and of thrown errors. */
module Wrappers {

  datatype Option<T> = None | Some(value: T)

  datatype Result<T, E> = Success(value: T) | Failure(error: E)
}
