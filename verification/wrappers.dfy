/** Option and Result values for the collaborators' results. */
module Wrappers {

  /** A value that may be absent (Go's nil error, a call that was not made). */
  datatype Option<+T> = None | Some(value: T)

  /** A value or an error, as returned by `clus.Export` and `m.ParseManifests`. */
  datatype Result<+R, +E> = Success(value: R) | Failure(error: E)
}
