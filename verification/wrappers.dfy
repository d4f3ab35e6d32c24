/** Failure-compatible wrappers shared by the whole model: `Option` stands for
    JavaScript's `null`/absent value, `Result` for a call that either returns or throws. */
module Wrappers {

  datatype Option<+T> = None | Some(value: T)

  datatype Result<+T, +E> = Success(value: T) | Failure(error: E)
}
