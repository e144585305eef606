/** Failure-compatible wrappers shared by the modules of this model:
    `Option` stands for a JavaScript value that may be `undefined`,
    `Result` for a validation outcome that either yields the parsed value
    or the list of issues found. */
module Wrappers {

  datatype Option<+T> = None | Some(value: T)

  datatype Result<+R, +E> = Success(value: R) | Failure(error: E)
}
