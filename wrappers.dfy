/** Failure-carrying results. The services report failures as named string errors
    (the `message` of a thrown `Error`), so the error side of `Result` is a string. */
module Wrappers {

  datatype Option<+T> = None | Some(value: T)

  datatype Result<+T> = Ok(value: T) | Err(error: string) {
    predicate IsFailure() { Err? }
  }
}
