/** Small failure-carrying datatypes shared by the signalling model. */
module Wrappers {

  /** An optional value, as Rust's `Option`. */
  datatype Option<+T> = None | Some(value: T)

  /** The `Result<(), Error>` every room-service operation returns. */
  datatype Outcome = Ok | Err(reason: string)
}
