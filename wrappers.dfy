/** Option and Result, the two failure-carrying types the model uses.
    `None` stands for JavaScript's `undefined`; `Err` for a thrown error
    or an HTTP error reply. */
module Wrappers {

  datatype Option<+T> = None | Some(value: T)

  datatype Result<+T, +E> = Ok(value: T) | Err(error: E)
}
