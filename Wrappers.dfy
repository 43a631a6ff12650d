/** Failure-compatible helper datatypes shared by every module of the model:
    `Option` stands for JavaScript's `undefined`/`null` versus a value, and
    `Result` for a thrown exception versus a returned value. */
module Wrappers {

  datatype Option<+T> = None | Some(value: T)

  datatype Result<+R, +E> = Ok(value: R) | Err(error: E)
}
