/** Optional values and results with an error, used wherever the modelled code
    may produce nothing or fail (a thrown error becomes an `Err`). */
module Outcome {
  datatype Option<+T> = None | Some(value: T)

  datatype Result<+T, +E> = Ok(value: T) | Err(error: E)
}
