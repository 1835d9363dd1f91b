/** Optional values (Java's null and Optional) and results (Java's exceptions). */
module Wrappers {

  datatype Option<+T> = None | Some(value: T)

  datatype Result<+T, +E> = Ok(value: T) | Err(error: E)
}
