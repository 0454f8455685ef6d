/** Optional values and results, as the viewer's Rust code returns them. */
module Wrappers {
  datatype Option<T> = None | Some(value: T)

  datatype Result<R, E> = Ok(value: R) | Err(error: E)
}
