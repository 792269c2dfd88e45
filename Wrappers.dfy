/** Optional values and error results shared by every model in this project. */
module Wrappers {
  /** A Kotlin nullable value (`T?`) or a Java reference that may be null. */
  datatype Option<T> = None | Some(value: T)

  /** A value, or the exception the source throws instead of returning one. */
  datatype Result<T, E> = Ok(value: T) | Err(error: E)
}
