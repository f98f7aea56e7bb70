/** Wrappers: the optional value used where the source may find nothing, and
    the result used where the source may raise. */
module Wrappers {
  datatype Option<T> = None | Some(value: T)

  datatype Result<T> = Ok(value: T) | Err(error: string)
}
