/** Optional values and results that carry the source's exception message. */
module Maybe {
  datatype Option<T> = None | Some(value: T)

  datatype Result<T> = Ok(value: T) | Err(message: string)
}
