/** Optional values and results with an error, used for lookups that can miss and steps that can fail. */
module Maybe {

  datatype Option<+T> = None | Some(value: T)

  datatype Result<+T, +E> = Ok(value: T) | Err(error: E)
}
