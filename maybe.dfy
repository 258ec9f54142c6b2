/** Optional values and failures, used wherever the Python code returns None,
    returns -1 or raises. */
module Maybe {

  datatype Option<+T> = None | Some(value: T)

  datatype Result<+T> = Ok(value: T) | Raised
}
