/** Small shared datatypes. */
module Common {

  /** A value that may be absent: a query's `.first()` / `.get()` that found nothing. */
  datatype Option<+T> = None | Some(value: T)
}
