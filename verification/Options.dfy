/** Values that may be absent: SQL NULL, optional JSON fields, lookups that find nothing. */
module Options {
  datatype Option<+T> = None | Some(value: T)

  /** COALESCE of two values. */
  function Coalesce<T>(a: Option<T>, b: Option<T>): Option<T> {
    if a.Some? then a else b
  }
}
