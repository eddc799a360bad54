/** A value or an error, for the source's `(value, error)` results. */
module Options {
  datatype Option<+T> = None | Some(value: T)
}
