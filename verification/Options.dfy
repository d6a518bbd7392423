/** A value that may be absent, as `None` is in the source. */
module Options {
  datatype Option<+T> = None | Some(value: T)
}
