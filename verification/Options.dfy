/** A value that may be missing: the error returns and lookups of the modelled code. */
module Options {
  datatype Option<+T> = None | Some(value: T)
}
