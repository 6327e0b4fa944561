/** A value that may be missing: a NULL column, or a row that is not found. */
module Options {

  datatype Option<+T> = None | Some(value: T)
}
