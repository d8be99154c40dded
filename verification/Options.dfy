/** A value that a row or a payload may leave out. */
module Options {
  datatype Option<+T> = None | Some(value: T)
}
