/** The usual Some/None wrapper, for operations that may fail. */
module Optional {
  datatype Option<+T> = None | Some(value: T)
}
