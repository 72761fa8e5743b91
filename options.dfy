/** The optional value used for the session's `None`-able fields. */
module Options {
  datatype Option<+T> = None | Some(value: T)
}
