/** The optional value shared by every model. */
module Options {
  datatype Option<+T> = None | Some(value: T)
}
