/** The optional values that stand for the source's `None`. */
module Options {
  datatype Option<+T> = None | Some(value: T)
}
