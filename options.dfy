/** The optional value used wherever the source has `null`, `undefined` or `None`. */
module Options {

  datatype Option<+T> = None | Some(value: T)
}
