/** The optional values of the modelled code (`None` in Python). */
module Options {
  datatype Option<+T> = None | Some(value: T)
}
