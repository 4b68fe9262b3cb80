/** The optional value used throughout the project: a null pointer, a missing key, a lookup that fails. */
module Options {
  datatype Option<+T> = None | Some(value: T)
}
