/** The optional value used for nullable fields. */
module Options {
  datatype Option<T> = None | Some(value: T)
}
