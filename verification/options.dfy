/** The optional value that stands in for a possibly-null pointer. */
module Options {

  datatype Option<T> = None | Some(value: T)
}
