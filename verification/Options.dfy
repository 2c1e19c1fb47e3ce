/** The result of an operation that may have none. */
module Options {

  datatype Option<T> = None | Some(value: T)
}
