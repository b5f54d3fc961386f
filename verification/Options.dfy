/** A value that may be absent: Python's `None`, or an exception whose kind does not matter. */
module Options {
  datatype Option<T> = None | Some(value: T)
}
