/** A value that may be missing, as the program's `None` and `null`. */
module Options {
  datatype Option<T> = None | Some(value: T)
}
