/** A value or none: a C function's null result, an absent argument. */
module Options {
  datatype Option<T> = None | Some(value: T)
}
