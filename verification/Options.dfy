/** A value that may be missing; where the kernel would panic or return a null pointer, None. */
module Options {
  datatype Option<+T> = None | Some(value: T)
}
