/** Values that may be missing: null pointers and failed look-ups of the C code. */
module Options {
  datatype Option<+T> = None | Some(value: T)
}
