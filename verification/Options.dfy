/** A value that may be missing: NULL pointers and failed searches. */
module Options {
  datatype Option<+T> = None | Some(value: T)
}
