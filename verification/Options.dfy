// A value that may be absent: a null pointer, an unattached channel, a lookup without a result.
module Options {
  datatype Option<+T> = None | Some(value: T)
}
