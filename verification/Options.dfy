// Values that may be absent, where the source has `nil` or `NULL`.

module Options {
  datatype Option<+T> = None | Some(value: T)
}
