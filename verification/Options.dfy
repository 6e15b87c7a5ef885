/** A value that may be missing: a nil pointer, a nil map, an absent key. */
module Options {
  datatype Option<+T> = None | Some(value: T)
}
