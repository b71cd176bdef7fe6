/** A value that may be missing: the source's null pointers, failed lookups and error returns. */
module Options {
  datatype Option<T> = None | Some(value: T)
}
