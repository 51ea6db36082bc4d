/** Values that may be missing: absent fields, empty results, errors that did not happen. */
module Options {
  datatype Option<T> = None | Some(value: T)
}
