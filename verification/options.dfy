/** A value that may be absent: JavaScript's `undefined` result of a lookup. */
module Optional {
  datatype Option<T> = None | Some(value: T)
}
