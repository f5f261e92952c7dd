/** An optional value: a JavaScript field or argument that may be missing. */
module Optional {
  datatype Option<T> = None | Some(value: T)
}
