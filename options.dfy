/** An optional value: a lookup that may find nothing, an operation that may fail. */
module Options {
  datatype Option<+T> = None | Some(value: T)
}
