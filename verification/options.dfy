/** An optional value: the result of a parse or lookup that may find nothing. */
module Options {
  datatype Option<T> = None | Some(value: T)
}
