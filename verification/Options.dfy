/** The result of a lookup, a parse or a decode that may have none. */
module Options {
  datatype Option<+T> = None | Some(value: T)
}
