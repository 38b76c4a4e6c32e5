/** An optional value: a nullable column, a row that may be missing, a result that may not exist. */
module Options {
  datatype Option<T> = None | Some(value: T)
}
