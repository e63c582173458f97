/** An optional value: a record field or a store entry that may be missing. */
module Optional {
  datatype Option<T> = None | Some(value: T)
}
