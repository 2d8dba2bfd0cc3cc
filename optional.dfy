/** Go's optional values: a pointer, interface or error that may be nil. */
module Optional {

  datatype Option<+T> = None | Some(value: T)
}
