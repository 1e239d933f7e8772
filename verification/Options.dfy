/** A value that may be absent: Go's nil, or its second result. */
module Options {

  datatype Option<+T> = None | Some(value: T)
}
