/** A value that may be absent: the result of a parse that can fail. */
module Optional {

  datatype Option<+T> = None | Some(value: T)
}
