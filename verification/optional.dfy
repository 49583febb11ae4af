/** A value that may be absent; used for Python's `None` returns. */
module Optional {

  datatype Option<+T> = None | Some(value: T)
}
