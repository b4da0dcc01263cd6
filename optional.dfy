/** A value that may be absent: JavaScript's `undefined` for a missing property or query parameter. */
module Optional {

  datatype Option<+T> = None | Some(value: T)
}
