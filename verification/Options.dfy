/** An optional value: a missing key, row or parameter. */
module Options {

  datatype Option<+T> = None | Some(value: T)
}
