/** The optional value used for absent arguments, fields and matches. */
module Common {
  datatype Option<+T> = None | Some(value: T)
}
