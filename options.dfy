/** The optional value used wherever a JavaScript value may be `undefined`. */
module Options {
  datatype Option<+T> = None | Some(value: T)
}
