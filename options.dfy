/** The optional value used wherever app.js holds `null` or a value. */
module Options {
  datatype Option<+T> = None | Some(value: T)
}
