/** The optional value used where the configuration may yield nothing. */
module Options {

  datatype Option<+T> = None | Some(value: T)
}
