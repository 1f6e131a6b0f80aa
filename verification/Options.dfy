/** The two-valued result every component uses for "nothing yet". */
module Options {
  datatype Option<+T> = None | Some(value: T)
}
