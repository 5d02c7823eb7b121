module Options {

  /** A value, or JavaScript's `null` or `undefined`. */
  datatype Option<+T> = None | Some(value: T)
}
