/** An optional value: a dictionary key that may be absent, a value the engine may not supply. */
module Options {
  datatype Option<+T> = None | Some(value: T)
}
