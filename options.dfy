/** An optional value: an absent attribute, a missing element, a failed parse. */
module Options {
  datatype Option<+T> = None | Some(value: T)
}
