/** The optional value used by every module that models a lookup. */
module Options {
  datatype Option<+T> = None | Some(value: T)
}
