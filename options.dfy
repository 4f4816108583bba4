/** Swift's `Optional`, as a Dafny datatype. */
module Options {
  datatype Option<+T> = None | Some(value: T)
}
