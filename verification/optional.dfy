/** The absent-or-present value used where the Java code returns or stores `null`. */
module Optional {
  datatype Option<+T> = None | Some(value: T)
}
