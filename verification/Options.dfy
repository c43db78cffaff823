/** A value that may be missing: SQL's NULL, a file that does not exist, a failed command's output. */
module Options {
  datatype Option<+T> = None | Some(value: T)
}
