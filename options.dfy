/** Java's nullable references and Python's missing dictionary keys, as a value. */
module Options {

  datatype Option<+T> = None | Some(value: T)
}
