module Options {

  datatype Option<+T> = None | Some(value: T)

  /** A returned value, or the KeyError the program raises. */
  datatype Result<+T> = Ok(value: T) | Missing
}
