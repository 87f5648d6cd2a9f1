/** The usual optional value, for parsers that may reject their input. */
module Options {

  datatype Option<+T> = None | Some(value: T)
}
