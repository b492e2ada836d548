/** The usual Some/None wrapper, used for lookups that can miss. */
module Optional {

  datatype Option<+T> = None | Some(value: T)
}
