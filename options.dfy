/** The optional value used for every nullable column, argument and regex match. */
module Options {

  datatype Option<+T> = None | Some(value: T)
}
