/** The optional value used wherever the program may find nothing. */
module Options {

  datatype Option<+T> = None | Some(value: T)
}
