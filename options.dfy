/** The usual optional value, used for "absent" results throughout the model. */
module Options {

  datatype Option<+T> = None | Some(value: T)
}
