/** A value or none: a result the source gives as a null pointer, a -1 or a panic. */
module Options {

  datatype Option<+T> = None | Some(value: T)
}
