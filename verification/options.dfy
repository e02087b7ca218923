/** The optional-value datatype used where the source produces no usable value. */
module Options {

  datatype Option<+T> = None | Some(value: T)

}
