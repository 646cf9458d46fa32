/** The optional value and the checked result shared by the other modules. */
module Options {

  datatype Option<+T> = None | Some(value: T)

  /** A call that either returns a value or raises. */
  datatype Checked<+T> = Ok(value: T) | Raised
}
