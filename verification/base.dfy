/** Failure-carrying datatypes shared by every module of the model. */
module Base {

  /** The conventional Some/None datatype, used where JavaScript returns `null`. */
  datatype Option<+T> = None | Some(value: T)

  /** How a JavaScript call completes: with a value, or by throwing an error
      that carries a message. */
  datatype Completion<+T> = Normal(value: T) | Throw(message: string)
}
