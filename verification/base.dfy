/** Failure-carrying wrappers shared by every module of the model.
    `Option` stands for Python's `None`-or-value and JavaScript's `null`-or-value;
    `Result` stands for "returned a value" versus "raised an exception". */
module Base {

  datatype Option<+T> = None | Some(value: T)

  /** The Python exceptions that the modelled code can raise or let escape. */
  datatype Exc =
    | TypeError
    | IndexError
    | ValueError
    | AttributeError

  datatype Result<+T> = Ok(value: T) | Raise(exc: Exc)
}
