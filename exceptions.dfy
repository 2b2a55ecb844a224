/** The Python exceptions the contact book raises, and the two ways a call
    can end: with a value or with an exception. */
module Exceptions {

  /** The exception kinds the core raises or that the command layer tells apart. */
  datatype Exc =
    | ValueError
    | IndexError
    | KeyError
    | NameError
    | OverflowError
    | Other(message: string)

  /** The outcome of a Python call that returns a value or raises. */
  datatype Result<T> = Ok(value: T) | Err(error: Exc)

  /** The outcome of a Python call that returns nothing or raises. */
  datatype Status = Done | Raised(error: Exc)

  datatype Option<T> = None | Some(value: T)
}
