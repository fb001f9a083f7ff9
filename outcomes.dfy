/** Error values standing in for the exceptions the Kotlin code throws. */
module Outcomes {

  /** The exceptions the codec and the container can raise. */
  datatype Failure =
    | RangeError     // a `require` on a setter argument failed (IllegalArgumentException)
    | FormatError    // a short read: fewer bytes than a record or a file needs
    | CapacityError  // setControlWord past the last word (ArrayIndexOutOfBoundsException)
    | IndexError     // get(index) outside the words array (ArrayIndexOutOfBoundsException)

  /** The result of a call that returns nothing but may throw. */
  datatype Outcome = Pass | Fail(error: Failure)

  /** The result of a call that returns a value or throws. */
  datatype Result<T> = Ok(value: T) | Err(error: Failure)

  datatype Option<T> = None | Some(value: T)
}
