/** The Python exceptions the modelled code raises, and results that carry
    either a value or the exception raised on the way to it. */
module Outcomes {
  /** The exception kinds; `ValueError` carries which check raised it. */
  datatype Error =
    | KeyError
    | IndexError
    | ZeroDivisionError
    | AttributeError
    | ValueError(reason: Reason)

  /** The checks that raise `ValueError`. */
  datatype Reason =
    | NotInWordBank       // a guess outside the full word bank
    | InvalidCharacters   // a feedback string with a symbol other than g, y, w
    | WrongLength         // a feedback string or word of the wrong length
    | LengthMismatch      // guess and feedback lists of different lengths
    | NotPositive(field: string)  // the named hyperparameter must be positive
    | NotBool             // `hardcore_mode` is not a bool
    | WrongFormat         // a format code that does not apply to the value

  datatype Result<T> = Ok(value: T) | Err(error: Error)

  /** An attribute that an object may lack. */
  datatype Option<T> = None | Some(value: T)
}
