/**
 * Optional values, the errors the primitive-value system and its helpers
 * throw, and the result types that carry them.
 */
module Outcomes {

  /** `undefined` versus a present value. */
  datatype Option<+T> = None | Some(value: T)

  /**
   * One constructor per error the modelled code raises, and `NotANumber` for
   * text the model gives no number to.
   */
  datatype PioError =
    | InvalidUuid            // "String is not a valid uuid"
    | InvalidBase64          // "String is not a valid base64 string"
    | DateValidationFailed   // "Validation of the date failed"
    | TimeValidationFailed   // "Validation of the time failed"
    | NotADateString         // "The string is not a valid date or dateTime string"
    | NoTimeMatch            // the time regex found nothing, so reading `[0]` of `null` throws
    | TimeInDate             // "String contains time information and cannot be converted to DatePIO"
    | NotABoolean            // "String cannot be converted to boolean"
    | DecimalForInteger      // "String seems to be a decimal number, but integer was expected"
    | NegativeUnsigned       // "UnsignedInteger value is negative"
    | WrongMode              // "Wrong mode stated"
    | UnknownDataType        // reading `parseFromString` of an unknown class name
    | NoFirstCharacter       // `s[0].toUpperCase()` on the empty string
    | NotANumber             // text outside the digit strings the model gives a number to
    | TransformFailed(cause: PioError)  // "Error transforming data: <cause>"

  /** A value or the error that was thrown instead. */
  datatype Result<+T> = Ok(value: T) | Err(error: PioError)

  /** A check that returns normally or throws. */
  datatype Outcome = Pass | Fail(error: PioError)
}
