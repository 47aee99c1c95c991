/** The two exceptions the generator can end with. */
module Errors {

  datatype Exception =
    /** Thrown by the constructor for a document without `features`. */
    | InvalidArgumentException(message: string)
    /** Thrown by PHP 8's `/` operator when the divisor is zero. */
    | DivisionByZeroError(message: string)

  const InvalidGeoJson: Exception := InvalidArgumentException("Invalid GeoJSON data.")

  const DivisionByZero: Exception := DivisionByZeroError("Division by zero")
}
