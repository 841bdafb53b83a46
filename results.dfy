/** Failure-compatible result type and the exceptions the modelled Java code can raise. */
module Results {

  /** The exceptions thrown by the parsers, the converters and the directive. */
  datatype Error =
    | InvalidByteSizeFormat        // IllegalArgumentException "Invalid byte size format"
    | InvalidTimeDurationFormat    // IllegalArgumentException "Invalid time duration format"
    | UnknownSizeUnit              // IllegalArgumentException "Unknown size unit"
    | UnknownTimeUnit              // IllegalArgumentException "Unknown time unit"
    | InvalidByteUnit(unit: string) // IllegalArgumentException "Invalid byte unit for conversion"
    | InvalidTimeUnit(unit: string) // IllegalArgumentException "Invalid time unit for conversion"
    | NumberFormat                 // NumberFormatException from Long.parseLong
    | NullValue(column: string)    // NullPointerException on a column the row does not hold

  datatype Option<+T> = None | Some(value: T)

  datatype Result<+T> = Success(value: T) | Failure(error: Error) {
    predicate IsFailure() {
      Failure?
    }

    function PropagateFailure<U>(): Result<U>
      requires Failure?
    {
      Failure(error)
    }

    function Extract(): T
      requires Success?
    {
      value
    }
  }
}
