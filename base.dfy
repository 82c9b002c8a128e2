/**
 * Small shared vocabulary: an optional value (Java's nullable references)
 * and the kinds of host exception the modelled Java code throws instead of
 * returning.
 */
module Base {
  /** A nullable reference: `None` stands for Java's `null`. */
  datatype Option<T> = None | Some(value: T)

  /** The Java exceptions and failed assertions that abort an operation. */
  datatype Fault =
    | IllegalState          // IllegalStateException, including "assert" failures
    | Unsupported           // UnsupportedOperationException
    | IllegalArgument       // IllegalArgumentException
    | ClassCast             // a failed cast
    | OutOfBounds           // ArrayIndexOutOfBoundsException
    | NullPointer           // NullPointerException

  /** A computation that either yields a value or throws a host exception. */
  datatype Result<T> = Ok(value: T) | Err(fault: Fault)

  /**
   * Where the code as written and its evident intent part ways, which of
   * the two a member follows.
   */
  datatype Variant = AsWritten | Corrected
}
