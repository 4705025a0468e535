/** Shared value wrappers: optional values, results, and the exceptions the
    plugin's PHP code throws or lets escape. */
module Outcomes {

  /** A value that may be absent (PHP null, JavaScript undefined). */
  datatype Option<+T> = None | Some(value: T)

  /** The outcome of an operation that may throw. */
  datatype Result<+T, +E> = Ok(value: T) | Err(error: E)

  /** What a PHP operation of the plugin can throw. */
  datatype Failure =
    | PhpException(message: string, code: int)  // \Exception( message, code )
    | InvalidData(message: string)              // Webauthn\Exception\InvalidDataException
    | TypeError                                 // PHP TypeError under strict_types
    | LibraryError(message: string)             // anything thrown inside the webauthn library
}
