/**
 * Kotlin nullable values and the ways a call in the SDK can end: normally
 * with a value, or by throwing.  A throw is a value here, so that every
 * operation of the model is a total function.
 */
module Failures {

  /** A Kotlin nullable value `T?`. */
  datatype Option<+T> = None | Some(value: T)

  /** How a Kotlin string template (`"$x"`) renders a nullable string. */
  function Render(s: Option<string>): (r: string)
    ensures s.Some? ==> r == s.value
    ensures s.None? ==> r == "null"
  {
    match s
    case None => "null"
    case Some(v) => v
  }

  /** The exception classes that the SDK itself throws. */
  datatype ExceptionClass =
    | EraSdkUnInitializedException
    | SessionTokenExpiredException
    | RuntimeException
    | Exception

  /**
   * Failures raised by the Kotlin runtime or by RxJava rather than by the
   * SDK's own `throw` statements; their text is not the SDK's, so only
   * their cause is recorded.
   */
  datatype Fault =
    | NumberFormat(input: string)    // `String.toLong()` on a string that is not a Long
    | NullCast(targetType: string)   // `null as T` for a non-null type T
    | NullMapped                     // an Rx `map` whose mapper returned null

  /** A thrown Throwable: the SDK's own exceptions carry `getMessage()`, which may be null. */
  datatype Error =
    | Raised(exception: ExceptionClass, message: Option<string>)
    | Failure(fault: Fault)

  /** The result of a Kotlin call that either returns a value or throws. */
  datatype Try<+T> = Ok(value: T) | Thrown(error: Error)

  /** `throw E(message)` with a non-null message. */
  function Throw<T>(exception: ExceptionClass, message: string): (r: Try<T>)
    ensures r.Thrown? && r.error == Raised(exception, Some(message))
  {
    Thrown(Raised(exception, Some(message)))
  }
}
