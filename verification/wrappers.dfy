/** Option and Result datatypes standing in for C# null references and exceptions. */
module Wrappers {

  /** A reference that may be null: `None` is the C# `null`. */
  datatype Option<+T> = None | Some(value: T) {

    /** The value, or `default` when this is None. */
    function GetOr(default: T): T {
      match this
      case Some(v) => v
      case None => default
    }
  }

  /** The exceptions the modelled code raises or lets escape. */
  datatype Error =
    | NullReference                          // a member read through a null reference
    | ArgumentNull(paramName: string)        // a guard rejecting a null argument
    | ArgumentNullOrEmpty(paramName: string) // a guard rejecting a null or empty string
    | ArgumentInvalid(paramName: string)     // a guard rejecting an argument by a predicate
    | MissingMethod(message: string)         // System.MissingMethodException
    | UmbracoFailure(message: string)        // Umbraco's UmbracoException
    | InvalidCast                            // a failed reference conversion
    | HttpResponseFailure(reasonPhrase: string) // Web API's HttpResponseException, by its response's reason phrase
    | Raised(message: string)                // any other exception, identified by its message

  /** A computation that either returns a value or throws. */
  datatype Result<+R> = Success(value: R) | Failure(error: Error) {

    predicate IsFailure() {
      Failure?
    }

    function PropagateFailure<U>(): Result<U>
      requires Failure?
    {
      Failure(error)
    }

    function Extract(): R
      requires Success?
    {
      value
    }
  }
}
