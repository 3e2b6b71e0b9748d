/**
 * `HttpResponseMessageGenerator.For`: runs a function once and turns its
 * outcome into an HTTP response. Umbraco.Pylon and Umbraco.PylonTools carry
 * the same method, so one model serves both.
 *
 * The function's single evaluation is its `FunctionOutcome`: the object it
 * returned (possibly null) or the message of the exception it threw.
 */
module HttpResponse {
  import opened Wrappers

  /** What evaluating the function did. */
  datatype FunctionOutcome<T> = Returned(item: Option<T>) | Threw(message: string)

  /** A response body: the returned item, or an error message. */
  datatype Body<T> = Item(value: T) | HttpError(message: string)

  datatype Response<T> = Response(status: int, body: Body<T>)

  /** 200 OK, section 15.3.1 of RFC 9110. */
  const StatusOk: int := 200
  /** 404 Not Found, section 15.5.5 of RFC 9110. */
  const StatusNotFound: int := 404
  /** 500 Internal Server Error, section 15.6.1 of RFC 9110. */
  const StatusInternalServerError: int := 500

  const NotFoundMessage: string := "An item was not found at this address."

  /**
   * `For`: 200 carrying a non-null result, 404 with the fixed message for a
   * null result, 500 with the exception's message when the function threw.
   */
  function For<T>(outcome: FunctionOutcome<T>): (r: Response<T>)
    ensures r.status == StatusOk <==> outcome.Returned? && outcome.item.Some?
    ensures r.status == StatusNotFound <==> outcome == Returned(None)
    ensures r.status == StatusInternalServerError <==> outcome.Threw?
    ensures outcome.Returned? && outcome.item.Some? ==> r.body == Item(outcome.item.value)
    ensures outcome == Returned(None) ==> r.body == HttpError(NotFoundMessage)
    ensures outcome.Threw? ==> r.body == HttpError(outcome.message)
  {
    match outcome
    case Returned(Some(item)) => Response(StatusOk, Item(item))
    case Returned(None) => Response(StatusNotFound, HttpError(NotFoundMessage))
    case Threw(message) => Response(StatusInternalServerError, HttpError(message))
  }

  /** The outcome a response reports, read back from its status and body. */
  function Recover<T>(response: Response<T>): Option<FunctionOutcome<T>> {
    if response.status == StatusOk && response.body.Item? then Some(Returned(Some(response.body.value)))
    else if response.status == StatusNotFound && response.body == HttpError(NotFoundMessage) then Some(Returned(None))
    else if response.status == StatusInternalServerError && response.body.HttpError? then Some(Threw(response.body.message))
    else None
  }

  /** Every response `For` gives is one of exactly three statuses. */
  lemma ExactlyOneStatus<T>(outcome: FunctionOutcome<T>)
    ensures For(outcome).status in {StatusOk, StatusNotFound, StatusInternalServerError}
  {
  }

  /** The response determines the outcome: reading it back gives the outcome that produced it. */
  lemma ForIsInvertible<T>(outcome: FunctionOutcome<T>)
    ensures Recover(For(outcome)) == Some(outcome)
  {
  }

  /** Different outcomes give different responses. */
  lemma ForIsInjective<T>(a: FunctionOutcome<T>, b: FunctionOutcome<T>)
    ensures For(a) == For(b) ==> a == b
  {
    ForIsInvertible(a);
    ForIsInvertible(b);
  }
}
