/**
 * The generic classifier every endpoint applies to an HTTP response: a
 * 2xx response passes, every other one throws a `RuntimeException`
 * whose message depends on the status code.
 */
module ResponseChecker {
  import opened Failures
  import opened Http
  import opened Text

  const TOO_MANY_REQUESTS_MESSAGE: string := "Too many requests. Please try again later"
  const SOMETHING_WENT_WRONG_PREFIX: string := "Something went wrong, please try again: "

  /** The message for a status the classifier has no special case for: it quotes the status message and the error body. */
  function SomethingWentWrong(message: string, errorBody: Option<string>): (text: string)
    ensures StartsWith(text, SOMETHING_WENT_WRONG_PREFIX)
    ensures Contains(text, message, false)
    ensures Contains(text, Render(errorBody), false)
  {
    var withMessage := SOMETHING_WENT_WRONG_PREFIX + message;
    StartsWithExtended(SOMETHING_WENT_WRONG_PREFIX, SOMETHING_WENT_WRONG_PREFIX, message);
    StartsWithExtended(withMessage, SOMETHING_WENT_WRONG_PREFIX, " ");
    StartsWithExtended(withMessage + " ", SOMETHING_WENT_WRONG_PREFIX, Render(errorBody));
    ContainsSuffix(SOMETHING_WENT_WRONG_PREFIX, message, false);
    ContainsExtended(withMessage, message, " ", false);
    ContainsExtended(withMessage + " ", message, Render(errorBody), false);
    ContainsSuffix(withMessage + " ", Render(errorBody), false);
    withMessage + " " + Render(errorBody)
  }

  /**
   * `checkIfItsASuccessfulResponse(response)`: true for a 2xx response;
   * otherwise it throws, with the error body itself for 400, a fixed text
   * for 429, and for any other code a text that quotes the status message
   * and the error body.  It never returns false.
   */
  function CheckIfItsASuccessfulResponse<T>(response: Response<T>): (r: Try<bool>)
    ensures r != Ok(false)
    ensures r == Ok(true) <==> IsSuccessful(response)
    ensures !IsSuccessful(response) ==> r.Thrown? && r.error.Raised? && r.error.exception == RuntimeException
    ensures !IsSuccessful(response) && response.code == BAD_REQUEST_RESPONSE_CODE ==>
              r.error.message == response.errorBody
    ensures !IsSuccessful(response) && response.code == TOO_MANY_REQUEST_CODE ==>
              r.error.message == Some(TOO_MANY_REQUESTS_MESSAGE)
    ensures !IsSuccessful(response) && response.code != BAD_REQUEST_RESPONSE_CODE && response.code != TOO_MANY_REQUEST_CODE ==>
              r.error.message == Some(SomethingWentWrong(response.message, response.errorBody))
  {
    if IsSuccessful(response) then Ok(true)
    else if response.code == BAD_REQUEST_RESPONSE_CODE then Thrown(Raised(RuntimeException, response.errorBody))
    else if response.code == TOO_MANY_REQUEST_CODE then Throw(RuntimeException, TOO_MANY_REQUESTS_MESSAGE)
    else Throw(RuntimeException, SomethingWentWrong(response.message, response.errorBody))
  }

  /**
   * For 401, 403, 404, 500 and every other unlisted failure code the
   * message contains the server's error body (rendered "null" when absent).
   */
  lemma OtherFailureQuotesErrorBody<T>(response: Response<T>)
    requires !IsSuccessful(response)
    requires response.code != BAD_REQUEST_RESPONSE_CODE && response.code != TOO_MANY_REQUEST_CODE
    ensures var r := CheckIfItsASuccessfulResponse(response);
            r.Thrown? && r.error.Raised? && r.error.message.Some? &&
            Contains(r.error.message.value, Render(response.errorBody), false)
  {
  }

  /** The outcome depends on code, status message and error body only, never on the payload. */
  lemma PayloadIndependent<T, U>(a: Response<T>, b: Response<U>)
    requires a.code == b.code && a.message == b.message && a.errorBody == b.errorBody
    ensures CheckIfItsASuccessfulResponse(a) == CheckIfItsASuccessfulResponse(b)
  {
  }
}
