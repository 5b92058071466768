/**
 * The HTTP side as the SDK sees it: Retrofit's `Response<T>`, the status
 * codes the SDK names, and the requests it sends.
 */
module Http {
  import opened Failures
  import Json
  import Rx

  // Status codes named by the SDK.
  const OK_RESPONSE_CODE: int := 200
  const CREATED_SUCCESS_RESPONSE_CODE: int := 201
  const BAD_REQUEST_RESPONSE_CODE: int := 400
  const UNAUTHORIZED_RESPONSE_CODE: int := 401
  const FORBIDDEN_REQUEST_CODE: int := 403
  const NOT_FOUND_REQUEST_CODE: int := 404
  const TOO_MANY_REQUEST_CODE: int := 429
  const INTERNAL_SERVER_ERROR_CODE: int := 500

  /**
   * A Retrofit response: status code, status message, the parsed body
   * (`body()`, nullable) and the raw error body (`errorBody()?.string()`,
   * nullable).  The payload type only matters for `body`.
   */
  datatype Response<+T> = Response(code: int, message: string, body: Option<T>, errorBody: Option<string>)

  /** `Response.isSuccessful`: the code is in [200, 300). */
  predicate IsSuccessful<T>(response: Response<T>) {
    200 <= response.code < 300
  }

  /** Of the codes the SDK names, only 200 and 201 are successful. */
  lemma NamedCodesClassified<T>(response: Response<T>)
    ensures response.code in {OK_RESPONSE_CODE, CREATED_SUCCESS_RESPONSE_CODE} ==> IsSuccessful(response)
    ensures response.code in {BAD_REQUEST_RESPONSE_CODE, UNAUTHORIZED_RESPONSE_CODE, FORBIDDEN_REQUEST_CODE,
                              NOT_FOUND_REQUEST_CODE, TOO_MANY_REQUEST_CODE, INTERNAL_SERVER_ERROR_CODE} ==>
              !IsSuccessful(response)
  {
  }

  /** The requests the model's endpoints send, with what each carries. */
  datatype HttpRequest =
    | AccessTokenRequest(authorization: string, grantType: string)
    | SessionTokenRequest(grantType: string, clientId: string, clientSecret: string, username: string, password: string)
    | RegisterRequest(authorization: string, user: Json.JsonObject)
    | ValidateCallerIdRequest(authorization: string, body: Json.JsonObject)

  /** The "Bearer" authorization header value for an access token. */
  function Bearer(accessToken: string): (header: string)
    ensures |header| == 7 + |accessToken| && header[..7] == "Bearer " && header[7..] == accessToken
  {
    "Bearer " + accessToken
  }

  /**
   * What one call of an endpoint does: the requests it sends, in order,
   * and how its `Maybe` ends.  The guards of an endpoint are filters on
   * the response, so a request is in `sent` whether or not a guard fails.
   */
  datatype Exchange<+T> = Exchange(sent: seq<HttpRequest>, outcome: Rx.Outcome<T>)
}
