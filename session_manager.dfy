/**
 * Logging in (`SessionManager.getSessionToken`): the password-grant token
 * request, then the init guard, then the login classifier, then the
 * response body as the session token.  No expiry check is applied.
 */
module SessionManager {
  import opened Failures
  import opened Numbers
  import opened Text
  import opened Http
  import Rx
  import Preferences
  import Sdk
  import ResponseChecker
  import opened SessionTokens

  const NOT_INITIALIZED_MESSAGE: string := "Error logging user in. Please make sure the SDK has been initialized."
  const INVALID_CREDENTIALS_MESSAGE: string := "Invalid user credentials."
  const TOO_MANY_REQUESTS_MESSAGE: string := "Too many requests. Please try again later."
  const LOGIN_ERROR_PREFIX: string := "Login error: "
  const PASSWORD_GRANT: string := "password"
  /** The type named by the failing `body() as SessionToken` cast. */
  const SESSION_TOKEN_TYPE: string := "com.rapidsos.emergencydatasdk.data.network_response.SessionToken"

  /** `"Login error: $code $message $errorBody"`. */
  function LoginError(code: int, message: string, errorBody: Option<string>): (text: string)
    ensures StartsWith(text, LOGIN_ERROR_PREFIX)
    ensures Contains(text, DecimalString(code), false)
    ensures Contains(text, message, false)
    ensures Contains(text, Render(errorBody), false)
  {
    QuotedParts(DecimalString(code), message, Render(errorBody));
    LOGIN_ERROR_PREFIX + DecimalString(code) + " " + message + " " + Render(errorBody)
  }

  lemma QuotedParts(digits: string, message: string, body: string)
    ensures var text := LOGIN_ERROR_PREFIX + digits + " " + message + " " + body;
            StartsWith(text, LOGIN_ERROR_PREFIX) &&
            Contains(text, digits, false) && Contains(text, message, false) && Contains(text, body, false)
  {
    var withDigits := LOGIN_ERROR_PREFIX + digits;
    var withMessage := withDigits + " " + message;
    var beforeBody := withMessage + " ";
    StartsWithExtended(LOGIN_ERROR_PREFIX, LOGIN_ERROR_PREFIX, digits);
    StartsWithExtended(withDigits, LOGIN_ERROR_PREFIX, " ");
    StartsWithExtended(withDigits + " ", LOGIN_ERROR_PREFIX, message);
    StartsWithExtended(withMessage, LOGIN_ERROR_PREFIX, " ");
    StartsWithExtended(beforeBody, LOGIN_ERROR_PREFIX, body);
    ContainsSuffix(LOGIN_ERROR_PREFIX, digits, false);
    ContainsExtended(withDigits, digits, " ", false);
    ContainsExtended(withDigits + " ", digits, message, false);
    ContainsExtended(withMessage, digits, " ", false);
    ContainsExtended(beforeBody, digits, body, false);
    ContainsSuffix(withDigits + " ", message, false);
    ContainsExtended(withMessage, message, " ", false);
    ContainsExtended(beforeBody, message, body, false);
    ContainsSuffix(beforeBody, body, false);
  }

  /**
   * The login classifier (`filter`): true for a 2xx response; otherwise an
   * `Exception` whose message is fixed for 401 and 429 and quotes code,
   * status message and error body for every other code, 400 included.
   */
  function Filter<T>(response: Response<T>): (r: Try<bool>)
    ensures r != Ok(false)
    ensures r == Ok(true) <==> IsSuccessful(response)
    ensures !IsSuccessful(response) ==> r.Thrown? && r.error.Raised? && r.error.exception == Exception
    ensures !IsSuccessful(response) && response.code == UNAUTHORIZED_RESPONSE_CODE ==>
              r.error.message == Some(INVALID_CREDENTIALS_MESSAGE)
    ensures !IsSuccessful(response) && response.code == TOO_MANY_REQUEST_CODE ==>
              r.error.message == Some(TOO_MANY_REQUESTS_MESSAGE)
    ensures !IsSuccessful(response) && response.code != UNAUTHORIZED_RESPONSE_CODE && response.code != TOO_MANY_REQUEST_CODE ==>
              r.error.message == Some(LoginError(response.code, response.message, response.errorBody))
  {
    if IsSuccessful(response) then Ok(true)
    else if response.code == UNAUTHORIZED_RESPONSE_CODE then Throw(Exception, INVALID_CREDENTIALS_MESSAGE)
    else if response.code == TOO_MANY_REQUEST_CODE then Throw(Exception, TOO_MANY_REQUESTS_MESSAGE)
    else Throw(Exception, LoginError(response.code, response.message, response.errorBody))
  }

  /** `it.body() as SessionToken`: a null body fails the cast. */
  function BodyAsSessionToken(response: Response<SessionToken>): (r: Try<SessionToken>)
    ensures response.body.Some? <==> r.Ok?
    ensures response.body.Some? ==> r.value == response.body.value
    ensures response.body.None? ==> r == Thrown(Failure(NullCast(SESSION_TOKEN_TYPE)))
  {
    match response.body
    case Some(token) => Ok(token)
    case None => Thrown(Failure(NullCast(SESSION_TOKEN_TYPE)))
  }

  /** The token request, with the client credentials read from the store. */
  function LoginRequest(store: map<string, string>, username: string, password: string): (r: HttpRequest)
    ensures r.SessionTokenRequest? && r.grantType == PASSWORD_GRANT
    ensures r.clientId == Preferences.ClientId(store) && r.clientSecret == Preferences.ClientSecret(store)
    ensures r.username == username && r.password == password
  {
    SessionTokenRequest(PASSWORD_GRANT, Preferences.ClientId(store), Preferences.ClientSecret(store), username, password)
  }

  /**
   * `getSessionToken(username, password)`, given the init flag, the
   * preference store and the server's response.
   */
  function GetSessionToken(isSdkInit: bool, store: map<string, string>, username: string, password: string,
                           response: Response<SessionToken>): (r: Exchange<SessionToken>)
    ensures r.sent == [SessionTokenRequest(PASSWORD_GRANT, Preferences.ClientId(store), Preferences.ClientSecret(store), username, password)]
    ensures !r.outcome.Empty?
    ensures !isSdkInit ==> r.outcome == Rx.Failed(Raised(EraSdkUnInitializedException, Some(NOT_INITIALIZED_MESSAGE)))
    ensures isSdkInit && !IsSuccessful(response) ==> r.outcome == Rx.Failed(Filter(response).error)
    ensures isSdkInit && IsSuccessful(response) && response.body.Some? ==> r.outcome == Rx.Value(response.body.value)
    ensures isSdkInit && IsSuccessful(response) && response.body.None? ==>
              r.outcome == Rx.Failed(Failure(NullCast(SESSION_TOKEN_TYPE)))
  {
    var received := Rx.Value(response);
    var initialised := Rx.Filter(received, (_: Response<SessionToken>) => Sdk.InitializationCheck(isSdkInit, NOT_INITIALIZED_MESSAGE));
    var classified := Rx.Filter(initialised, (resp: Response<SessionToken>) => Filter(resp));
    var token := Rx.Map(classified, (resp: Response<SessionToken>) => BodyAsSessionToken(resp));
    Exchange([LoginRequest(store, username, password)], token)
  }

  /**
   * Login applies no expiry check: a token the server returns is
   * delivered as received, even one that is already expired.
   */
  lemma DeliversExpiredTokens(store: map<string, string>, username: string, password: string,
                              response: Response<SessionToken>, now: Long)
    requires IsSuccessful(response) && response.body.Some?
    requires IsTokenExpired(response.body.value, now) == Ok(true)
    ensures GetSessionToken(true, store, username, password, response).outcome == Rx.Value(response.body.value)
  {
  }

  /** Uninitialised, every response gives the init error, and the request is still sent. */
  lemma InitGuardFirst(store: map<string, string>, username: string, password: string,
                       a: Response<SessionToken>, b: Response<SessionToken>)
    ensures GetSessionToken(false, store, username, password, a) == GetSessionToken(false, store, username, password, b)
    ensures |GetSessionToken(false, store, username, password, a).sent| == 1
  {
  }

  /** The two fixed messages; the 429 text ends with a period, unlike the generic classifier's. */
  lemma FixedMessages<T>(unauthorized: Response<T>, tooMany: Response<T>)
    requires unauthorized.code == UNAUTHORIZED_RESPONSE_CODE && tooMany.code == TOO_MANY_REQUEST_CODE
    ensures Filter(unauthorized) == Thrown(Raised(Exception, Some("Invalid user credentials.")))
    ensures Filter(tooMany) == Thrown(Raised(Exception, Some("Too many requests. Please try again later.")))
    ensures TOO_MANY_REQUESTS_MESSAGE == ResponseChecker.TOO_MANY_REQUESTS_MESSAGE + "."
  {
  }
}
