/**
 * Validating a pin (`PinValidator.validatePin`): the caller-id request,
 * then the init guard, the session-token expiry guard, the validation
 * classifier, and the response body as the caller id.
 */
module PinValidator {
  import opened Failures
  import opened Numbers
  import opened Text
  import opened Http
  import Rx
  import Json
  import Sdk
  import ResponseChecker
  import opened SessionTokens

  const CALLER_ID: string := "caller_id"
  const VALIDATION_CODE: string := "validation_code"

  const NOT_INITIALIZED_MESSAGE: string := "Error validating pin. Please make sure the SDK has been initialized."
  const TOKEN_EXPIRED_MESSAGE: string := "Error validating pin. The session token provided is either invalid or expired."
  const INVALID_CODE: string := "Validation code is invalid"
  const INVALID_CODE_MESSAGE: string := "Validation code is invalid."
  /** The type named by the failing `null as Boolean` cast. */
  const BOOLEAN_TYPE: string := "kotlin.Boolean"

  /** The caller id the server returns for a validated number. */
  datatype CallerId = CallerId(id: Long, callerId: string)

  /** `getBody(callerId, pin)`: a fresh `JsonObject` with the number and the pin's decimal text. */
  function GetBody(callerId: string, pin: Int): (o: Json.JsonObject)
    ensures Json.Names(o.members) == [CALLER_ID, VALIDATION_CODE]
    ensures Json.Get(o, CALLER_ID) == Some(Json.JsonString(callerId))
    ensures Json.Get(o, VALIDATION_CODE) == Some(Json.JsonString(DecimalString(pin)))
  {
    assert CALLER_ID != VALIDATION_CODE by {
      assert CALLER_ID[0] != VALIDATION_CODE[0];
    }
    var withCallerId := Json.AddProperty(Json.Empty, CALLER_ID, Some(callerId));
    var o := Json.AddProperty(withCallerId, VALIDATION_CODE, Some(DecimalString(pin)));
    assert Json.Get(o, CALLER_ID) == Json.Get(withCallerId, CALLER_ID);
    assert Json.Names(o.members) == [CALLER_ID, VALIDATION_CODE] by {
      assert Json.Names(withCallerId.members) == [CALLER_ID];
    }
    o
  }

  /** The server can read the pin back from the body: its text parses to the pin. */
  lemma PinReadsBack(callerId: string, pin: Int)
    ensures var code := Json.Get(GetBody(callerId, pin), VALIDATION_CODE);
            code.Some? && code.value.JsonString? && ToLong(code.value.text) == Ok(pin)
  {
    ToLongOfDecimalString(pin);
  }

  /**
   * `filterValidation(response)`: true for a 2xx response.  Otherwise the
   * error body is searched, case-sensitively, for "Validation code is
   * invalid"; a null body fails the `as Boolean` cast first, and a body
   * without the phrase gets the generic classifier's outcome.  It never
   * returns false.
   */
  function FilterValidation<T>(response: Response<T>): (r: Try<bool>)
    ensures r != Ok(false)
    ensures r == Ok(true) <==> IsSuccessful(response)
    ensures !IsSuccessful(response) && response.errorBody.None? ==> r == Thrown(Failure(NullCast(BOOLEAN_TYPE)))
    ensures !IsSuccessful(response) && response.errorBody.Some? && Contains(response.errorBody.value, INVALID_CODE, false) ==>
              r == Throw(Exception, INVALID_CODE_MESSAGE)
    ensures !IsSuccessful(response) && response.errorBody.Some? && !Contains(response.errorBody.value, INVALID_CODE, false) ==>
              r == ResponseChecker.CheckIfItsASuccessfulResponse(response)
  {
    if IsSuccessful(response) then Ok(true)
    else
      match response.errorBody
      case None => Thrown(Failure(NullCast(BOOLEAN_TYPE)))
      case Some(body) =>
        if Contains(body, INVALID_CODE, false) then Throw(Exception, INVALID_CODE_MESSAGE)
        else ResponseChecker.CheckIfItsASuccessfulResponse(response)
  }

  /** `response.body()` inside `map`: a null body fails the `map`. */
  function BodyAsCallerId(response: Response<CallerId>): (r: Try<CallerId>)
    ensures response.body.Some? <==> r.Ok?
    ensures response.body.Some? ==> r.value == response.body.value
    ensures response.body.None? ==> r == Thrown(Failure(NullMapped))
  {
    match response.body
    case Some(callerId) => Ok(callerId)
    case None => Thrown(Failure(NullMapped))
  }

  /** The request `validatePin` sends, built before any guard runs. */
  function ValidationRequest(token: SessionToken, phoneNumber: string, pin: Int): (r: HttpRequest)
    ensures r.ValidateCallerIdRequest? && r.authorization == Bearer(token.accessToken)
    ensures Json.Get(r.body, CALLER_ID) == Some(Json.JsonString(phoneNumber))
    ensures var code := Json.Get(r.body, VALIDATION_CODE);
            code.Some? && code.value.JsonString? && ToLong(code.value.text) == Ok(pin)
  {
    PinReadsBack(phoneNumber, pin);
    ValidateCallerIdRequest(Bearer(token.accessToken), GetBody(phoneNumber, pin))
  }

  /** How `validatePin`'s `Maybe` ends. */
  function ValidationOutcome(isSdkInit: bool, token: SessionToken, now: Long, response: Response<CallerId>): (r: Rx.Outcome<CallerId>)
    ensures !r.Empty?
    ensures !isSdkInit ==> r == Rx.Failed(Raised(EraSdkUnInitializedException, Some(NOT_INITIALIZED_MESSAGE)))
    ensures isSdkInit && CheckIfTokenIsExpired(token, now, TOKEN_EXPIRED_MESSAGE).Thrown? ==>
              r == Rx.Failed(CheckIfTokenIsExpired(token, now, TOKEN_EXPIRED_MESSAGE).error)
    ensures isSdkInit && IsTokenExpired(token, now) == Ok(false) && !IsSuccessful(response) ==>
              r == Rx.Failed(FilterValidation(response).error)
    ensures isSdkInit && IsTokenExpired(token, now) == Ok(false) && IsSuccessful(response) ==>
              r == (match response.body case Some(c) => Rx.Value(c) case None => Rx.Failed(Failure(NullMapped)))
  {
    var received := Rx.Value(response);
    var initialised := Rx.Filter(received, (_: Response<CallerId>) => Sdk.InitializationCheck(isSdkInit, NOT_INITIALIZED_MESSAGE));
    var unexpired := Rx.Filter(initialised, (_: Response<CallerId>) => CheckIfTokenIsExpired(token, now, TOKEN_EXPIRED_MESSAGE));
    var validated := Rx.Filter(unexpired, (resp: Response<CallerId>) => FilterValidation(resp));
    Rx.Map(validated, (resp: Response<CallerId>) => BodyAsCallerId(resp))
  }

  /**
   * `validatePin(token, phoneNumber, pin)`, given the init flag, the clock
   * and the server's response.  The request is sent whatever the guards
   * decide.
   */
  function ValidatePin(isSdkInit: bool, token: SessionToken, now: Long, phoneNumber: string, pin: Int,
                       response: Response<CallerId>): (r: Exchange<CallerId>)
    ensures r.sent == [ValidateCallerIdRequest(Bearer(token.accessToken), GetBody(phoneNumber, pin))]
    ensures !r.outcome.Empty?
    ensures !isSdkInit ==> r.outcome == Rx.Failed(Raised(EraSdkUnInitializedException, Some(NOT_INITIALIZED_MESSAGE)))
    ensures isSdkInit && IsTokenExpired(token, now) == Ok(true) ==>
              r.outcome == Rx.Failed(Raised(SessionTokenExpiredException, Some(TOKEN_EXPIRED_MESSAGE)))
    ensures isSdkInit && IsTokenExpired(token, now).Thrown? ==> r.outcome == Rx.Failed(IsTokenExpired(token, now).error)
    ensures isSdkInit && IsTokenExpired(token, now) == Ok(false) && !IsSuccessful(response) ==>
              r.outcome == Rx.Failed(FilterValidation(response).error)
    ensures isSdkInit && IsTokenExpired(token, now) == Ok(false) && IsSuccessful(response) ==>
              r.outcome == (match response.body case Some(c) => Rx.Value(c) case None => Rx.Failed(Failure(NullMapped)))
  {
    Exchange([ValidationRequest(token, phoneNumber, pin)], ValidationOutcome(isSdkInit, token, now, response))
  }

  /** Uninitialised, the init error wins over any token, however malformed or expired, and any response. */
  lemma InitGuardFirst(t1: SessionToken, t2: SessionToken, now: Long, phoneNumber: string, pin: Int,
                       a: Response<CallerId>, b: Response<CallerId>)
    ensures ValidatePin(false, t1, now, phoneNumber, pin, a).outcome == ValidatePin(false, t2, now, phoneNumber, pin, b).outcome
  {
  }

  /** An expired token is reported before the response is looked at. */
  lemma TokenGuardBeforeClassification(token: SessionToken, now: Long, phoneNumber: string, pin: Int,
                                       a: Response<CallerId>, b: Response<CallerId>)
    requires IsTokenExpired(token, now) == Ok(true)
    ensures ValidatePin(true, token, now, phoneNumber, pin, a).outcome == ValidatePin(true, token, now, phoneNumber, pin, b).outcome
  {
  }

  /** The server's body for a wrong pin: `{"detail": "Validation code is invalid"}`. */
  const INVALID_PIN_BODY: string := "{\"detail\": \"" + INVALID_CODE + "\"}"

  /** A wrong pin is reported with the fixed text, whatever the failure code. */
  lemma InvalidPinScenario(response: Response<CallerId>)
    requires !IsSuccessful(response) && response.errorBody == Some(INVALID_PIN_BODY)
    ensures FilterValidation(response) == Throw(Exception, "Validation code is invalid.")
  {
    ContainsInfix("{\"detail\": \"", INVALID_CODE, "\"}", false);
  }

  /** The match is case-sensitive: a lower-case phrase falls through to the generic classifier. */
  lemma LowerCasePhraseNotMatched(response: Response<CallerId>)
    requires !IsSuccessful(response) && response.errorBody == Some("validation code is invalid")
    ensures FilterValidation(response) == ResponseChecker.CheckIfItsASuccessfulResponse(response)
  {
    var body := "validation code is invalid";
    assert !RegionMatches(body, 0, INVALID_CODE, false) by {
      assert !CharEquals(body[0], INVALID_CODE[0], false);
    }
    assert !Contains(body, INVALID_CODE, false) by {
      forall i: nat | i + |INVALID_CODE| <= |body|
        ensures !RegionMatches(body, i, INVALID_CODE, false)
      {
        assert i == 0;
      }
    }
  }
}
