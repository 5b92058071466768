/**
 * Registering a user (`RegistrationController.register`): a
 * client-credentials token request authorised with HTTP Basic
 * credentials, the init guard, the generic classifier on the token
 * response, then the registration request with the user as JSON, the
 * registration classifier and the parsed body.
 */
module RegistrationController {
  import opened Failures
  import opened Text
  import opened Http
  import Rx
  import Json
  import Preferences
  import Sdk
  import ResponseChecker
  import Utf8
  import Base64

  const USERNAME: string := "username"
  const EMAIL: string := "email"
  const PWD: string := "password"

  const NOT_INITIALIZED_MESSAGE: string := "Error registering the user. Please make sure the SDK has been initialized."
  const ALREADY_EXISTS: string := "already exists"
  const USER_EXISTS_MESSAGE: string := "User with the same username or email already exists"
  const TOO_MANY_REQUESTS_MESSAGE: string := "Too many requests. Please try again later"
  const SOMETHING_WENT_WRONG_PREFIX: string := "Something went wrong, please try again: "
  const CLIENT_CREDENTIALS_GRANT: string := "client_credentials"
  const BASIC_PREFIX: string := "Basic "
  const BASIC_ERROR: string := "Basic error!"

  /** The user's fields that registration sends; each may be null. */
  datatype User = User(username: Option<string>, email: Option<string>, password: Option<string>)

  /** The token response's field that registration reads. */
  datatype OauthResponse = OauthResponse(accessToken: Option<string>)

  /** The registration body: a fresh `JsonObject` with the three user properties, in order. */
  function UserJson(user: User): (o: Json.JsonObject)
    ensures Json.Names(o.members) == [USERNAME, EMAIL, PWD]
    ensures Json.Get(o, USERNAME) == Some(Json.FromNullable(user.username))
    ensures Json.Get(o, EMAIL) == Some(Json.FromNullable(user.email))
    ensures Json.Get(o, PWD) == Some(Json.FromNullable(user.password))
  {
    assert USERNAME != EMAIL && USERNAME != PWD && EMAIL != PWD by {
      assert USERNAME[0] != EMAIL[0] && USERNAME[0] != PWD[0] && EMAIL[0] != PWD[0];
    }
    var withName := Json.AddProperty(Json.Empty, USERNAME, user.username);
    var withEmail := Json.AddProperty(withName, EMAIL, user.email);
    var o := Json.AddProperty(withEmail, PWD, user.password);
    assert Json.Get(o, USERNAME) == Json.Get(withName, USERNAME);
    o
  }

  /** The user a registration body stands for, read back by property name. */
  function ReadUser(o: Json.JsonObject): (r: Option<User>)
    ensures r.Some? <==> USERNAME in Json.Names(o.members) && EMAIL in Json.Names(o.members) && PWD in Json.Names(o.members)
  {
    match (Json.Get(o, USERNAME), Json.Get(o, EMAIL), Json.Get(o, PWD))
    case (Some(u), Some(e), Some(p)) => Some(User(Json.ToNullable(u), Json.ToNullable(e), Json.ToNullable(p)))
    case _ => None
  }

  /** The body carries exactly the user's three fields, so the user can be read back from it. */
  lemma ReadUserJson(user: User)
    ensures ReadUser(UserJson(user)) == Some(user)
  {
    var o := UserJson(user);
    Json.ToNullableFromNullable(user.username);
    Json.ToNullableFromNullable(user.email);
    Json.ToNullableFromNullable(user.password);
  }

  /** The `clientId:clientSecret` pair of section 2 of RFC 7617. */
  function Credentials(store: map<string, string>): string {
    Preferences.ClientId(store) + ":" + Preferences.ClientSecret(store)
  }

  /**
   * `getBasicCredentials()`: "Basic " and the Base64 of the UTF-8 bytes of
   * the credentials pair; "Basic error!" when the encoder throws, which
   * `encoderRaises` stands for.
   */
  function GetBasicCredentials(store: map<string, string>, encoderRaises: bool): (header: string)
    ensures encoderRaises ==> header == BASIC_ERROR
    ensures !encoderRaises ==> StartsWith(header, BASIC_PREFIX) &&
                               header[|BASIC_PREFIX|..] == Base64.Encode(Utf8.Encode(Credentials(store)))
  {
    if encoderRaises then BASIC_ERROR
    else BASIC_PREFIX + Base64.Encode(Utf8.Encode(Credentials(store)))
  }

  /**
   * The header is the fixed error text when the encoder throws; otherwise
   * it carries the credentials pair, which decodes back after the "Basic "
   * prefix.
   */
  lemma BasicCredentialsDecode(store: map<string, string>, encoderRaises: bool)
    ensures encoderRaises ==> GetBasicCredentials(store, encoderRaises) == BASIC_ERROR
    ensures !encoderRaises ==>
              var header := GetBasicCredentials(store, encoderRaises);
              StartsWith(header, BASIC_PREFIX) &&
              Base64.Decode(header[|BASIC_PREFIX|..]) == Some(Utf8.Encode(Credentials(store))) &&
              Utf8.Decode(Base64.Decode(header[|BASIC_PREFIX|..]).value) == Some(Credentials(store))
  {
    if encoderRaises { return; }
    var bytes := Utf8.Encode(Credentials(store));
    var header := GetBasicCredentials(store, encoderRaises);
    assert header[..|BASIC_PREFIX|] == BASIC_PREFIX;
    assert header[|BASIC_PREFIX|..] == Base64.Encode(bytes);
    Base64.DecodeEncode(bytes);
    Utf8.DecodeEncode(Credentials(store));
  }

  /**
   * The registration classifier (`filter`).  A 2xx response passes.  A 400
   * without an error body ends the chain empty; with one it throws, with a
   * fixed text when the body mentions "already exists" in any case and
   * with the body itself otherwise.  429 has a fixed text; every other
   * code throws a text that quotes the status message but not the body.
   */
  function Filter<T>(response: Response<T>): (r: Try<bool>)
    ensures r == Ok(true) <==> IsSuccessful(response)
    ensures r == Ok(false) <==> !IsSuccessful(response) && response.code == BAD_REQUEST_RESPONSE_CODE && response.errorBody.None?
    ensures r.Thrown? ==> r.error.Raised? && r.error.exception == Exception && r.error.message.Some?
    ensures !IsSuccessful(response) && response.code == BAD_REQUEST_RESPONSE_CODE && response.errorBody.Some? ==>
              r.Thrown? && r.error.message ==
              (if Contains(response.errorBody.value, ALREADY_EXISTS, true) then Some(USER_EXISTS_MESSAGE) else response.errorBody)
    ensures !IsSuccessful(response) && response.code == TOO_MANY_REQUEST_CODE ==>
              r == Throw(Exception, TOO_MANY_REQUESTS_MESSAGE)
    ensures !IsSuccessful(response) && response.code != BAD_REQUEST_RESPONSE_CODE && response.code != TOO_MANY_REQUEST_CODE ==>
              r.Thrown? && r.error.message.Some? &&
              StartsWith(r.error.message.value, SOMETHING_WENT_WRONG_PREFIX) &&
              r.error.message.value[|SOMETHING_WENT_WRONG_PREFIX|..] == response.message
  {
    if IsSuccessful(response) then Ok(true)
    else if response.code == BAD_REQUEST_RESPONSE_CODE then
      match response.errorBody
      case None => Ok(false)
      case Some(body) =>
        if Contains(body, ALREADY_EXISTS, true) then Throw(Exception, USER_EXISTS_MESSAGE)
        else Throw(Exception, body)
    else if response.code == TOO_MANY_REQUEST_CODE then Throw(Exception, TOO_MANY_REQUESTS_MESSAGE)
    else
      var text := SOMETHING_WENT_WRONG_PREFIX + response.message;
      assert text[|SOMETHING_WENT_WRONG_PREFIX|..] == response.message;
      Throw(Exception, text)
  }

  /** Outside 400 the error body plays no part, unlike in the generic classifier. */
  lemma OtherFailureIgnoresBody<T>(a: Response<T>, b: Response<T>)
    requires a.code == b.code && a.message == b.message && a.code != BAD_REQUEST_RESPONSE_CODE
    ensures Filter(a) == Filter(b)
  {
  }

  /** `response.body()?.accessToken`. */
  function AccessToken(response: Response<OauthResponse>): (token: Option<string>)
    ensures token.Some? ==> response.body.Some? && response.body.value.accessToken == token
    ensures response.body.Some? ==> token == response.body.value.accessToken
  {
    match response.body
    case None => None
    case Some(oauth) => oauth.accessToken
  }

  /**
   * `Gson().fromJson(it.body()?.string(), User::class.java)` inside `map`.
   * Gson is the parameter `fromJson`; a null body parses to null, and a
   * null result fails the `map`.
   */
  function ParseBody(response: Response<string>, fromJson: string -> Try<Option<User>>): (r: Try<User>)
    ensures response.body.None? ==> r == Thrown(Failure(NullMapped))
    ensures response.body.Some? && fromJson(response.body.value).Thrown? ==> r == Thrown(fromJson(response.body.value).error)
    ensures r.Ok? <==> response.body.Some? && fromJson(response.body.value).Ok? && fromJson(response.body.value).value.Some?
    ensures r.Ok? ==> Some(r.value) == fromJson(response.body.value).value
    ensures response.body.Some? && fromJson(response.body.value) == Ok(None) ==> r == Thrown(Failure(NullMapped))
  {
    match response.body
    case None => Thrown(Failure(NullMapped))
    case Some(text) =>
      match fromJson(text)
      case Thrown(e) => Thrown(e)
      case Ok(parsed) =>
        match parsed
        case None => Thrown(Failure(NullMapped))
        case Some(u) => Ok(u)
  }

  /** The first part of the chain: the token response after the init guard and the generic classifier. */
  function TokenStages(isSdkInit: bool, tokenResponse: Response<OauthResponse>): (r: Rx.Outcome<Response<OauthResponse>>)
    ensures !r.Empty?
    ensures r.Value? <==> isSdkInit && IsSuccessful(tokenResponse)
    ensures r.Value? ==> r.value == tokenResponse
    ensures !isSdkInit ==> r == Rx.Failed(Raised(EraSdkUnInitializedException, Some(NOT_INITIALIZED_MESSAGE)))
    ensures isSdkInit && !IsSuccessful(tokenResponse) ==>
              r == Rx.Failed(ResponseChecker.CheckIfItsASuccessfulResponse(tokenResponse).error)
  {
    var received := Rx.Value(tokenResponse);
    var initialised := Rx.Filter(received, (_: Response<OauthResponse>) => Sdk.InitializationCheck(isSdkInit, NOT_INITIALIZED_MESSAGE));
    Rx.Filter(initialised, (resp: Response<OauthResponse>) => ResponseChecker.CheckIfItsASuccessfulResponse(resp))
  }

  /** The second part: the registration response after the registration classifier and Gson. */
  function RegistrationStages(registered: Rx.Outcome<Response<string>>, fromJson: string -> Try<Option<User>>): (r: Rx.Outcome<User>)
    ensures !registered.Value? ==> (r.Empty? <==> registered.Empty?)
    ensures registered.Failed? ==> r == Rx.Failed(registered.error)
    ensures registered.Value? ==> (r.Empty? <==> Filter(registered.value) == Ok(false))
    ensures registered.Value? && Filter(registered.value).Thrown? ==> r == Rx.Failed(Filter(registered.value).error)
    ensures registered.Value? && Filter(registered.value) == Ok(true) ==>
              (match ParseBody(registered.value, fromJson)
               case Ok(u) => r == Rx.Value(u)
               case Thrown(e) => r == Rx.Failed(e))
  {
    var classified := Rx.Filter(registered, (resp: Response<string>) => Filter(resp));
    Rx.Map(classified, (resp: Response<string>) => ParseBody(resp, fromJson))
  }

  /** The requests `register` sends: the token request, then the registration request if the token stages pass. */
  function RegisterRequests(isSdkInit: bool, store: map<string, string>, encoderRaises: bool, user: User,
                            tokenResponse: Response<OauthResponse>): (sent: seq<HttpRequest>)
    ensures 1 <= |sent| <= 2
    ensures sent[0] == AccessTokenRequest(GetBasicCredentials(store, encoderRaises), CLIENT_CREDENTIALS_GRANT)
    ensures |sent| == 2 <==> isSdkInit && IsSuccessful(tokenResponse)
    ensures |sent| == 2 ==> sent[1] == RegisterRequest(Bearer(Render(AccessToken(tokenResponse))), UserJson(user))
  {
    [AccessTokenRequest(GetBasicCredentials(store, encoderRaises), CLIENT_CREDENTIALS_GRANT)] +
    (if TokenStages(isSdkInit, tokenResponse).Value?
     then [RegisterRequest(Bearer(Render(AccessToken(tokenResponse))), UserJson(user))] else [])
  }

  /** How `register`'s `Maybe` ends. */
  function RegisterOutcome(isSdkInit: bool, tokenResponse: Response<OauthResponse>, registerResponse: Response<string>,
                           fromJson: string -> Try<Option<User>>): (r: Rx.Outcome<User>)
    ensures !isSdkInit ==> r == Rx.Failed(Raised(EraSdkUnInitializedException, Some(NOT_INITIALIZED_MESSAGE)))
    ensures isSdkInit && !IsSuccessful(tokenResponse) ==>
              r == Rx.Failed(ResponseChecker.CheckIfItsASuccessfulResponse(tokenResponse).error)
    ensures r.Empty? <==> isSdkInit && IsSuccessful(tokenResponse) && Filter(registerResponse) == Ok(false)
    ensures isSdkInit && IsSuccessful(tokenResponse) && Filter(registerResponse).Thrown? ==>
              r == Rx.Failed(Filter(registerResponse).error)
    ensures isSdkInit && IsSuccessful(tokenResponse) && Filter(registerResponse) == Ok(true) ==>
              (match ParseBody(registerResponse, fromJson)
               case Ok(u) => r == Rx.Value(u)
               case Thrown(e) => r == Rx.Failed(e))
  {
    var authorised := TokenStages(isSdkInit, tokenResponse);
    // `flatMapSingle`: `Rx.Map` agrees with it here because `authorised` is never empty.
    assert !authorised.Empty?;
    var registered := Rx.Map(authorised, (_: Response<OauthResponse>) => Ok(registerResponse));
    assert authorised.Value? ==> registered == Rx.Value(registerResponse);
    assert authorised.Failed? ==> registered == Rx.Failed(authorised.error);
    RegistrationStages(registered, fromJson)
  }

  /**
   * `register(user)`, given the init flag, the preference store, whether
   * the Base64 encoder throws, the token response, the registration
   * response and Gson.  The registration request is sent only when both
   * guards on the token response pass.
   */
  function Register(isSdkInit: bool, store: map<string, string>, encoderRaises: bool, user: User,
                    tokenResponse: Response<OauthResponse>, registerResponse: Response<string>,
                    fromJson: string -> Try<Option<User>>): (r: Exchange<User>)
    ensures 1 <= |r.sent| <= 2
    ensures r.sent[0] == AccessTokenRequest(GetBasicCredentials(store, encoderRaises), CLIENT_CREDENTIALS_GRANT)
    ensures |r.sent| == 2 <==> isSdkInit && IsSuccessful(tokenResponse)
    ensures |r.sent| == 2 ==> r.sent[1] == RegisterRequest(Bearer(Render(AccessToken(tokenResponse))), UserJson(user))
    ensures !isSdkInit ==> r.outcome == Rx.Failed(Raised(EraSdkUnInitializedException, Some(NOT_INITIALIZED_MESSAGE)))
    ensures isSdkInit && !IsSuccessful(tokenResponse) ==>
              r.outcome == Rx.Failed(ResponseChecker.CheckIfItsASuccessfulResponse(tokenResponse).error)
    ensures r.outcome.Empty? <==> |r.sent| == 2 && Filter(registerResponse) == Ok(false)
    ensures |r.sent| == 2 && Filter(registerResponse).Thrown? ==> r.outcome == Rx.Failed(Filter(registerResponse).error)
    ensures |r.sent| == 2 && Filter(registerResponse) == Ok(true) ==>
              (match ParseBody(registerResponse, fromJson)
               case Ok(u) => r.outcome == Rx.Value(u)
               case Thrown(e) => r.outcome == Rx.Failed(e))
  {
    Exchange(RegisterRequests(isSdkInit, store, encoderRaises, user, tokenResponse),
             RegisterOutcome(isSdkInit, tokenResponse, registerResponse, fromJson))
  }

  /** The server's 400 body for a taken username: `{"detail": "User with username `some_username` already exists."}`. */
  const USERNAME_EXISTS_BODY: string := "{\n    \"detail\": \"User with username `some_username` " + ALREADY_EXISTS + ".\"\n}"

  /** A taken username is reported with the fixed text, not the server's. */
  lemma UsernameExistsScenario(response: Response<string>)
    requires response.code == BAD_REQUEST_RESPONSE_CODE && response.errorBody == Some(USERNAME_EXISTS_BODY)
    ensures Filter(response) == Throw(Exception, "User with the same username or email already exists")
  {
    ContainsInfix("{\n    \"detail\": \"User with username `some_username` ", ALREADY_EXISTS, ".\"\n}", false);
    ContainsIgnoringCaseWhenContained(USERNAME_EXISTS_BODY, ALREADY_EXISTS);
  }
}
