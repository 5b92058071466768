# Emergency data SDK: guards, classifiers and initialisation

This project models the decision logic of the RapidSOS emergency data SDK
for Android. The SDK wraps an HTTP API for logging in, registering users
and validating pins. Every endpoint is an RxJava `Maybe` chain with three
kinds of guard, applied in a fixed order to the HTTP response:

- the SDK initialisation guard;
- on pin validation, the session-token expiry check;
- a status-code classifier, which turns a failed response into an
  exception with an exact message.

The model states these guards and classifiers as total functions. A throw
is an error value (`Failures.Try`). The stages of a chain are composed with
`Rx.Filter` and `Rx.Map`, whose `Outcome` is a value, empty, or failed.
Each endpoint returns an `Http.Exchange`: the requests it sends and how
its `Maybe` ends. The guards are filters on the response, so the request
is always sent, even when a guard fails.

The parts that change state are classes:

- `Preferences.EmgDataPreferences` holds the string store under three keys;
- `Sdk.SdkInitiatedValidator` holds the process-wide init flag;
- `Sdk.EraSdk.Initialize` writes the three values and then sets the flag.

Inputs the SDK gets from outside are parameters:

- the clock (`now`);
- the init flag, when an endpoint reads it;
- the preference store;
- the server's responses;
- Gson's parser (`fromJson`);
- whether Android's Base64 encoder throws (`encoderRaises`).

Kotlin's number semantics are written out: `String.toLong` is
`Long.parseLong`, `TimeUnit.SECONDS.toMillis` saturates and `Long.plus`
wraps. The Basic credentials header is built with UTF-8 (RFC 3629) and
Base64 (section 4 of RFC 4648), and both are proved lossless.

The doc comment of `SessionTokenVerifier.isTokenExpired`
(`emergency-data-sdk/src/main/kotlin/com/rapidsos/emergencydatasdk/internal/helpers/network/SessionTokenVerifier.kt:19`) says that `true`
means valid. The code at line 26 and `SessionTokenVerifierTest.kt` return
`true` for an expired token. The model follows the code.

## Model

| member | source | states |
|---|---|---|
| Failures.Render | emergency-data-sdk/src/main/kotlin/com/rapidsos/emergencydatasdk/internal/helpers/network/ResponseChecker.kt:22 | a null string renders as "null" inside a Kotlin string template, a non-null one as itself |
| Numbers.PlusLong | emergency-data-sdk/src/main/kotlin/com/rapidsos/emergencydatasdk/internal/helpers/network/SessionTokenVerifier.kt:25 | `Long.plus`: the exact sum when it fits in a Long, otherwise the sum shifted by 2^64 (two's-complement wrap-around) |
| Numbers.SecondsToMillis | emergency-data-sdk/src/main/kotlin/com/rapidsos/emergencydatasdk/internal/helpers/network/SessionTokenVerifier.kt:24 | `TimeUnit.SECONDS.toMillis`: seconds times 1000, saturating at the Long bounds |
| Numbers.ToLong | emergency-data-sdk/src/main/kotlin/com/rapidsos/emergencydatasdk/internal/helpers/network/SessionTokenVerifier.kt:24-25 | `toLong` succeeds exactly on an optional sign followed by at least one decimal digit whose value fits in a Long, and then returns that value; every other string throws NumberFormatException naming the input |
| Numbers.DecimalString | emergency-data-sdk/src/main/kotlin/com/rapidsos/emergencydatasdk/pin/validator/PinValidator.kt:95 | `Int.toString()` is never empty; `ToLongOfDecimalString` shows it denotes the number |
| Numbers.ToLongOfDecimalString | emergency-data-sdk/src/main/kotlin/com/rapidsos/emergencydatasdk/pin/validator/PinValidator.kt:95 | printing any Long in decimal and parsing the text back yields the same Long |
| Numbers.ToLongRejectsEmptyNumerals | emergency-data-sdk/src/main/kotlin/com/rapidsos/emergencydatasdk/internal/helpers/network/SessionTokenVerifier.kt:24-25 | the empty string and a lone sign are not numbers: `toLong` throws on them |
| Text.Contains | emergency-data-sdk/src/main/kotlin/com/rapidsos/emergencydatasdk/auth/register/RegistrationController.kt:133 | `contains(other, ignoreCase)` is true exactly when `other` occurs at some position of the string, comparing characters exactly or, with ignoreCase, after case mapping |
| Text.ContainsInfix | emergency-data-sdk/src/main/kotlin/com/rapidsos/emergencydatasdk/pin/validator/PinValidator.kt:105 | a text that has the phrase between some prefix and some suffix contains it |
| Text.ContainsIgnoringCaseWhenContained | emergency-data-sdk/src/main/kotlin/com/rapidsos/emergencydatasdk/auth/register/RegistrationController.kt:133 | a case-insensitive search finds every phrase a case-sensitive search finds |
| Json.AddProperty | emergency-data-sdk/src/main/kotlin/com/rapidsos/emergencydatasdk/auth/register/RegistrationController.kt:99-103 | `addProperty(name, value)`: afterwards `name` reads back the value (JSON null for a null string), every other name reads as before, the name list gains `name` at the end unless it was present, and a new name is appended as the last member |
| Json.PutGet | emergency-data-sdk/src/main/kotlin/com/rapidsos/emergencydatasdk/auth/register/RegistrationController.kt:100 | after putting a value under a name, looking the name up gives that value |
| Json.PutOther | emergency-data-sdk/src/main/kotlin/com/rapidsos/emergencydatasdk/auth/register/RegistrationController.kt:100-102 | putting a value under one name leaves the lookup of every other name unchanged |
| Json.PutNames | emergency-data-sdk/src/main/kotlin/com/rapidsos/emergencydatasdk/auth/register/RegistrationController.kt:100-102 | putting keeps the member order; a new name is added at the end and an existing one keeps its place |
| Json.PutAbsent | emergency-data-sdk/src/main/kotlin/com/rapidsos/emergencydatasdk/auth/register/RegistrationController.kt:100-102 | putting a name that is not yet present appends exactly one member |
| Json.ToNullableFromNullable | emergency-data-sdk/src/main/kotlin/com/rapidsos/emergencydatasdk/auth/register/RegistrationController.kt:100-102 | a nullable string stored as a JSON property reads back as the same nullable string |
| Rx.Filter | emergency-data-sdk/src/main/kotlin/com/rapidsos/emergencydatasdk/auth/login/SessionManager.kt:80-84 | `Maybe.filter`: true keeps the value, false ends the chain empty, a throw ends it with that error; an empty or failed upstream passes through and the stage is not run |
| Rx.Map | emergency-data-sdk/src/main/kotlin/com/rapidsos/emergencydatasdk/auth/login/SessionManager.kt:85 | `Maybe.map`: the mapper's result replaces the value and a throwing mapper ends the chain with its error; empty and failed upstreams pass through |
| Rx.FirstFailureWins | emergency-data-sdk/src/main/kotlin/com/rapidsos/emergencydatasdk/pin/validator/PinValidator.kt:78-86 | once a filter stage throws, the chain ends with that stage's error whatever the later stages would do |
| Http.Bearer | emergency-data-sdk/src/main/kotlin/com/rapidsos/emergencydatasdk/pin/validator/PinValidator.kt:74 | the authorization header is "Bearer " followed by exactly the access token |
| Http.IsSuccessful | emergency-data-sdk/src/main/kotlin/com/rapidsos/emergencydatasdk/internal/helpers/network/ResponseChecker.kt:12 | Retrofit's `isSuccessful`: the code lies in [200, 300); `NamedCodesClassified` relates it to the SDK's named codes |
| Http.NamedCodesClassified | emergency-data-sdk/src/main/kotlin/com/rapidsos/emergencydatasdk/internal/helpers/network/ResponseCodes.kt:3-10 | of the status codes the SDK names, 200 and 201 are successful and 400, 401, 403, 404, 429 and 500 are not |
| SessionTokens.ExpiryDate | emergency-data-sdk/src/main/kotlin/com/rapidsos/emergencydatasdk/internal/helpers/network/SessionTokenVerifier.kt:24-25 | `expiresIn` is parsed first and `issuedAt` second, and the first one that does not parse decides the NumberFormatException; the result is a value exactly when both parse, and then it is `issuedAt.plus(toMillis(expiresIn))` with the saturating and wrapping Long arithmetic |
| SessionTokens.ExpiryDateExact | emergency-data-sdk/src/main/kotlin/com/rapidsos/emergencydatasdk/internal/helpers/network/SessionTokenVerifier.kt:24-25 | without overflow, the expiry instant is issuedAt + expiresIn * 1000 |
| SessionTokens.IsTokenExpired | emergency-data-sdk/src/main/kotlin/com/rapidsos/emergencydatasdk/internal/helpers/network/SessionTokenVerifier.kt:22-27 | true exactly when now is strictly after the expiry instant; throws exactly when a field does not parse, with that error (true means expired, as the code and its tests have it) |
| SessionTokens.CheckIfTokenIsExpired | emergency-data-sdk/src/main/kotlin/com/rapidsos/emergencydatasdk/internal/helpers/network/SessionTokenVerifier.kt:38-44 | never returns false; returns true exactly when the token is not expired; an expired token throws SessionTokenExpiredException with exactly the caller's message; a parse failure propagates |
| SessionTokens.ExpiredIffAfterLifetime | emergency-data-sdk/src/main/kotlin/com/rapidsos/emergencydatasdk/internal/helpers/network/SessionTokenVerifier.kt:23-26 | without overflow, the token is expired exactly when now > issuedAt + expiresIn * 1000 |
| SessionTokens.NotExpiredAtExpiryInstant | emergency-data-sdk/src/main/kotlin/com/rapidsos/emergencydatasdk/internal/helpers/network/SessionTokenVerifier.kt:26 | at the expiry instant itself the token is not expired, and one millisecond later it is (the comparison is strict) |
| SessionTokens.ExpiryIsMonotone | emergency-data-sdk/src/main/kotlin/com/rapidsos/emergencydatasdk/internal/helpers/network/SessionTokenVerifier.kt:24-26 | a token that is expired at some instant is expired at every later instant |
| SessionTokens.MalformedFieldFails | emergency-data-sdk/src/main/kotlin/com/rapidsos/emergencydatasdk/internal/helpers/network/SessionTokenVerifier.kt:24-25 | if either field is not a number, the check fails with a runtime fault instead of defaulting to a value |
| SessionTokens.OneDayScenarios | emergency-data-sdk/src/test/java/com/rapidsos/emergencydatasdk/helpers/SessionTokenVerifierTest.kt:19-37 | a one-hour token issued a day before now is expired; one issued a day after now is not |
| ResponseChecker.SomethingWentWrong | emergency-data-sdk/src/main/kotlin/com/rapidsos/emergencydatasdk/internal/helpers/network/ResponseChecker.kt:22 | the message for an unlisted code starts with "Something went wrong, please try again: " and contains both the status message and the rendered error body |
| ResponseChecker.CheckIfItsASuccessfulResponse | emergency-data-sdk/src/main/kotlin/com/rapidsos/emergencydatasdk/internal/helpers/network/ResponseChecker.kt:11-25 | never returns false; returns true exactly for 2xx; otherwise throws RuntimeException whose message is the error body for 400, the fixed text for 429, and the something-went-wrong text for every other code |
| ResponseChecker.OtherFailureQuotesErrorBody | emergency-data-sdk/src/main/kotlin/com/rapidsos/emergencydatasdk/internal/helpers/network/ResponseChecker.kt:22 | for every failure code except 400 and 429, the thrown message contains the error body ("null" when absent) |
| ResponseChecker.PayloadIndependent | emergency-data-sdk/src/main/kotlin/com/rapidsos/emergencydatasdk/internal/helpers/network/ResponseChecker.kt:11 | two responses that agree on code, status message and error body get the same outcome, whatever their payload types |
| Preferences.KeysDistinct | emergency-data-sdk/src/main/kotlin/com/rapidsos/emergencydatasdk/internal/preferences/EmgDataPreferences.kt:24-26 | the three preference keys are pairwise different |
| Preferences.GetString | emergency-data-sdk/src/main/kotlin/com/rapidsos/emergencydatasdk/internal/preferences/EmgDataPreferences.kt:10 | `getString(key, default)` returns the stored value when there is one and the default otherwise |
| Preferences.DefaultsAreEmpty | emergency-data-sdk/src/main/kotlin/com/rapidsos/emergencydatasdk/internal/preferences/EmgDataPreferences.kt:10-18 | in an empty store, all three getters return "" |
| Preferences.HostWriteIsolated | emergency-data-sdk/src/main/kotlin/com/rapidsos/emergencydatasdk/internal/preferences/EmgDataPreferences.kt:11 | after writing the host, the host reads back the written value and client id and secret are unchanged |
| Preferences.ClientIdWriteIsolated | emergency-data-sdk/src/main/kotlin/com/rapidsos/emergencydatasdk/internal/preferences/EmgDataPreferences.kt:14-16 | after writing the client id, it reads back the written value and host and secret are unchanged |
| Preferences.ClientSecretWriteIsolated | emergency-data-sdk/src/main/kotlin/com/rapidsos/emergencydatasdk/internal/preferences/EmgDataPreferences.kt:19-21 | after writing the client secret, it reads back the written value and host and client id are unchanged |
| Preferences.LastWriteWins | emergency-data-sdk/src/main/kotlin/com/rapidsos/emergencydatasdk/internal/preferences/EmgDataPreferences.kt:11 | for one key, a second write replaces the first |
| Preferences.EmgDataPreferences.constructor | emergency-data-sdk/src/main/kotlin/com/rapidsos/emergencydatasdk/internal/preferences/EmgDataPreferences.kt:8 | the preferences start on the given store |
| Preferences.EmgDataPreferences.GetHost | emergency-data-sdk/src/main/kotlin/com/rapidsos/emergencydatasdk/internal/preferences/EmgDataPreferences.kt:10 | returns the stored host, or "" when none is stored; changes nothing |
| Preferences.EmgDataPreferences.SetHost | emergency-data-sdk/src/main/kotlin/com/rapidsos/emergencydatasdk/internal/preferences/EmgDataPreferences.kt:11 | the store gains the host under its key; the host reads back and the other two values are unchanged |
| Preferences.EmgDataPreferences.GetClientId | emergency-data-sdk/src/main/kotlin/com/rapidsos/emergencydatasdk/internal/preferences/EmgDataPreferences.kt:13 | returns the stored client id, or ""; changes nothing |
| Preferences.EmgDataPreferences.SetClientId | emergency-data-sdk/src/main/kotlin/com/rapidsos/emergencydatasdk/internal/preferences/EmgDataPreferences.kt:14-16 | the store gains the client id under its key; the other two values are unchanged |
| Preferences.EmgDataPreferences.GetClientSecret | emergency-data-sdk/src/main/kotlin/com/rapidsos/emergencydatasdk/internal/preferences/EmgDataPreferences.kt:18 | returns the stored client secret, or ""; changes nothing |
| Preferences.EmgDataPreferences.SetClientSecret | emergency-data-sdk/src/main/kotlin/com/rapidsos/emergencydatasdk/internal/preferences/EmgDataPreferences.kt:19-21 | the store gains the client secret under its key; the other two values are unchanged |
| Sdk.InitializationCheck | emergency-data-sdk/src/main/kotlin/com/rapidsos/emergencydatasdk/sdk/SdkInitiatedValidator.kt:12-18 | never returns false; returns true exactly when the flag is set; otherwise throws EraSdkUnInitializedException with exactly the caller's message |
| Sdk.SdkInitiatedValidator.constructor | emergency-data-sdk/src/main/kotlin/com/rapidsos/emergencydatasdk/sdk/SdkInitiatedValidator.kt:10 | the flag starts false |
| Sdk.SdkInitiatedValidator.CheckIfSdkIsInitialized | emergency-data-sdk/src/main/kotlin/com/rapidsos/emergencydatasdk/sdk/SdkInitiatedValidator.kt:12-18 | the guard's result for the current flag, which is true exactly when the flag is set and never false; the flag is not modified |
| Sdk.Initialized | emergency-data-sdk/src/main/kotlin/com/rapidsos/emergencydatasdk/sdk/EraSdk.kt:34-36 | after the three writes, host, client id and client secret read back as the arguments; the other entries of the store are unchanged |
| Sdk.ReinitializeOverwrites | emergency-data-sdk/src/main/kotlin/com/rapidsos/emergencydatasdk/sdk/EraSdk.kt:33-38 | initialising twice leaves the same store as initialising once with the latest arguments |
| Sdk.EraSdk.constructor | emergency-data-sdk/src/main/kotlin/com/rapidsos/emergencydatasdk/sdk/EraSdk.kt:14-22 | the SDK object holds the injected preferences and the validator |
| Sdk.EraSdk.Initialize | emergency-data-sdk/src/main/kotlin/com/rapidsos/emergencydatasdk/sdk/EraSdk.kt:33-39 | the store is the old one with the three values written, and afterwards the init flag is set |
| Sdk.InitializeScenario | emergency-data-sdk/src/test/java/com/rapidsos/emergencydatasdk/sdk/EraSdkTest.kt:29-40 | a fresh SDK initialised with "https://www.rapidsos.com", "abc123" and "123abc" reads back exactly those values, and its guard passes |
| SessionManager.LoginError | emergency-data-sdk/src/main/kotlin/com/rapidsos/emergencydatasdk/auth/login/SessionManager.kt:100 | the message starts with "Login error: " and contains the code's decimal text, the status message and the rendered error body |
| SessionManager.Filter | emergency-data-sdk/src/main/kotlin/com/rapidsos/emergencydatasdk/auth/login/SessionManager.kt:89-103 | never returns false; true exactly for 2xx; otherwise throws Exception with "Invalid user credentials." for 401, the 429 text with its period, and the login-error text for every other code, 400 included |
| SessionManager.BodyAsSessionToken | emergency-data-sdk/src/main/kotlin/com/rapidsos/emergencydatasdk/auth/login/SessionManager.kt:85 | a present body is delivered unchanged, and a null body fails the cast to SessionToken |
| SessionManager.LoginRequest | emergency-data-sdk/src/main/kotlin/com/rapidsos/emergencydatasdk/auth/login/SessionManager.kt:77-78 | the login request uses the password grant and carries the stored client id and client secret with the caller's username and password |
| SessionManager.GetSessionToken | emergency-data-sdk/src/main/kotlin/com/rapidsos/emergencydatasdk/auth/login/SessionManager.kt:76-87 | exactly one password-grant request is sent, carrying the stored client id and secret; the result is never empty; uninitialised beats everything; then the login classifier's error; a 2xx response delivers its body |
| SessionManager.DeliversExpiredTokens | emergency-data-sdk/src/main/kotlin/com/rapidsos/emergencydatasdk/auth/login/SessionManager.kt:76-87 | login applies no expiry check: a successful response carrying an already expired token delivers that token |
| SessionManager.InitGuardFirst | emergency-data-sdk/src/main/kotlin/com/rapidsos/emergencydatasdk/auth/login/SessionManager.kt:80-84 | uninitialised, the result is the same whatever the response is, and the request is still sent |
| SessionManager.FixedMessages | emergency-data-sdk/src/main/kotlin/com/rapidsos/emergencydatasdk/auth/login/SessionManager.kt:98-99 | 401 and 429 give their fixed texts, and the login 429 text is the generic one plus a period |
| RegistrationController.UserJson | emergency-data-sdk/src/main/kotlin/com/rapidsos/emergencydatasdk/auth/register/RegistrationController.kt:99-103 | the registration body has exactly the properties username, email and password, in that order, holding the user's three fields |
| RegistrationController.ReadUserJson | emergency-data-sdk/src/main/kotlin/com/rapidsos/emergencydatasdk/auth/register/RegistrationController.kt:99-103 | the user can be read back from the registration body: the body carries exactly that user's fields |
| RegistrationController.GetBasicCredentials | emergency-data-sdk/src/main/kotlin/com/rapidsos/emergencydatasdk/auth/register/RegistrationController.kt:113-121 | when the encoder throws, the header is "Basic error!"; otherwise it is "Basic " followed by the Base64 of the UTF-8 bytes of clientId + ":" + clientSecret |
| RegistrationController.BasicCredentialsDecode | emergency-data-sdk/src/main/kotlin/com/rapidsos/emergencydatasdk/auth/register/RegistrationController.kt:113-121 | when the encoder throws, the header is "Basic error!"; otherwise it starts with "Basic ", and the rest decodes with Base64 and UTF-8 back to clientId + ":" + clientSecret from the store |
| RegistrationController.Filter | emergency-data-sdk/src/main/kotlin/com/rapidsos/emergencydatasdk/auth/register/RegistrationController.kt:123-145 | true exactly for 2xx; false exactly for 400 without an error body; a 400 body containing "already exists" in any case gives the fixed text, and any other 400 body is the message itself; 429 is fixed; every other code gives the something-went-wrong prefix followed by exactly the status message |
| RegistrationController.OtherFailureIgnoresBody | emergency-data-sdk/src/main/kotlin/com/rapidsos/emergencydatasdk/auth/register/RegistrationController.kt:140 | outside 400, the registration classifier's outcome does not depend on the error body |
| RegistrationController.AccessToken | emergency-data-sdk/src/main/kotlin/com/rapidsos/emergencydatasdk/auth/register/RegistrationController.kt:98 | the access token is the response body's `accessToken` when there is a body, and null otherwise |
| RegistrationController.ParseBody | emergency-data-sdk/src/main/kotlin/com/rapidsos/emergencydatasdk/auth/register/RegistrationController.kt:109 | a null body fails the map; a Gson failure propagates; Gson returning null for a present body fails the map; the result is a user exactly when Gson returns a non-null user, and then it is that user |
| RegistrationController.TokenStages | emergency-data-sdk/src/main/kotlin/com/rapidsos/emergencydatasdk/auth/register/RegistrationController.kt:90-96 | the token response passes exactly when the SDK is initialised and the response is 2xx, and is never empty; uninitialised gives the init error, otherwise a failed response gives the generic classifier's error |
| RegistrationController.RegistrationStages | emergency-data-sdk/src/main/kotlin/com/rapidsos/emergencydatasdk/auth/register/RegistrationController.kt:107-109 | the registration classifier, then the parse: false gives empty, a throw gives its error, and true gives the parsed user or the parse failure |
| RegistrationController.RegisterRequests | emergency-data-sdk/src/main/kotlin/com/rapidsos/emergencydatasdk/auth/register/RegistrationController.kt:90-106 | the Basic-authorised client-credentials token request is always sent; the registration request, with "Bearer " + the token and the user's JSON, is sent exactly when both token guards pass |
| RegistrationController.RegisterOutcome | emergency-data-sdk/src/main/kotlin/com/rapidsos/emergencydatasdk/auth/register/RegistrationController.kt:89-111 | the init guard comes first, then the generic classifier on the token response, then the registration classifier; the result is empty exactly when both token guards pass and that classifier returns false |
| RegistrationController.Register | emergency-data-sdk/src/main/kotlin/com/rapidsos/emergencydatasdk/auth/register/RegistrationController.kt:89-111 | the requests sent and the outcome together, with the guard order and messages above |
| RegistrationController.UsernameExistsScenario | emergency-data-sdk/src/test/java/com/rapidsos/emergencydatasdk/auth/register/RegistrationControllerTest.kt:110-139 | the server's taken-username body of a 400 is reported as "User with the same username or email already exists" |
| PinValidator.GetBody | emergency-data-sdk/src/main/kotlin/com/rapidsos/emergencydatasdk/pin/validator/PinValidator.kt:92-97 | the body has exactly caller_id and then validation_code, holding the phone number and the pin's decimal text |
| PinValidator.PinReadsBack | emergency-data-sdk/src/main/kotlin/com/rapidsos/emergencydatasdk/pin/validator/PinValidator.kt:95 | the validation code in the body parses back to the pin |
| PinValidator.FilterValidation | emergency-data-sdk/src/main/kotlin/com/rapidsos/emergencydatasdk/pin/validator/PinValidator.kt:99-111 | never returns false; true exactly for 2xx; a null error body fails the Boolean cast; a body containing "Validation code is invalid" (case-sensitive) throws "Validation code is invalid."; any other body gets exactly the generic classifier's outcome |
| PinValidator.BodyAsCallerId | emergency-data-sdk/src/main/kotlin/com/rapidsos/emergencydatasdk/pin/validator/PinValidator.kt:88 | a present body is delivered unchanged, and a null body fails the map |
| PinValidator.ValidationRequest | emergency-data-sdk/src/main/kotlin/com/rapidsos/emergencydatasdk/pin/validator/PinValidator.kt:73-76 | the request carries "Bearer " + the access token, the phone number as caller_id, and a validation_code that parses back to the pin |
| PinValidator.ValidationOutcome | emergency-data-sdk/src/main/kotlin/com/rapidsos/emergencydatasdk/pin/validator/PinValidator.kt:76-89 | never empty; init guard, then token guard (its error, or its parse failure), then the validation classifier's error, then the body |
| PinValidator.ValidatePin | emergency-data-sdk/src/main/kotlin/com/rapidsos/emergencydatasdk/pin/validator/PinValidator.kt:72-90 | the one request sent carries "Bearer " + the access token and the pin body; the outcome follows the guard order init, then expiry, then classification, with the exact messages |
| PinValidator.InitGuardFirst | emergency-data-sdk/src/main/kotlin/com/rapidsos/emergencydatasdk/pin/validator/PinValidator.kt:78-81 | uninitialised, the outcome is the same for any token, however malformed or expired, and any response |
| PinValidator.TokenGuardBeforeClassification | emergency-data-sdk/src/main/kotlin/com/rapidsos/emergencydatasdk/pin/validator/PinValidator.kt:82-86 | with an expired token, the outcome is the same whatever the response |
| PinValidator.InvalidPinScenario | emergency-data-sdk/src/test/java/com/rapidsos/emergencydatasdk/pin/validator/PinValidatorTest.kt:116-139 | the server's wrong-pin body is reported as "Validation code is invalid." for any failure code |
| PinValidator.LowerCasePhraseNotMatched | emergency-data-sdk/src/main/kotlin/com/rapidsos/emergencydatasdk/pin/validator/PinValidator.kt:105 | the phrase match is case-sensitive: a lower-case phrase falls through to the generic classifier |
| Utf8.Encode | emergency-data-sdk/src/main/kotlin/com/rapidsos/emergencydatasdk/auth/register/RegistrationController.kt:116 | `toByteArray()` gives between one and four bytes per character |
| Utf8.DecodeEncode | emergency-data-sdk/src/main/kotlin/com/rapidsos/emergencydatasdk/auth/register/RegistrationController.kt:116 | the UTF-8 bytes of the credentials decode back to the same string |
| Utf8.EncodeAscii | emergency-data-sdk/src/main/kotlin/com/rapidsos/emergencydatasdk/auth/register/RegistrationController.kt:116 | an ASCII string encodes to one byte per character, equal to the character's code |
| Base64.Encode | emergency-data-sdk/src/main/kotlin/com/rapidsos/emergencydatasdk/auth/register/RegistrationController.kt:116 | `Base64.encodeToString(bytes, NO_WRAP)` gives four characters for every started group of three bytes |
| Base64.DecodeEncode | emergency-data-sdk/src/main/kotlin/com/rapidsos/emergencydatasdk/auth/register/RegistrationController.kt:116 | decoding the Base64 text gives back exactly the encoded bytes |

## Left out

- HTTP itself: Retrofit, OkHttp and the network. A response is a record
  (code, status message, body, error body), and a request is the data it
  carries. Network errors and the 15-second `timeout` are not modelled.
- `subscribeOn` and `observeOn`: schedulers and threads. The `Context` and
  `Injector` setup in the `EraSdk` constructor: dependency injection.
- The endpoint wrappers other than login, registration and pin validation
  (locations, devices, profile, pin request, password reset). They only
  repeat the three modelled guards around other requests.
- Gson. `fromJson` is a parameter of `Register`. The DTOs carry only the
  fields the modelled code reads. `SessionToken.kt` and `OauthResponse.kt`
  are not part of this model; their fields are taken from how they are used.
- Where the model has no text for a failure: NumberFormatException, the
  failed `as` cast and RxJava's null-mapper error record their cause, not
  their message.
- `SecureSharedPreferences` is a plain string map. Its encryption and
  asynchronous `apply()` are left out.
- Android's `Base64` throws under unit tests, which is why
  `getBasicCredentials` falls back to "Basic error!". That failure is the
  boolean `encoderRaises`.
- PinValidator.FilterValidation: hands the generic classifier the same
  error-body text it searched. In the source, `errorBody()?.string()` is
  called twice. The first call drains OkHttp's buffer, so the second
  returns "". By a reading of OkHttp, nothing executed, a 400 without the
  phrase then throws `RuntimeException("")`, not `RuntimeException(body)`.
- Strings are sequences of Unicode scalar values, while Kotlin strings are
  UTF-16. An unpaired surrogate, which `toByteArray()` encodes as '?',
  cannot occur in the model, so `Utf8.Encode` does not cover that case.
- Text.Contains: case-insensitive matching compares ASCII letters only. It
  does not cover Unicode case folding.
- Numbers.ToLong: accepts ASCII digits only, while `Long.parseLong` also
  accepts other Unicode decimal digits.
- SessionTokens.ExpiredIffAfterLifetime: holds only when the lifetime in
  milliseconds and the expiry instant fit in a Long (`NoOverflow`). Outside
  that range, `ExpiryDate` models the saturating and wrapping arithmetic,
  but the model proves nothing about it.
- SessionTokens.NotExpiredAtExpiryInstant: also assumes `NoOverflow`.
- SessionTokens.ExpiryDateExact: also assumes `NoOverflow`.
