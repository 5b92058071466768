/**
 * The session-token expiry check.  A token carries its issue instant in
 * milliseconds and its lifetime in seconds, both as decimal strings; it is
 * expired when the current instant is strictly after issue + lifetime.
 * `isTokenExpired` returns true for an EXPIRED token (its doc comment says
 * the opposite; the code and its tests agree with this model).  The clock
 * reading `System.currentTimeMillis()` is the parameter `now`.
 */
module SessionTokens {
  import opened Failures
  import opened Numbers

  /** The fields of a session token that the SDK reads. */
  datatype SessionToken = SessionToken(accessToken: string, issuedAt: string, expiresIn: string)

  /**
   * The expiry instant as the source computes it: `expiresIn.toLong()` is
   * parsed first, then `issuedAt.toLong()`; the lifetime is converted with
   * the saturating `TimeUnit.SECONDS.toMillis` and added with `Long.plus`.
   */
  function ExpiryDate(token: SessionToken): (r: Try<Long>)
    ensures ToLong(token.expiresIn).Thrown? ==> r == Thrown(Failure(NumberFormat(token.expiresIn)))
    ensures ToLong(token.expiresIn).Ok? && ToLong(token.issuedAt).Thrown? ==> r == Thrown(Failure(NumberFormat(token.issuedAt)))
    ensures r.Ok? <==> ToLong(token.expiresIn).Ok? && ToLong(token.issuedAt).Ok?
    ensures r.Ok? ==> r.value == PlusLong(ToLong(token.issuedAt).value, SecondsToMillis(ToLong(token.expiresIn).value))
  {
    match ToLong(token.expiresIn)
    case Thrown(e) => Thrown(e)
    case Ok(lifetime) =>
      match ToLong(token.issuedAt)
      case Thrown(e) => Thrown(e)
      case Ok(issued) => Ok(PlusLong(issued, SecondsToMillis(lifetime)))
  }

  /** Neither the lifetime in milliseconds nor the expiry instant leaves the `Long` range. */
  predicate NoOverflow(issued: Long, lifetime: Long) {
    LONG_MIN <= lifetime * 1000 <= LONG_MAX && LONG_MIN <= issued + lifetime * 1000 <= LONG_MAX
  }

  /** Without overflow the expiry instant is exactly issuedAt + expiresIn * 1000. */
  lemma ExpiryDateExact(token: SessionToken, issued: Long, lifetime: Long)
    requires ToLong(token.issuedAt) == Ok(issued) && ToLong(token.expiresIn) == Ok(lifetime)
    requires NoOverflow(issued, lifetime)
    ensures ExpiryDate(token) == Ok(issued + lifetime * 1000)
  {
  }

  /** `isTokenExpired(token)`: `Date(now).after(expiryDate)`; an unparsable field throws. */
  function IsTokenExpired(token: SessionToken, now: Long): (r: Try<bool>)
    ensures r.Thrown? <==> ExpiryDate(token).Thrown?
    ensures r.Thrown? ==> r.error == ExpiryDate(token).error
    ensures r.Ok? ==> (r.value <==> now > ExpiryDate(token).value)
  {
    match ExpiryDate(token)
    case Thrown(e) => Thrown(e)
    case Ok(expiry) => Ok(now > expiry)
  }

  /**
   * `checkIfTokenIsExpired(token, errorMessage)`: true when the token has
   * not expired; an expired token throws `SessionTokenExpiredException`
   * with exactly the caller's message.  It never returns false.
   */
  function CheckIfTokenIsExpired(token: SessionToken, now: Long, errorMessage: string): (r: Try<bool>)
    ensures r != Ok(false)
    ensures r == Ok(true) <==> IsTokenExpired(token, now) == Ok(false)
    ensures IsTokenExpired(token, now) == Ok(true) ==>
              r == Thrown(Raised(SessionTokenExpiredException, Some(errorMessage)))
    ensures IsTokenExpired(token, now).Thrown? ==> r == IsTokenExpired(token, now)
  {
    match IsTokenExpired(token, now)
    case Thrown(e) => Thrown(e)
    case Ok(expired) =>
      if !expired then Ok(true) else Throw(SessionTokenExpiredException, errorMessage)
  }

  /** Without overflow, a token is expired exactly when now > issuedAt + expiresIn * 1000. */
  lemma ExpiredIffAfterLifetime(token: SessionToken, now: Long, issued: Long, lifetime: Long)
    requires ToLong(token.issuedAt) == Ok(issued) && ToLong(token.expiresIn) == Ok(lifetime)
    requires NoOverflow(issued, lifetime)
    ensures IsTokenExpired(token, now) == Ok(now > issued + lifetime * 1000)
  {
    ExpiryDateExact(token, issued, lifetime);
  }

  /** At the expiry instant itself the token is still valid: the comparison is strict. */
  lemma NotExpiredAtExpiryInstant(token: SessionToken, issued: Long, lifetime: Long)
    requires ToLong(token.issuedAt) == Ok(issued) && ToLong(token.expiresIn) == Ok(lifetime)
    requires NoOverflow(issued, lifetime)
    ensures IsTokenExpired(token, issued + lifetime * 1000) == Ok(false)
    ensures issued + lifetime * 1000 < LONG_MAX ==> IsTokenExpired(token, issued + lifetime * 1000 + 1) == Ok(true)
  {
    ExpiryDateExact(token, issued, lifetime);
  }

  /** Once expired, a token stays expired at every later instant. */
  lemma ExpiryIsMonotone(token: SessionToken, now: Long, later: Long)
    requires now <= later
    requires IsTokenExpired(token, now) == Ok(true)
    ensures IsTokenExpired(token, later) == Ok(true)
  {
  }

  /** A field that is not a number makes the check fail; it never defaults to a value. */
  lemma MalformedFieldFails(token: SessionToken, now: Long, errorMessage: string)
    requires ToLong(token.issuedAt).Thrown? || ToLong(token.expiresIn).Thrown?
    ensures CheckIfTokenIsExpired(token, now, errorMessage).Thrown?
    ensures CheckIfTokenIsExpired(token, now, errorMessage).error.Failure?
  {
  }

  const ONE_DAY_MILLI_SECONDS: int := 86_400_000
  const ONE_HOUR_IN_SECONDS: int := 3600

  /** A token whose `issuedAt` is printed from `issued` and whose lifetime is one hour. */
  function OneHourToken(issued: Long): SessionToken {
    SessionToken("", DecimalString(issued), DecimalString(ONE_HOUR_IN_SECONDS))
  }

  /**
   * Issued a day before now with a one-hour lifetime: expired.  Issued a
   * day after now: not expired.
   */
  lemma {:induction false} OneDayScenarios(now: Long)
    requires LONG_MIN + ONE_DAY_MILLI_SECONDS <= now <= LONG_MAX - ONE_DAY_MILLI_SECONDS - ONE_HOUR_IN_SECONDS * 1000
    ensures IsTokenExpired(OneHourToken(now - ONE_DAY_MILLI_SECONDS), now) == Ok(true)
    ensures IsTokenExpired(OneHourToken(now + ONE_DAY_MILLI_SECONDS), now) == Ok(false)
  {
    ToLongOfDecimalString(ONE_HOUR_IN_SECONDS);
    ToLongOfDecimalString(now - ONE_DAY_MILLI_SECONDS);
    ToLongOfDecimalString(now + ONE_DAY_MILLI_SECONDS);
  }
}
