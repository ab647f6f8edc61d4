/**
  The token and password primitives of the server. Signing, verifying and Argon2 hashing are
  foreign code (jsonwebtoken, argon2): they appear here as function-valued fields and
  parameters, and nothing cryptographic is assumed of them.
*/
module Security {
  import opened Wrappers
  import Uuids

  /** The registered claims the server puts in a token (section 4.1 of RFC 7519):
      `sub` the subject, `exp` the expiration time, `iat` the issue time, in seconds. */
  datatype Claims = Claims(sub: string, exp: int, iat: int)

  /** One hour, the `chrono::Duration::hours(1)` added to the issue time. */
  const TOKEN_LIFETIME_SECS: int := 3600

  /** `JwtKeys`: the process-wide secret, seen through what it is used for. `encode` signs
      claims with the secret; `verify` decodes, checks the signature and validates the
      expiry at the time of the call. Either can fail with the library's error text. */
  datatype JwtKeys = JwtKeys(
    encode: Claims -> Result<string, string>,
    verify: string -> Result<Claims, string>)

  /** The claims `generate_token(user_id)` signs when the clock reads `now`. */
  function ClaimsFor(userId: Uuids.Uuid, now: int): (c: Claims)
    ensures Uuids.Parse(c.sub) == Some(userId)
    ensures c.iat == now && c.exp == c.iat + TOKEN_LIFETIME_SECS && c.exp > c.iat
  {
    Uuids.ParseToString(userId);
    Claims(Uuids.ToString(userId), now + TOKEN_LIFETIME_SECS, now)
  }

  /** `JwtKeys::generate_token`: signs claims naming the user, issued now, expiring in an
      hour; a signing failure is the library's error. */
  function GenerateToken(keys: JwtKeys, userId: Uuids.Uuid, now: int): (r: Result<string, string>)
    ensures exists c :: r == keys.encode(c) && Uuids.Parse(c.sub) == Some(userId)
                        && c.iat == now && c.exp == now + TOKEN_LIFETIME_SECS
  {
    keys.encode(ClaimsFor(userId, now))
  }

  /** `JwtKeys::verify_token`: the claims of a token that decodes and validates, or the
      library's error; nothing is added on top of the library's checks. */
  function VerifyToken(keys: JwtKeys, token: string): (r: Result<Claims, string>)
    ensures r.Ok? <==> keys.verify(token).Ok?
    ensures r.Ok? ==> r.value == keys.verify(token).value
    ensures r.Err? ==> r.error == keys.verify(token).error
  {
    keys.verify(token)
  }

  /** When the library reads back the claims it signed (the secret is the same and the hour has
      not passed), verifying a generated token names the user it was generated for. */
  lemma {:induction false} GeneratedTokenNamesUser(keys: JwtKeys, userId: Uuids.Uuid, now: int, token: string)
    requires GenerateToken(keys, userId, now) == Ok(token)
    requires forall c :: keys.encode(c) == Ok(token) ==> keys.verify(token) == Ok(c)
    ensures VerifyToken(keys, token).Ok?
    ensures Uuids.Parse(VerifyToken(keys, token).value.sub) == Some(userId)
    ensures VerifyToken(keys, token).value.exp == now + TOKEN_LIFETIME_SECS
  {
    var c := ClaimsFor(userId, now);
    assert keys.encode(c) == Ok(token);
  }
}
