/** JSON Web Tokens (RFC 7519) as the backend signs and verifies them with
    `jsonwebtoken`. A token is identified with its signed payload: the secret
    it was signed with (`kind`), the claims `{_id, email}` and the expiry
    `exp` (RFC 7519 section 4.1.4), in seconds. The signature cryptography
    itself is abstracted: a token verifies against a secret exactly when it
    was signed with that secret. */
module Jwt {
  import opened Common

  /** Which secret signed the token: ACCESS_TOKEN_SECRET, REFRESH_TOKEN_SECRET, or any other key. */
  datatype Kind = Access | Refresh | Foreign

  /** The claims every token of the backend carries, also returned as the response `user`. */
  datatype Claims = Claims(userId: Id, email: string)

  datatype Tok = Tok(kind: Kind, userId: Id, email: string, expiresAt: int)

  /** `expiresIn: '15m'`, in seconds. */
  const AccessLifetime: int := 15 * 60
  /** `expiresIn: '7d'`, in seconds. */
  const RefreshLifetime: int := 7 * 24 * 60 * 60
  /** The refresh-token cookie's `maxAge: 7 * 24 * 60 * 60 * 1000`, in milliseconds. */
  const CookieMaxAgeMs: int := 7 * 24 * 60 * 60 * 1000

  function Lifetime(kind: Kind): int
    requires kind != Foreign
  {
    if kind == Access then AccessLifetime else RefreshLifetime
  }

  /** `jwt.sign({ _id, email }, secret, { expiresIn })` at time `now` (seconds). */
  function Sign(claims: Claims, kind: Kind, now: int): (t: Tok)
    requires kind != Foreign
    ensures Claims(t.userId, t.email) == claims
    ensures t.expiresAt - now == Lifetime(kind)
  {
    Tok(kind, claims.userId, claims.email, now + Lifetime(kind))
  }

  /** `jwt.verify(token, secret)` at time `now`. `signed` holds every token the
      server has signed: a token outside it carries no valid signature by any
      of the server's secrets. The signature is checked first, then the expiry
      (a token is expired once `now >= exp`). The library's errors carry no
      `statusCode`. */
  function Verify(t: Tok, kind: Kind, signed: set<Tok>, now: int): (r: Result<Claims>)
    ensures r.Failure? ==> r.error.statusCode.None? && r.error.message != ""
    ensures r.Success? <==> t in signed && t.kind == kind && now < t.expiresAt
  {
    if t.kind != kind || t !in signed then Failure(Error(None, "invalid signature"))
    else if now >= t.expiresAt then Failure(Error(None, "jwt expired"))
    else Success(Claims(t.userId, t.email))
  }

  /** A token the backend signed verifies, with its claims, against the same
      secret until its lifetime has passed, and not after. */
  lemma SignedVerifiesUntilExpiry(claims: Claims, kind: Kind, signed: set<Tok>, issuedAt: int, now: int)
    requires kind != Foreign && Sign(claims, kind, issuedAt) in signed
    ensures Verify(Sign(claims, kind, issuedAt), kind, signed, now).Success?
        <==> now < issuedAt + Lifetime(kind)
    ensures Verify(Sign(claims, kind, issuedAt), kind, signed, now).Success? ==>
        Verify(Sign(claims, kind, issuedAt), kind, signed, now).value == claims
  {
  }

  /** A token the server never signed is rejected, whatever its claims say. */
  lemma UnsignedRejected(t: Tok, kind: Kind, signed: set<Tok>, now: int)
    requires t !in signed
    ensures Verify(t, kind, signed, now) == Failure(Error(None, "invalid signature"))
  {
  }

  /** Access and refresh secrets differ: neither kind of token verifies as the other. */
  lemma WrongSecretRejected(claims: Claims, kind: Kind, other: Kind, signed: set<Tok>, issuedAt: int, now: int)
    requires kind != Foreign && other != kind
    ensures Verify(Sign(claims, kind, issuedAt), other, signed, now).Failure?
  {
  }

  /** The cookie lives exactly as long as the refresh token it carries. */
  lemma CookieMatchesRefreshLifetime()
    ensures CookieMaxAgeMs == 1000 * Lifetime(Refresh) == 604800000
  {
  }
}
