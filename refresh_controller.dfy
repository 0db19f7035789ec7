/** `refresh`: verifies the `refreshToken` cookie and rotates the user's
    refresh-token record (delete the first record of the user, then create). */
module RefreshController {
  import opened Common
  import opened Collections
  import opened Jwt
  import opened RefreshTokens
  import opened Db
  import opened AuthController

  /** The claims of a cookie that verifies as a refresh token at time `now`,
      given the set of tokens the server has signed. */
  function VerifyCookie(cookie: Option<Tok>, signed: set<Tok>, now: int): (r: Result<Claims>)
    ensures r.Success? <==>
      cookie.Some? && cookie.value in signed && cookie.value.kind == Kind.Refresh && now < cookie.value.expiresAt
    ensures r.Success? ==> r.value == Claims(cookie.value.userId, cookie.value.email)
  {
    if cookie.None? then Failure(Error(None, "jwt must be provided"))
    else Verify(cookie.value, Kind.Refresh, signed, now)
  }

  /** The handler as written. Success depends on verification alone: whether the
      presented token is still stored is never looked at. */
  method Refresh(db: Store, cookie: Option<Tok>, now: int) returns (r: Response<Session>)
    requires db.Valid()
    modifies db
    ensures db.Valid()
    ensures db.users == old(db.users) && db.rooms == old(db.rooms)
    ensures db.messages == old(db.messages) && db.nextId == old(db.nextId)
    ensures r.Ok? <==> VerifyCookie(cookie, old(db.signed), now).Success?
    ensures r.Err? ==> r == Fail(401, "Refresh token is invalid or expired")
    ensures r.Err? ==> db.tokens == old(db.tokens) && db.signed == old(db.signed)
    ensures r.Ok? ==> db.signed == old(db.signed) + {r.body.token, r.body.cookie}
    ensures r.Ok? ==>
      var claims := VerifyCookie(cookie, old(db.signed), now).value;
      && r == Ok(200, NewSession(None, claims, now))
      && db.tokens == Rotate(old(db.tokens), claims.userId, r.body.cookie)
  {
    var decoded := VerifyCookie(cookie, db.signed, now);
    if decoded.Failure? {
      return Fail(401, "Refresh token is invalid or expired");
    }
    var claims := decoded.value;
    var newAccessToken := Sign(Claims(claims.userId, claims.email), Access, now);
    var newRefreshToken := Sign(Claims(claims.userId, claims.email), Kind.Refresh, now);
    RotateKeepsAtMostOne(db.tokens, claims.userId, newRefreshToken);
    RotateKeepsBounds(db.tokens, claims.userId, newRefreshToken, db.nextId);
    db.tokens := RemoveFirst(db.tokens, Owner(claims.userId));
    db.tokens := db.tokens + [RefreshRecord(newRefreshToken, claims.userId)];
    db.signed := db.signed + {newAccessToken, newRefreshToken};
    r := Ok(200, Session(None, newAccessToken, claims, newRefreshToken, CookieMaxAgeMs));
  }

  predicate Stored(rs: seq<RefreshRecord>, t: Tok)
  {
    exists i :: 0 <= i < |rs| && rs[i].token == t
  }

  /** The handler as evidently intended: a token that verifies but is no longer
      stored (already rotated or revoked) is refused, and nothing changes. */
  method RefreshIntended(db: Store, cookie: Option<Tok>, now: int) returns (r: Response<Session>)
    requires db.Valid()
    modifies db
    ensures db.Valid()
    ensures db.users == old(db.users) && db.rooms == old(db.rooms)
    ensures db.messages == old(db.messages) && db.nextId == old(db.nextId)
    ensures r.Ok? <==> VerifyCookie(cookie, old(db.signed), now).Success? && Stored(old(db.tokens), cookie.value)
    ensures r.Err? ==> r == Fail(401, "Refresh token is invalid or expired")
    ensures r.Err? ==> db.tokens == old(db.tokens) && db.signed == old(db.signed)
    ensures r.Ok? ==> db.signed == old(db.signed) + {r.body.token, r.body.cookie}
    ensures r.Ok? ==>
      var claims := VerifyCookie(cookie, old(db.signed), now).value;
      && r == Ok(200, NewSession(None, claims, now))
      && db.tokens == Rotate(old(db.tokens), claims.userId, r.body.cookie)
  {
    var decoded := VerifyCookie(cookie, db.signed, now);
    if decoded.Failure? || !Stored(db.tokens, cookie.value) {
      return Fail(401, "Refresh token is invalid or expired");
    }
    var claims := decoded.value;
    var newAccessToken := Sign(claims, Access, now);
    var newRefreshToken := Sign(claims, Kind.Refresh, now);
    RotateKeepsAtMostOne(db.tokens, claims.userId, newRefreshToken);
    RotateKeepsBounds(db.tokens, claims.userId, newRefreshToken, db.nextId);
    db.tokens := RemoveFirst(db.tokens, Owner(claims.userId));
    db.tokens := db.tokens + [RefreshRecord(newRefreshToken, claims.userId)];
    db.signed := db.signed + {newAccessToken, newRefreshToken};
    r := Ok(200, Session(None, newAccessToken, claims, newRefreshToken, CookieMaxAgeMs));
  }

  /** With at most one record per user, a successful intended rotation leaves the
      presented token unstored whenever the new token differs from it, so
      presenting it again is refused. */
  lemma IntendedRotationRetiresToken(rs: seq<RefreshRecord>, presented: Tok, signed: set<Tok>, now: int)
    requires AtMostOnePerUser(rs) && Consistent(rs)
    requires VerifyCookie(Some(presented), signed, now).Success? && Stored(rs, presented)
    requires Sign(Claims(presented.userId, presented.email), Kind.Refresh, now) != presented
    ensures !Stored(Rotate(rs, presented.userId, Sign(Claims(presented.userId, presented.email), Kind.Refresh, now)), presented)
  {
    RotatedTokenGone(rs, presented.userId, presented, Sign(Claims(presented.userId, presented.email), Kind.Refresh, now));
  }
}
