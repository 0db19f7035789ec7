/** `register`, `login` and `logout`: the handlers that create users and
    create, rotate or delete their refresh-token records. */
module AuthController {
  import opened Common
  import opened Collections
  import opened Jwt
  import opened UserModel
  import opened RefreshTokens
  import opened Db

  /** The JSON body `{ [message,] token, user: { _id, email } }` together with
      the `refreshToken` cookie and its `maxAge`. */
  datatype Session = Session(
    message: Option<string>,
    token: Tok,
    user: Claims,
    cookie: Tok,
    cookieMaxAgeMs: int)

  /** The session handed out for `claims` at time `now`: a fresh access token,
      and a fresh refresh token in a cookie that lives as long as it. */
  function NewSession(message: Option<string>, claims: Claims, now: int): (s: Session)
    ensures s.token.kind == Access && s.cookie.kind == Refresh
    ensures Claims(s.token.userId, s.token.email) == claims == Claims(s.cookie.userId, s.cookie.email)
    ensures s.token.expiresAt == now + 15 * 60 && s.cookie.expiresAt == now + 7 * 24 * 60 * 60
    ensures s.cookieMaxAgeMs == 1000 * (s.cookie.expiresAt - now)
  {
    Session(message, Sign(claims, Access, now), claims, Sign(claims, Refresh, now), CookieMaxAgeMs)
  }

  predicate EmailTaken(users: seq<User>, email: string)
  {
    exists i :: 0 <= i < |users| && users[i].email == email
  }

  method Register(db: Store, email: Option<string>, password: Option<string>, now: int)
    returns (r: Response<Session>)
    requires db.Valid()
    modifies db
    ensures db.Valid()
    ensures db.rooms == old(db.rooms) && db.messages == old(db.messages)
    ensures !Truthy(email) || !Truthy(password) ==>
              r == Fail(400, "email or password missing") && unchanged(db)
    ensures Truthy(email) && Truthy(password) && EmailTaken(old(db.users), email.value) ==>
              r == Fail(409, "email is already taken") && unchanged(db)
    ensures Truthy(email) && Truthy(password) && !EmailTaken(old(db.users), email.value) ==>
              var id := old(db.nextId);
              var claims := Claims(id, email.value);
              && db.users == old(db.users) + [NewUser(id, email.value, password.value, now)]
              && db.nextId == id + 1
              && r == Ok(201, NewSession(Some("User successfully registered"), claims, now))
              && db.tokens == old(db.tokens) + [RefreshRecord(r.body.cookie, id)]
              && db.signed == old(db.signed) + {r.body.token, r.body.cookie}
  {
    if !Truthy(email) || !Truthy(password) {
      return Fail(400, "email or password missing");
    }
    var existing := FindByEmail(db.users, email.value);
    if existing.Some? {
      return Fail(409, "email is already taken");
    }
    assert OwnersBelow(db.tokens, db.nextId);
    var id := db.FreshId();
    var user := NewUser(id, email.value, password.value, now);
    AppendKeepsWellFormed(db.users, user);
    db.users := db.users + [user];
    var claims := Claims(user.id, user.email);
    var accessToken := Sign(claims, Access, now);
    var refreshToken := Sign(claims, Refresh, now);
    AppendNewOwner(db.tokens, RefreshRecord(refreshToken, user.id));
    db.tokens := db.tokens + [RefreshRecord(refreshToken, user.id)];
    db.signed := db.signed + {accessToken, refreshToken};
    r := Ok(201, Session(Some("User successfully registered"), accessToken, claims, refreshToken, CookieMaxAgeMs));
  }

  /** `comparePassword(stored, candidate)` stands for the user model's password check. */
  method Login(db: Store, email: Option<string>, password: Option<string>,
               comparePassword: (string, string) -> bool, now: int)
    returns (r: Response<Session>)
    requires db.Valid()
    modifies db
    ensures db.Valid()
    ensures db.users == old(db.users) && db.rooms == old(db.rooms)
    ensures db.messages == old(db.messages) && db.nextId == old(db.nextId)
    ensures r.Err? ==> db.tokens == old(db.tokens) && db.signed == old(db.signed)
    ensures r.Ok? ==> db.signed == old(db.signed) + {r.body.token, r.body.cookie}
    ensures !Truthy(email) || !Truthy(password) ==> r == Fail(400, "Email or password missing")
    ensures Truthy(email) && Truthy(password) ==>
      match FindByEmail(old(db.users), email.value)
      case None => r == Fail(401, "Invalid email")
      case Some(u) =>
        if !comparePassword(u.password, password.value) then r == Fail(401, "Incorrect password")
        else
          var claims := Claims(u.id, u.email);
          && r == Ok(200, NewSession(None, claims, now))
          && db.tokens == Rotate(old(db.tokens), u.id, r.body.cookie)
  {
    if !Truthy(email) || !Truthy(password) {
      return Fail(400, "Email or password missing");
    }
    var found := FindByEmail(db.users, email.value);
    if found.None? {
      return Fail(401, "Invalid email");
    }
    var user := found.value;
    var isMatch := comparePassword(user.password, password.value);
    if !isMatch {
      return Fail(401, "Incorrect password");
    }
    var claims := Claims(user.id, user.email);
    var newAccessToken := Sign(claims, Access, now);
    var newRefreshToken := Sign(claims, Refresh, now);
    RotateKeepsAtMostOne(db.tokens, user.id, newRefreshToken);
    RotateKeepsBounds(db.tokens, user.id, newRefreshToken, db.nextId);
    db.tokens := RemoveFirst(db.tokens, Owner(user.id));
    db.tokens := db.tokens + [RefreshRecord(newRefreshToken, user.id)];
    db.signed := db.signed + {newAccessToken, newRefreshToken};
    r := Ok(200, Session(None, newAccessToken, claims, newRefreshToken, CookieMaxAgeMs));
  }

  /** `cookie` is the request's `refreshToken` cookie, absent when not sent. */
  method Logout(db: Store, cookie: Option<Tok>) returns (r: Response<Notice>)
    requires db.Valid()
    modifies db
    ensures db.Valid()
    ensures db.users == old(db.users) && db.rooms == old(db.rooms)
    ensures db.messages == old(db.messages) && db.nextId == old(db.nextId)
    ensures db.signed == old(db.signed)
    ensures db.tokens == Revoke(old(db.tokens), cookie)
    ensures r == Ok(200, Notice("Logout successful"))
  {
    RevokeKeepsAtMostOne(db.tokens, cookie);
    RevokeKeepsBounds(db.tokens, cookie, db.nextId);
    db.tokens := Revoke(db.tokens, cookie);
    r := Ok(200, Notice("Logout successful"));
  }
}
