# Chat-app backend: sessions and rooms, in Dafny

This project models the request handlers of a multi-room chat backend (an
Express server over MongoDB) and proves properties of them. It covers the
session protocol, the room directory, profile completion and message-history
reads:

- the session protocol: `register`, `login`, `logout` and `refresh` over the
  users and refresh-token collections. Refresh tokens are rotated by
  delete-then-create, and the model proves the single-active-token invariant
  for each operation;
- the room directory: `createRoom`, `getMyRooms`, `getRoomById`,
  `joinRoom`, `leaveRoom` and `deleteRoom` over the rooms collection;
- profile completion (`createProfile`) and message history (`getMessages`);
- the two helpers every request passes through: the loose
  `Authorization: Bearer` parsing of `authenticateToken` (compare section 2.1
  of RFC 6750) and the final `errorHandler`.

The database is one `Db.Store` object. It holds four collections, each a
sequence of documents in insertion order, plus an id counter and the set of
tokens the server has signed. Every handler
that writes is a method that `modifies` the store. Its contract gives the
response and the whole new state. The read-only handlers are functions.
Mongo queries are modelled by a few generic helpers in `Collections`:
`find` is `Filter`, `findOne` is `FirstIndex`, `findOneAndDelete` is
`RemoveFirst` and `sort` is `SortBy`. A JSON Web Token (RFC 7519) is a
value `Tok(kind, userId, email, expiresAt)`. `kind` records which secret
signed it. Signature verification accepts a token only if the store's
`signed` set holds it, that is, only a token the server itself signed. `expiresAt` is the `exp` claim of section 4.1.4 of RFC 7519, in
seconds. The lifetimes are 15 minutes (access) and 7 days (refresh).

The handlers are modelled as written. Three of them do not behave the way
their responses say (see "## Findings"). For each of these, the as-written
method sits next to an `...Intended` method, and scenario methods in
`Scenarios` exhibit the difference on a fresh store.

Files: `common.dfy` (options, errors, responses, JS truthiness),
`collections.dfy`, `hex.dfy`, `jwt.dfy`, `user_model.dfy`,
`refresh_tokens.dfy`, `rooms.dfy`, `messages.dfy`, `store.dfy`,
`error_handler.dfy`, `auth_middleware.dfy`, `auth_controller.dfy`,
`refresh_controller.dfy`, `room_controller.dfy`, `profile_controller.dfy`,
`message_controller.dfy`, `scenarios.dfy`.

## Model

| member | source | states |
|---|---|---|
| Collections.Filter | backend/controllers/roomController.js:36 | `find(filter)` keeps only matching documents and never grows the collection |
| Collections.FilterMember | backend/controllers/messageController.js:7 | a document is in the result of `find` iff it is stored and matches the filter |
| Collections.FilterCounts | backend/controllers/messageController.js:7 | `find` returns each matching document exactly as many times as it is stored, and no other document |
| Collections.FilterConcat | backend/controllers/roomController.js:113-115 | filtering preserves relative order: filtering a concatenation is the concatenation of the filtered parts |
| Collections.FilterCommute | backend/controllers/authController.js:116 | two filters applied one after the other give the same result in either order |
| Collections.FilterNone | backend/controllers/authController.js:40-43 | a filter no document passes gives an empty result |
| Collections.FilterKeepsAll | backend/controllers/roomController.js:113-115 | a filter every document passes changes nothing |
| Collections.FirstIndex | backend/controllers/roomController.js:73 | `findOne` gives the first matching document, and gives none exactly when nothing matches |
| Collections.RemoveFirst | backend/controllers/authController.js:83 | `findOneAndDelete` removes exactly the first match, or nothing when there is no match |
| Collections.RemoveFirstKeepsOthers | backend/controllers/authController.js:83 | `findOneAndDelete` leaves the documents of a disjoint filter as they were, in order |
| Collections.RemoveFirstDropsHead | backend/controllers/authController.js:83 | among the matching documents, `findOneAndDelete` removes the oldest |
| Collections.SortBy | backend/controllers/messageController.js:9 | sorting gives a permutation of its input, ordered by the key |
| HexEncoding.Hex | backend/controllers/roomController.js:15 | `toString('hex')` gives two lower-case hex digits per byte |
| HexEncoding.HexRoundTrip | backend/controllers/roomController.js:15 | the invite token loses nothing: the random bytes read back from it |
| Jwt.Sign | backend/controllers/authController.js:24-31 | a signed token carries `{_id, email}` and expires one lifetime after signing |
| Jwt.Verify | backend/middlewares/authMiddleware.js:14 | success iff the server signed the token, with the expected secret, and it has not expired; failures carry no `statusCode` and a non-empty message |
| Jwt.SignedVerifiesUntilExpiry | backend/controllers/authController.js:24-31 | a signed token verifies with its own claims against its own secret exactly until it expires |
| Jwt.UnsignedRejected | backend/middlewares/authMiddleware.js:14 | a token the server never signed fails with "invalid signature", whatever its claims |
| Jwt.WrongSecretRejected | backend/controllers/authController.js:24-31 | access and refresh tokens never verify as each other |
| Jwt.CookieMatchesRefreshLifetime | backend/controllers/authController.js:33-38 | the cookie `maxAge` of 604800000 ms equals the 7-day refresh lifetime |
| UserModel.FindByEmail | backend/controllers/authController.js:15-16 | `findOne({ email })` finds a stored user holding the email, and finds none exactly when no user holds it |
| UserModel.NewUser | backend/controllers/authController.js:22 | `User.create({ email, password })` keeps the id, email and password; it passes the `required` validators iff email and password are non-empty; age, username and role are unset, `isProfileComplete` is false and `createdAt` is now (backend/models/User.js:3-24) |
| UserModel.AppendKeepsWellFormed | backend/models/User.js:4-8 | adding a valid user with a fresh id and an untaken email keeps emails unique and records valid |
| UserModel.ReplaceKeepsWellFormed | backend/controllers/profileController.js:14-19 | updating a user in place without touching id and email keeps the collection well formed |
| RefreshTokens.Rotate | backend/controllers/authController.js:83-91 | rotation removes at most one record and ends with the new record for the user |
| RefreshTokens.RotateKeepsOthers | backend/controllers/refreshController.js:15-20 | rotation for one user leaves every other user's records unchanged, in order |
| RefreshTokens.RotateOwn | backend/controllers/authController.js:83-91 | rotation drops the user's oldest record, if any, and appends the new one |
| RefreshTokens.RotateLeavesOne | backend/controllers/authController.js:83-91 | a user with at most one record before rotation has exactly one after it, holding the new token |
| RefreshTokens.RotateKeepsAtMostOne | backend/controllers/authController.js:83-91 | rotation preserves the at-most-one-refresh-token-per-user invariant |
| RefreshTokens.Revoke | backend/controllers/authController.js:116 | `deleteMany({ token })` never grows the table and leaves no record holding the cookie's token |
| RefreshTokens.RevokeExactly | backend/controllers/authController.js:116 | `deleteMany({ token })` removes every record holding the cookie's token and keeps every other record |
| RefreshTokens.RevokeKeepsAtMostOne | backend/controllers/authController.js:116 | revocation preserves the at-most-one-per-user invariant |
| RefreshTokens.RotateKeepsBounds | backend/controllers/refreshController.js:15-20 | rotating in a refresh token of an issued user id keeps every record's token naming its owner, and every owner issued |
| RefreshTokens.RevokeKeepsBounds | backend/controllers/authController.js:116 | revocation keeps every remaining record consistent with its owner, and every owner issued |
| RefreshTokens.AppendNewOwner | backend/controllers/authController.js:40-43 | registration's first record for a new user id keeps at most one record per user |
| RefreshTokens.RotatedTokenGone | backend/controllers/refreshController.js:15-20 | under the invariant, a token rotated away is no longer stored anywhere |
| Rooms.Pull | backend/controllers/roomController.js:113-115 | `$pull` removes every occurrence of the user and keeps every other member as often as before |
| Rooms.PullConcat | backend/controllers/roomController.js:113-115 | `$pull` keeps the remaining members in their relative order |
| Rooms.PullNonMember | backend/controllers/roomController.js:113-115 | leaving a room one is not in changes nothing |
| Rooms.AppendKeepsUnique | backend/controllers/roomController.js:17-22 | a new room whose id no stored room has keeps room ids unique |
| Rooms.DeleteById | backend/controllers/roomController.js:142 | `findByIdAndDelete` changes nothing when no room has the id, and otherwise removes exactly one room |
| Rooms.DeleteByIdRemovesOnly | backend/controllers/roomController.js:142 | `findByIdAndDelete` removes exactly the room with that id, keeps every other room and keeps ids unique |
| ErrorHandler.StatusOf | backend/middlewares/errorHandler.js:10 | `err.statusCode \|\| 500`: a truthy code passes through, an absent or zero code becomes 500 |
| ErrorHandler.MessageOf | backend/middlewares/errorHandler.js:11 | `err.message \|\| "Internal server error"`: a non-empty message passes through, an empty one becomes the default |
| ErrorHandler.Handle | backend/middlewares/errorHandler.js:3-15 | delegates iff headers were sent; otherwise answers a truthy code or else 500, and a non-empty message or else "Internal server error" |
| ErrorHandler.HandlerCodesPassThrough | backend/middlewares/errorHandler.js:10-11 | the codes 400, 401, 403, 404 and 409 reach the client unchanged, with their message |
| ErrorHandler.UncodedBecomes500 | backend/middlewares/errorHandler.js:10 | an error without a code becomes 500 |
| AuthMiddleware.Split | backend/middlewares/authMiddleware.js:5 | `split(' ')` gives at least one field, and no field contains a space |
| AuthMiddleware.SplitJoin | backend/middlewares/authMiddleware.js:5 | joining the fields with spaces gives back the header: splitting loses nothing |
| AuthMiddleware.SplitNoSpace | backend/middlewares/authMiddleware.js:5 | a string without a space splits into itself alone |
| AuthMiddleware.SplitAfterField | backend/middlewares/authMiddleware.js:5 | a field followed by a space splits off as the first field |
| AuthMiddleware.SplitFirstField | backend/middlewares/authMiddleware.js:5 | the first field is everything before the first space |
| AuthMiddleware.BearerToken | backend/middlewares/authMiddleware.js:5-7 | no header gives no token; a token is the non-empty, space-free second field of the header |
| AuthMiddleware.BearerTokenOf | backend/middlewares/authMiddleware.js:5 | the token is the second space-separated field, whatever the scheme, and later fields are ignored |
| AuthMiddleware.BearerTokenShape | backend/middlewares/authMiddleware.js:5-7 | an extracted token is non-empty, has no space, and sits after the first space of the header |
| AuthMiddleware.NoSpaceNoToken | backend/middlewares/authMiddleware.js:5-11 | a header without a space yields no token |
| AuthMiddleware.EmptySecondFieldNoToken | backend/middlewares/authMiddleware.js:5-11 | a header such as "Bearer " yields no token |
| AuthMiddleware.LooseSchemeExample | backend/middlewares/authMiddleware.js:5 | "X a b" gives "a"; "Bearer " and "Bearer" give none |
| AuthMiddleware.Authenticate | backend/middlewares/authMiddleware.js:3-20 | no token iff 401 "No token provided"; success iff the token decodes to an unexpired access token the server signed, yielding its claims; other failures are the library's uncoded errors |
| AuthMiddleware.RejectionStatus | backend/middlewares/authMiddleware.js:7-19 | through the error handler, a missing token is answered 401 and every verify failure 500 |
| Db.Store.constructor | backend/models/User.js:3-24 | an empty database is valid: no user, record, room or message, no signed token, and the id counter at 0 |
| Db.Store.FreshId | backend/controllers/authController.js:22 | a new document id is the counter's value, above every id in use, and the store stays valid |
| Db.Store.AddRoom | backend/controllers/roomController.js:17-22 | `Room.create` stores one room under the counter's value as its id and advances the counter, creator as its only member, after every stored room, keeping the store valid |
| AuthController.NewSession | backend/controllers/authController.js:24-38 | the access and refresh tokens carry the same `{_id, email}` as the response user, with 15-minute and 7-day expiries and the 7-day cookie |
| AuthController.Register | backend/controllers/authController.js:6-56 | 400 on a missing field and 409 on a taken email, both with nothing changed; otherwise one new user with schema defaults, 201, exactly one new refresh record for that user, both tokens signed; the store stays valid, so still at most one record per user |
| AuthController.Login | backend/controllers/authController.js:58-110 | 400, 401 "Invalid email" or 401 "Incorrect password" with no record changed and nothing signed; otherwise 200, both new tokens signed and the user's tokens rotated; the store stays valid |
| AuthController.Logout | backend/controllers/authController.js:112-131 | always 200 "Logout successful"; the records holding the cookie's token are revoked, nothing else changes, and the store stays valid |
| RefreshController.VerifyCookie | backend/controllers/refreshController.js:6-13 | the cookie verifies iff present, signed by the server with the refresh secret and unexpired, and then yields its claims |
| RefreshController.Refresh | backend/controllers/refreshController.js:4-40 | 401 with nothing changed iff verification fails; otherwise 200 with new signed tokens for the decoded claims and the decoded user's tokens rotated, whether or not the cookie is stored; the store stays valid |
| RefreshController.RefreshIntended | backend/controllers/refreshController.js:8-20 | as `Refresh`, but success also requires the presented token to be stored |
| RefreshController.IntendedRotationRetiresToken | backend/controllers/refreshController.js:15-20 | after an intended rotation, the presented token is no longer stored, so presenting it again fails |
| RoomController.CreateRoom | backend/controllers/roomController.js:5-30 | 400 with nothing changed for a missing or empty name; otherwise 201, one new room whose id is the counter's value, never issued before, with the counter advanced, creator as its only member, an 8-hex-digit invite token encoding the random bytes, and the link `APP_URL/join/token` |
| RoomController.GetMyRooms | backend/controllers/roomController.js:32-44 | 200 with the caller's rooms ordered newest first |
| RoomController.MyRoomsExactly | backend/controllers/roomController.js:36-38 | the listing holds exactly the rooms whose members include the caller, each as often as stored |
| RoomController.Populated | backend/controllers/roomController.js:52 | `populate('members')` changes no other field and never adds members |
| RoomController.PopulatedMembers | backend/controllers/roomController.js:52 | after population an id is listed iff it is a member and some stored user has it |
| RoomController.PopulatedKeepsRegistered | backend/controllers/roomController.js:52 | when every member is a stored user, population keeps the room as it is |
| RoomController.GetRoomById | backend/controllers/roomController.js:46-66 | 404 "Room not found" iff no room has the id; otherwise that room with its members populated, and `membersLength` counting the populated members |
| RoomController.Pushed | backend/controllers/roomController.js:88 | `members.push` appends the user after the existing members and changes no other field |
| RoomController.JoinRoom | backend/controllers/roomController.js:68-98 | 404 with nothing changed for an unknown token; otherwise the caller is appended to that room's members, even when already a member, and only that room changes |
| RoomController.JoinRoomIntended | backend/controllers/roomController.js:81-89 | joining a room one is in changes nothing; joining otherwise appends the caller and keeps members duplicate-free |
| RoomController.LeaveRoom | backend/controllers/roomController.js:100-121 | 404 with nothing changed for an unknown room; otherwise every occurrence of the caller is pulled from that room only |
| RoomController.DeleteRoom | backend/controllers/roomController.js:123-148 | 404 with nothing changed for an unknown room; otherwise the room is deleted, and a non-creator is answered 403 all the same |
| RoomController.DeleteRoomIntended | backend/controllers/roomController.js:136-142 | a non-creator gets 403 and the rooms are unchanged; only the creator deletes |
| ProfileController.SetProfile | backend/controllers/profileController.js:14-19 | the update sets username, age and role, marks the profile complete and keeps id, email, password and `createdAt` |
| ProfileController.CreateProfile | backend/controllers/profileController.js:3-34 | 400 with nothing changed if any field is falsy (age 0 included); an unknown user raises the null-access error with nothing changed; otherwise only that user is updated and its public view returned |
| ProfileController.SetProfileIdempotent | backend/controllers/profileController.js:14-19 | applying the same profile twice gives the same record as applying it once |
| ProfileController.ViewOfUpdated | backend/controllers/profileController.js:21-30 | the response user is exactly email, username, age, role and `isProfileComplete` true |
| ProfileController.NullUserBecomes500 | backend/controllers/profileController.js:31-32 | an unknown user id ends as a 500 |
| MessageController.GetMessages | backend/controllers/messageController.js:3-15 | 200 with the history ordered oldest first |
| MessageController.HistoryExactly | backend/controllers/messageController.js:7 | every stored message of the room is returned, no other message, with no limit |
| MessageController.UnknownRoomEmpty | backend/controllers/messageController.js:7-11 | a room without messages gets 200 and an empty list |
| Scenarios.TwoUsers | backend/controllers/authController.js:6-56 | two registrations on an empty store give the users ids 0 and 1 and a valid store |
| Scenarios.CreatorsRoom | backend/controllers/roomController.js:5-30 | after both registrations, the first user's room is the only room, with that user as its creator and only member |
| Scenarios.JoinThenLeave | backend/controllers/roomController.js:68-121 | create gives 201 and an 8-character token; after the registered guest joins, the room has 2 members, and after the guest leaves, 1 |
| Scenarios.CreatorDelete | backend/controllers/roomController.js:123-148 | the creator's delete gives 200, and reading the room afterwards gives 404 |
| Scenarios.JoinTwice | backend/controllers/roomController.js:81-89 | as written, a second join answers "already in that room" yet lists the guest twice |
| Scenarios.JoinTwiceIntended | backend/controllers/roomController.js:81-89 | as intended, the guest is listed once |
| Scenarios.NonCreatorDelete | backend/controllers/roomController.js:136-142 | as written, a non-creator is answered 403 yet the room is gone |
| Scenarios.NonCreatorDeleteIntended | backend/controllers/roomController.js:136-142 | as intended, the room stays after a non-creator's delete |
| Scenarios.WrongPasswordTwice | backend/controllers/authController.js:75-81 | two logins with a wrong password are both 401 and create no refresh record |
| Scenarios.LogoutTwice | backend/controllers/authController.js:112-131 | logout revokes the record, and a second logout still answers 200 |
| Scenarios.RefreshReplay | backend/controllers/refreshController.js:8-20 | as written, a refresh cookie is accepted a second time although, at the second call, no record holds it any more |
| Scenarios.RefreshReplayIntended | backend/controllers/refreshController.js:8-20 | as intended, the rotated-away cookie is refused with 401 |

## Left out

- Database I/O: Mongoose calls are modelled as operations on in-memory sequences and are atomic. A malformed id (a Mongoose `CastError`, which reaches the error handler as a 500) is not modelled: ids are natural numbers.
- Document ids: `ObjectId` generation is modelled by the store's `nextId` counter.
- `populate`: in `getRoomById`, `populate('members')` drops member ids that name no user, and the model does the same. `membersLength` counts only the members that are users. The member documents themselves (username, age, role) are shown as plain ids. `populate('createdBy')` is not modelled: `createdBy` stays an id, where the code gives `null` for a creator that no longer exists.
- `getMyRooms` and `getMessages` order documents with equal `createdAt` by insertion (a stable sort). MongoDB leaves such ties unspecified.
- Cryptography: JWT signing and verification is abstracted. A token verifies exactly when the server signed it (it is in the store's `signed` set) with the expected secret and `exp` has not passed. The `iat` claim and clock tolerance are not modelled.
- The bearer token string is turned into a token by a `decode` parameter, which stands for JWT parsing.
- `crypto.randomBytes(4)` is an input to `CreateRoom`. `process.env.APP_URL` is a parameter.
- The wall clock is an integer `now`, in seconds.
- `comparePassword` is called by `login`, but the user schema does not define it. It is a `(stored, candidate) -> bool` parameter of `Login`.
- Route wiring: the routes never attach `authenticateToken`, so the handlers take the caller's user id as a parameter.
- The Message, Room and RefreshToken models are not part of this model. Their fields are inferred from the handlers.
- Real-time fan-out and message appends: the socket layer is not part of this model, so `messages` is only ever read.
- Concurrency: the delete-then-create race between simultaneous logins or refreshes of one user is not modelled. Handlers run one at a time.
- HTTP artefacts are not modelled: cookie flags (`httpOnly`, `secure`, `sameSite`), `clearCookie`, and the `NODE_ENV` switch.
- When a handler answers twice, the model keeps the first answer: the already-member join and the non-creator delete.
- An exception thrown inside the asynchronous `jwt.verify` callback of `refresh` is not modelled.
- Request bodies are typed: email, password, name, username and role are optional strings, and age is an optional integer. JavaScript values of other types are not modelled. For example, the string "0" as an age is truthy in JavaScript.
- Logout without a cookie: `deleteMany({ token: undefined })` is modelled as matching no record. In MongoDB it also matches records lacking a `token` field, which the handlers never create.
- Logging: `errorHandler` writes `err.stack` to the logger before answering. The model has no log output.
- `getMessages` populates each message's `userId` with the author's `{ _id, username }`, or `null` when the author no longer exists. The model returns the plain author id.
- Refresh-token expiry in storage (a TTL index) is not modelled: a stored record stays until it is rotated or revoked.
- `refresh` never looks up the presented token in the refresh-token table (only `RefreshIntended` does), and it has no 404 for a user that no longer exists.
- `logout` deletes the records holding the cookie's token string. It does not delete by user.
- `getMessages` returns the whole history of a room, with no limit.

## Findings

| source | as written | input that shows it | evidently intended | confidence | as-written member | corrected member |
|---|---|---|---|---|---|---|
| backend/controllers/roomController.js:81-89 | the already-member branch answers but does not return, so the member is pushed again and saved | a member joins the same room again with its invite token | answer "You are already in that room" and leave the members unchanged | high; not executed | Scenarios.JoinTwice | RoomController.JoinRoomIntended |
| backend/controllers/roomController.js:136-142 | the non-creator branch calls `next(error)` without returning, so the room is deleted anyway | a member who did not create the room deletes it | answer 403 and keep the room | high; not executed | Scenarios.NonCreatorDelete | RoomController.DeleteRoomIntended |
| backend/controllers/refreshController.js:8-20 | success depends only on the signature and expiry, not on the token still being stored | register, refresh with the cookie, then refresh again with the same cookie | refuse a token that was rotated away (replay detection) | medium; not executed | Scenarios.RefreshReplay | RefreshController.RefreshIntended |
