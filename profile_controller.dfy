/** `createProfile`: validate the three profile fields, then update the
    caller's user record in place and answer with its public view. */
module ProfileController {
  import opened Common
  import opened Collections
  import opened UserModel
  import opened Db
  import ErrorHandler

  /** The `user` object of the response: no id and no password. */
  datatype ProfileView = ProfileView(
    email: string,
    username: Option<string>,
    age: Option<int>,
    role: Option<string>,
    isProfileComplete: bool)

  datatype ProfileReply = ProfileReply(message: string, user: ProfileView)

  /** `!age` is false for a present non-zero age. */
  predicate AgeGiven(age: Option<int>)
  {
    age.Some? && age.value != 0
  }

  /** The guard: every one of username, role and age is truthy. */
  predicate FieldsGiven(username: Option<string>, age: Option<int>, role: Option<string>)
  {
    Truthy(username) && Truthy(role) && AgeGiven(age)
  }

  /** The `findByIdAndUpdate` update document. */
  function SetProfile(u: User, username: string, age: int, role: string): (r: User)
    ensures r.id == u.id && r.email == u.email && r.password == u.password && r.createdAt == u.createdAt
    ensures r.username == Some(username) && r.age == Some(age) && r.role == Some(role)
    ensures r.isProfileComplete
  {
    u.(username := Some(username), age := Some(age), role := Some(role), isProfileComplete := true)
  }

  function View(u: User): ProfileView
  {
    ProfileView(u.email, u.username, u.age, u.role, u.isProfileComplete)
  }

  /** What reading `.email` of the `null` returned for an unknown id throws. */
  const NullUserError: Error := Error(None, "Cannot read properties of null (reading 'email')")

  method CreateProfile(db: Store, user: Id, username: Option<string>, age: Option<int>, role: Option<string>)
    returns (r: Response<ProfileReply>)
    requires db.Valid()
    modifies db
    ensures db.Valid()
    ensures db.tokens == old(db.tokens) && db.signed == old(db.signed) && db.rooms == old(db.rooms)
    ensures db.messages == old(db.messages) && db.nextId == old(db.nextId)
    ensures !FieldsGiven(username, age, role) ==> r == Fail(400, "Fill in all fields") && unchanged(db)
    ensures FieldsGiven(username, age, role) && FirstIndex(old(db.users), HasId(user)).None? ==>
              r == Err(NullUserError) && unchanged(db)
    ensures FieldsGiven(username, age, role) && FirstIndex(old(db.users), HasId(user)).Some? ==>
              var i := FirstIndex(old(db.users), HasId(user)).value;
              var updated := SetProfile(old(db.users)[i], username.value, age.value, role.value);
              && db.users == old(db.users)[i := updated]
              && r == Ok(200, ProfileReply("User information updated successfully", View(updated)))
  {
    if !FieldsGiven(username, age, role) {
      return Fail(400, "Fill in all fields");
    }
    var found := FirstIndex(db.users, HasId(user));
    if found.None? {
      return Err(NullUserError);
    }
    var i := found.value;
    var updated := SetProfile(db.users[i], username.value, age.value, role.value);
    ReplaceKeepsWellFormed(db.users, i, updated);
    db.users := db.users[i := updated];
    r := Ok(200, ProfileReply("User information updated successfully", View(updated)));
  }

  /** Setting the same profile twice leaves the record as setting it once. */
  lemma SetProfileIdempotent(u: User, username: string, age: int, role: string)
    ensures SetProfile(SetProfile(u, username, age, role), username, age, role) == SetProfile(u, username, age, role)
  {
  }

  /** The view shows exactly the stored email and the fields just set, and the completed flag. */
  lemma ViewOfUpdated(u: User, username: string, age: int, role: string)
    ensures View(SetProfile(u, username, age, role)) ==
            ProfileView(u.email, Some(username), Some(age), Some(role), true)
  {
  }

  /** An unknown user id ends as a 500 carrying the runtime's message. */
  lemma NullUserBecomes500()
    ensures ErrorHandler.Handle(NullUserError, false) ==
            ErrorHandler.Responded(500, Notice(NullUserError.message))
  {
  }
}
