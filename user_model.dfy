/** The user record of `userSchema`: required `email` (unique) and `password`,
    optional profile fields, `isProfileComplete` defaulting to false and
    `createdAt` defaulting to the creation time. */
module UserModel {
  import opened Common
  import opened Collections

  datatype User = User(
    id: Id,
    email: string,
    password: string,
    age: Option<int>,
    username: Option<string>,
    role: Option<string>,
    isProfileComplete: bool,
    createdAt: int)

  /** `User.create({ email, password })` at time `now`: the schema defaults fill the rest. */
  function NewUser(id: Id, email: string, password: string, now: int): (u: User)
    ensures u.id == id && u.email == email && u.password == password
    ensures ValidUser(u) <==> email != "" && password != ""
    ensures u.age.None? && u.username.None? && u.role.None?
    ensures !u.isProfileComplete && u.createdAt == now
  {
    User(id, email, password, None, None, None, false, now)
  }

  /** The `required` validators: a required string may be neither absent nor empty. */
  predicate ValidUser(u: User)
  {
    u.email != "" && u.password != ""
  }

  function HasEmail(email: string): User -> bool
  {
    (u: User) => u.email == email
  }

  function HasId(id: Id): User -> bool
  {
    (u: User) => u.id == id
  }

  ghost predicate UniqueIds(users: seq<User>)
  {
    forall i, j :: 0 <= i < j < |users| ==> users[i].id != users[j].id
  }

  /** The `unique` index on `email`. */
  ghost predicate UniqueEmails(users: seq<User>)
  {
    forall i, j :: 0 <= i < j < |users| ==> users[i].email != users[j].email
  }

  /** The users collection as the schema and its indexes keep it. */
  ghost predicate WellFormed(users: seq<User>)
  {
    && (forall i :: 0 <= i < |users| ==> ValidUser(users[i]))
    && UniqueIds(users)
    && UniqueEmails(users)
  }

  /** `User.findOne({ email })`: the user holding `email`, if any. */
  function FindByEmail(users: seq<User>, email: string): (r: Option<User>)
    ensures r.Some? ==> r.value in users && r.value.email == email
    ensures r.None? <==> forall i :: 0 <= i < |users| ==> users[i].email != email
  {
    match FirstIndex(users, HasEmail(email))
    case None => None
    case Some(i) => Some(users[i])
  }

  /** Adding a valid user with a fresh id and an email not yet taken keeps the collection well formed. */
  lemma AppendKeepsWellFormed(users: seq<User>, u: User)
    requires WellFormed(users) && ValidUser(u)
    requires forall i :: 0 <= i < |users| ==> users[i].id != u.id && users[i].email != u.email
    ensures WellFormed(users + [u])
  {
  }

  /** Replacing a user by a valid record with the same id and email keeps the collection well formed. */
  lemma ReplaceKeepsWellFormed(users: seq<User>, i: nat, u: User)
    requires WellFormed(users) && i < |users| && ValidUser(u)
    requires u.id == users[i].id && u.email == users[i].email
    ensures WellFormed(users[i := u])
  {
  }
}
