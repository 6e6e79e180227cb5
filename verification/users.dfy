/** User accounts: registration, login, password change, the generic
    `updateUser` merge and the raw balance adjustment (DataService.js). */
module Users {
  import opened Wrappers
  import opened Model

  /** The fields a `{ ...user, ...patch }` spread may overwrite; `None` marks a
      key the patch does not carry. */
  datatype UserPatch = UserPatch(
    id: Option<Id>,
    username: Option<string>,
    password: Option<string>,
    fullName: Option<string>,
    email: Option<string>,
    isAdmin: Option<bool>,
    balance: Option<Cents>,
    createdAt: Option<string>)

  /** A patch carrying every field of `u`, as when a whole user object is
      spread over the stored one. */
  function WholeUser(u: User): UserPatch {
    UserPatch(Some(u.id), Some(u.username), Some(u.password), Some(u.fullName),
              Some(u.email), Some(u.isAdmin), Some(u.balance), Some(u.createdAt))
  }

  function MergeUser(u: User, p: UserPatch): User {
    User(p.id.GetOr(u.id), p.username.GetOr(u.username), p.password.GetOr(u.password),
         p.fullName.GetOr(u.fullName), p.email.GetOr(u.email), p.isAdmin.GetOr(u.isAdmin),
         p.balance.GetOr(u.balance), p.createdAt.GetOr(u.createdAt))
  }

  /** Nothing but the user list differs between the two stores. */
  predicate SameExceptUsers(s: Store, t: Store) {
    s.categories == t.categories && s.products == t.products
    && s.transactions == t.transactions && s.carts == t.carts
  }

  /** The user lists agree everywhere except at index `i`. */
  predicate UsersAgreeExcept(s: Store, t: Store, i: nat) {
    |s.users| == |t.users| && i < |s.users|
    && forall j :: 0 <= j < |s.users| && j != i ==> s.users[j] == t.users[j]
  }

  /** After a write that keeps every user but the one at the first index of
      `userId` and keeps that user's id, `getUserById` finds the written
      user. */
  lemma ReadBackUser(s: Store, t: Store, userId: Id, i: nat)
    requires UserIndex(s.users, userId) == Some(i)
    requires UsersAgreeExcept(s, t, i) && t.users[i].id == userId
    ensures FindUser(t, userId) == Some(t.users[i])
  {
    assert s.users[i].id == userId;
    assert forall j :: 0 <= j < i ==> t.users[j].id != userId;
  }

  /** `updateUser`: spreads the patch over the first user with that id and
      returns the merged user, or `null` with nothing written. */
  function UpdateUser(s: Store, userId: Id, patch: UserPatch): (r: Step<Option<User>>)
    ensures r.out.None? <==> FindUser(s, userId).None?
    ensures r.out.None? ==> r.store == s
    ensures r.out.Some? ==>
      && SameExceptUsers(s, r.store)
      && var i := UserIndex(s.users, userId).value;
         UsersAgreeExcept(s, r.store, i)
         && r.store.users[i] == r.out.value == MergeUser(s.users[i], patch)
  {
    match UserIndex(s.users, userId)
    case None => Step(s, None)
    case Some(i) =>
      var merged := MergeUser(s.users[i], patch);
      Step(s.(users := s.users[i := merged]), Some(merged))
  }

  /** `updateUserBalance`: adds a signed amount to the first user with that
      id; an unknown id changes nothing. */
  function UpdateUserBalance(s: Store, userId: Id, amount: Cents): (r: Step<Option<User>>)
    ensures r.out.None? <==> FindUser(s, userId).None?
    ensures r.out.None? ==> r.store == s
    ensures r.out.Some? ==>
      && SameExceptUsers(s, r.store)
      && var i := UserIndex(s.users, userId).value;
         UsersAgreeExcept(s, r.store, i)
         && r.store.users[i] == r.out.value
         && r.out.value == s.users[i].(balance := s.users[i].balance + amount)
  {
    match UserIndex(s.users, userId)
    case None => Step(s, None)
    case Some(i) =>
      var u := s.users[i].(balance := s.users[i].balance + amount);
      Step(s.(users := s.users[i := u]), Some(u))
  }

  /** The form data `registerUser` reads. */
  datatype Registration = Registration(
    username: string,
    password: string,
    fullName: string,
    email: string,
    isAdmin: bool)

  /** Every new account starts with $500. */
  const StartingBalance: Cents := 50000

  predicate UsernameTaken(users: seq<User>, username: string) {
    exists i :: 0 <= i < |users| && users[i].username == username
  }

  /** No two users share a username. */
  predicate UniqueUsernames(users: seq<User>) {
    forall i, j :: 0 <= i < j < |users| ==> users[i].username != users[j].username
  }

  /** `registerUser`: refuses a taken username; otherwise appends one user with
      the fresh id and timestamp and the starting balance. */
  function RegisterUser(s: Store, data: Registration, freshId: Id, now: string): (r: Step<Result<User>>)
    ensures UsernameTaken(s.users, data.username) <==> r.out.Err?
    ensures r.out.Err? ==> r.store == s && r.out.message == "Username already exists"
    ensures r.out.Ok? ==>
      && SameExceptUsers(s, r.store)
      && r.store.users == s.users + [r.out.value]
      && r.out.value.username == data.username && r.out.value.password == data.password
      && r.out.value.balance == StartingBalance && r.out.value.id == freshId
      && r.out.value.fullName == data.fullName && r.out.value.email == data.email
      && r.out.value.isAdmin == data.isAdmin && r.out.value.createdAt == now
  {
    if UsernameTaken(s.users, data.username) then
      Step(s, Err("Username already exists"))
    else
      var u := User(freshId, data.username, data.password, data.fullName, data.email,
                    data.isAdmin, StartingBalance, now);
      Step(s.(users := s.users + [u]), Ok(u))
  }

  /** Registration keeps usernames unique. */
  lemma RegisterKeepsUsernamesUnique(s: Store, data: Registration, freshId: Id, now: string)
    requires UniqueUsernames(s.users)
    ensures UniqueUsernames(RegisterUser(s, data, freshId, now).store.users)
  {
  }

  /** `authenticateUser`: the first user whose username and password both
      match verbatim. */
  function AuthenticateUser(s: Store, username: string, password: string): (r: Option<User>)
    ensures r.Some? <==>
      exists i :: 0 <= i < |s.users| && s.users[i].username == username && s.users[i].password == password
    ensures r.Some? ==> r.value in s.users && r.value.username == username && r.value.password == password
    ensures r.Some? ==> exists i :: 0 <= i < |s.users| && s.users[i] == r.value
                                    && forall j :: 0 <= j < i ==> !(s.users[j].username == username && s.users[j].password == password)
  {
    match FirstWhere(s.users, (u: User) => u.username == username && u.password == password)
    case None => None
    case Some(i) => Some(s.users[i])
  }

  /** A freshly registered user can log in with the credentials given, and the
      login yields exactly the new account. */
  lemma RegisterThenAuthenticate(s: Store, data: Registration, freshId: Id, now: string)
    requires RegisterUser(s, data, freshId, now).out.Ok?
    ensures AuthenticateUser(RegisterUser(s, data, freshId, now).store, data.username, data.password)
         == Some(RegisterUser(s, data, freshId, now).out.value)
  {
    var r := RegisterUser(s, data, freshId, now);
    var users := r.store.users;
    assert users[|s.users|] == r.out.value;
    assert !UsernameTaken(s.users, data.username);
    assert forall j :: 0 <= j < |s.users| ==> users[j] == s.users[j];
  }

  /** `updateUserPassword`: replaces the password of the first user with that
      id, but only when the current password matches verbatim; reports whether
      it did. */
  function UpdateUserPassword(s: Store, userId: Id, currentPassword: string, newPassword: string): (r: Step<bool>)
    ensures !r.out ==> r.store == s
    ensures r.out <==> FindUser(s, userId).Some? && FindUser(s, userId).value.password == currentPassword
    ensures r.out ==>
      && SameExceptUsers(s, r.store)
      && var i := UserIndex(s.users, userId).value;
         UsersAgreeExcept(s, r.store, i)
         && r.store.users[i] == s.users[i].(password := newPassword)
  {
    match UserIndex(s.users, userId)
    case None => Step(s, false)
    case Some(i) =>
      if s.users[i].password != currentPassword then Step(s, false)
      else Step(s.(users := s.users[i := s.users[i].(password := newPassword)]), true)
  }

  /** After a successful password change the user can log in with the new
      password. */
  lemma PasswordChangeThenAuthenticate(s: Store, userId: Id, currentPassword: string, newPassword: string)
    requires UpdateUserPassword(s, userId, currentPassword, newPassword).out
    ensures AuthenticateUser(UpdateUserPassword(s, userId, currentPassword, newPassword).store,
                             FindUser(s, userId).value.username, newPassword).Some?
  {
    var i := UserIndex(s.users, userId).value;
    var t := UpdateUserPassword(s, userId, currentPassword, newPassword).store;
    assert t.users[i].username == s.users[i].username && t.users[i].password == newPassword;
  }
}
