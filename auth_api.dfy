/**
 * The authentication endpoints: login with a username and a password, and
 * self-service signup, which the system configuration can switch off. Password
 * hashing, password verification and token issuing are library calls and are
 * parameters here.
 */
module AuthApi {
  import opened Wrappers
  import opened SubmissionModel
  import opened UserModel
  import opened Store
  import opened Http

  const BadCredentialsDetail: string := "Incorrect username or password"
  const SignupDisabledDetail: string := "User registration is currently disabled"
  const UsernameTakenDetail: string := "Username already registered"
  const EmailTakenDetail: string := "Email already registered"

  /** The response body of both endpoints. */
  datatype Token = Token(accessToken: string, tokenType: string)

  function BearerToken(issue: Id -> string, userId: Id): Token {
    Token(issue(userId), "bearer")
  }

  // ---------------------------------------------------------------- login

  /** The two unique fields a user is looked up by. */
  datatype UserKey = ByUsername | ByEmail

  function KeyOf(u: UserRecord, key: UserKey): string {
    match key
    case ByUsername => u.username
    case ByEmail => u.email
  }

  /** `find_one({field: value})`: the first stored user whose field has the value. */
  function UserWhere(users: Table<UserRecord>, key: UserKey, value: string): (r: Option<Id>)
    requires users.Wf()
    ensures r.Some? ==> r.value in users.rows && KeyOf(users.rows[r.value], key) == value
    ensures r.None? ==> forall id :: id in users.rows ==> KeyOf(users.rows[id], key) != value
  {
    var found := users.FindFirst((u: UserRecord) => KeyOf(u, key) == value);
    assert found.None? ==> forall id :: id in users.rows ==> !((u: UserRecord) => KeyOf(u, key) == value)(users.rows[id]);
    found
  }

  /**
   * `login_access_token`: a 401 when no user has the username or the password
   * does not verify against the stored hash; otherwise a bearer token for the
   * user's id.
   */
  function Login(users: Table<UserRecord>, username: string, password: string,
                 verify: (string, string) -> bool, issue: Id -> string): (r: Result<Token, HttpError>)
    requires users.Wf()
    ensures r.Ok? ==> exists id :: (id in users.rows && users.rows[id].username == username &&
      verify(password, users.rows[id].hashedPassword) && r.value == BearerToken(issue, id))
    ensures r.Err? ==> r.error == HttpError(Unauthorized, BadCredentialsDetail)
    ensures (forall id :: id in users.rows ==> users.rows[id].username != username) ==> r.Err?
  {
    var found := UserWhere(users, ByUsername, username);
    if found.None? || !verify(password, users.rows[found.value].hashedPassword) then
      Err(HttpError(Unauthorized, BadCredentialsDetail))
    else
      Ok(BearerToken(issue, found.value))
  }

  /** With unique usernames, login succeeds exactly when that user's password verifies. */
  lemma {:induction false} LoginExactly(users: Table<UserRecord>, username: string, password: string,
                     verify: (string, string) -> bool, issue: Id -> string, id: Id)
    requires users.Wf() && AccountsUnique(users)
    requires id in users.rows && users.rows[id].username == username
    ensures Login(users, username, password, verify, issue) ==
      if verify(password, users.rows[id].hashedPassword) then Ok(BearerToken(issue, id))
      else Err(HttpError(Unauthorized, BadCredentialsDetail))
  {
    var found := UserWhere(users, ByUsername, username);
    assert found.Some?;
    assert found.value == id;
  }

  // ---------------------------------------------------------------- signup

  /** The body of a signup request, with the schema's defaults already applied. */
  datatype UserCreate = UserCreate(
    username: string,
    email: string,
    fullName: Option<string>,
    role: Option<UserRole>,
    isActive: Option<bool>,
    password: string)

  /** The signup defaults of the request schema: role `user`, active, no full name. */
  function UserCreateWithDefaults(username: string, email: string, password: string): (u: UserCreate)
    ensures u.role == Some(User) && u.isActive == Some(true) && u.fullName.None?
  {
    UserCreate(username, email, None, Some(User), Some(true), password)
  }

  /**
   * The stored user: the request's fields without the password, its hash,
   * one timestamp for both creation and update, and no solved problems. The
   * role is whatever the request carried.
   */
  function NewAccount(input: UserCreate, hashed: string, now: Time): (u: UserRecord)
    ensures u.username == input.username && u.email == input.email && u.hashedPassword == hashed
    ensures u.role == input.role && u.fullName == input.fullName && u.isActive == input.isActive
    ensures u.createdAt == now && u.updatedAt == now && u.solvedProblems == []
  {
    UserRecord(input.username, input.email, hashed, input.role, input.fullName, now, now, input.isActive, [])
  }

  /**
   * `create_user_signup`: 403 when signup is closed, then 400 for a taken
   * username, then 400 for a taken email; otherwise the account is inserted
   * and a bearer token for its new id comes back. Usernames and emails stay
   * unique.
   */
  method Signup(db: Database, input: UserCreate, newId: Id, now: Time, hash: string -> string, issue: Id -> string)
    returns (r: Result<Token, HttpError>)
    requires db.Valid() && newId !in db.users.rows
    modifies db
    ensures db.Valid()
    ensures db.submissions == old(db.submissions) && db.problems == old(db.problems) && db.config == old(db.config)
    ensures SignupClosed(old(db.config)) ==>
      r == Err(HttpError(Forbidden, SignupDisabledDetail)) && db.users == old(db.users)
    ensures !SignupClosed(old(db.config)) && (exists id :: id in old(db.users.rows) && old(db.users.rows[id]).username == input.username) ==>
      r == Err(HttpError(BadRequest, UsernameTakenDetail)) && db.users == old(db.users)
    ensures !SignupClosed(old(db.config)) && (forall id :: id in old(db.users.rows) ==> old(db.users.rows[id]).username != input.username) &&
            (exists id :: id in old(db.users.rows) && old(db.users.rows[id]).email == input.email) ==>
      r == Err(HttpError(BadRequest, EmailTakenDetail)) && db.users == old(db.users)
    ensures r.Ok? ==>
      && !SignupClosed(old(db.config))
      && r.value == BearerToken(issue, newId)
      && db.users == old(db.users).Insert(newId, NewAccount(input, hash(input.password), now))
    ensures r.Ok? || db.users == old(db.users)
  {
    if SignupClosed(db.config) {
      return Err(HttpError(Forbidden, SignupDisabledDetail));
    }
    var byName := UserWhere(db.users, ByUsername, input.username);
    if byName.Some? {
      return Err(HttpError(BadRequest, UsernameTakenDetail));
    }
    var byEmail := UserWhere(db.users, ByEmail, input.email);
    if byEmail.Some? {
      return Err(HttpError(BadRequest, EmailTakenDetail));
    }
    var account := NewAccount(input, hash(input.password), now);
    db.users := db.users.Insert(newId, account);
    r := Ok(BearerToken(issue, newId));
  }

  /**
   * A fresh account can log straight in: with its own password (when the
   * verifier accepts a password against its own hash) the login yields the
   * same token the signup returned.
   */
  lemma {:induction false} LoginAfterSignup(users: Table<UserRecord>, input: UserCreate, newId: Id, now: Time,
                         hash: string -> string, verify: (string, string) -> bool, issue: Id -> string)
    requires users.Wf() && AccountsUnique(users) && newId !in users.rows
    requires forall id :: id in users.rows ==> users.rows[id].username != input.username
    requires verify(input.password, hash(input.password))
    ensures var after := users.Insert(newId, NewAccount(input, hash(input.password), now));
      Login(after, input.username, input.password, verify, issue) == Ok(BearerToken(issue, newId))
  {
    var after := users.Insert(newId, NewAccount(input, hash(input.password), now));
    assert after.rows[newId].username == input.username;
    var found := UserWhere(after, ByUsername, input.username);
    assert found.Some?;
    assert found.value == newId;
  }

  /**
   * Nothing in the signup path restricts the role: a request that asks for
   * `admin` creates an administrator.
   */
  lemma {:induction false} SignupCanCreateAdmin(input: UserCreate, hashed: string, now: Time)
    requires input.role == Some(Admin)
    ensures IsAdmin(NewAccount(input, hashed, now))
  {
  }
}
