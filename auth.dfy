/**
 * The user store of the authentication service: registration, login,
 * password change and the two user lookups over the `users` table.
 */
module Auth {
  import opened Results
  import opened Models
  import opened Paging
  import opened AuthSchemas

  /**
   * Password hashing, password verification and token issuing. Their
   * implementations (bcrypt, JWT signing with an expiry) are not part of this
   * model; they are given as functions.
   */
  datatype Crypto = Crypto(hash: string -> string, verify: (string, string) -> bool, token: string -> string)

  /** What bcrypt promises and the model only assumes where stated: a password verifies against its own hash. */
  ghost predicate Sound(c: Crypto) {
    forall p :: c.verify(p, c.hash(p))
  }

  /** Why a request is refused: 400 for all but `BadCredentials` at login (401) and `UserNotFound` (404). */
  datatype AuthError = UsernameTaken | EmailTaken | BadCredentials | NewPasswordTooShort | UserNotFound

  /** There is a user called `username` and `password` verifies against its hash. */
  predicate Authenticates(users: seq<User>, crypto: Crypto, username: string, password: string) {
    match FindByUsername(users, username)
    case None => false
    case Some(i) => crypto.verify(password, users[i].hashedPassword)
  }

  /** Under unique usernames, authenticating means the one user of that name accepts the password. */
  lemma AuthenticatesMeans(users: seq<User>, crypto: Crypto, username: string, password: string)
    requires UniqueUsernames(users)
    ensures Authenticates(users, crypto, username, password) <==>
      exists i :: 0 <= i < |users| && users[i].username == username
                  && crypto.verify(password, users[i].hashedPassword)
  {
    if i :| 0 <= i < |users| && users[i].username == username && crypto.verify(password, users[i].hashedPassword) {
      FindByUsernameUnique(users, i);
    }
  }

  /** `login`: a bearer token for the user, or 401 for an unknown name or a wrong password. */
  function Login(users: seq<User>, crypto: Crypto, req: UserLogin): (r: Result<Token, AuthError>)
    ensures r.Ok? <==> Authenticates(users, crypto, req.username, req.password)
    ensures r.Ok? ==> r.value == Token(crypto.token(req.username), BearerTokenType)
    ensures r.Err? ==> r.error == BadCredentials
  {
    match FindByUsername(users, req.username)
    case None => Err(BadCredentials)
    case Some(i) =>
      if !crypto.verify(req.password, users[i].hashedPassword) then Err(BadCredentials)
      else Ok(Token(crypto.token(users[i].username), BearerTokenType))
  }

  /** `get_user`: the user with that id, or 404. */
  function GetUser(users: seq<User>, id: int): (r: Result<UserResponse, AuthError>)
    ensures r.Ok? <==> HasUser(users, id)
    ensures r.Ok? ==> exists i :: 0 <= i < |users| && users[i].id == id && r.value == ToUserResponse(users[i])
    ensures r.Err? ==> r.error == UserNotFound
  {
    match FindById(users, id)
    case None => Err(UserNotFound)
    case Some(i) => Ok(ToUserResponse(users[i]))
  }

  /** `get_all_users`: at most `limit` users from position `skip`, in table order. */
  function GetAllUsers(users: seq<User>, skip: nat, limit: nat): (r: seq<UserResponse>)
    ensures |r| <= limit
    ensures skip < |users| ==> |r| == (if |users| - skip < limit then |users| - skip else limit)
    ensures forall k :: 0 <= k < |r| ==> skip + k < |users| && r[k] == ToUserResponse(users[skip + k])
  {
    var page := Page(users, skip, limit);
    seq(|page|, k requires 0 <= k < |page| => ToUserResponse(page[k]))
  }

  /** Inserting a user whose username and email are new and whose id is above every other keeps the table's constraints. */
  lemma InsertKeepsConstraints(users: seq<User>, u: User)
    requires UserTable(users)
    requires forall i :: 0 <= i < |users| ==> users[i].id < u.id
    requires FindByUsername(users, u.username).None? && FindByEmail(users, u.email).None?
    ensures UserTable(users + [u])
  {
  }

  /** A user registered with `password` can log in with it, provided bcrypt behaves. */
  lemma LoginAfterRegister(users: seq<User>, crypto: Crypto, u: User, password: string)
    requires Sound(crypto) && UniqueUsernames(users)
    requires FindByUsername(users, u.username).None? && u.hashedPassword == crypto.hash(password)
    ensures Login(users + [u], crypto, UserLogin(u.username, password)) == Ok(Token(crypto.token(u.username), BearerTokenType))
  {
    var users' := users + [u];
    assert users'[|users|] == u;
    assert UniqueUsernames(users');
    FindByUsernameUnique(users', |users|);
  }

  /** After a password change the user logs in with the new password, provided bcrypt behaves. */
  lemma LoginAfterPasswordChange(users: seq<User>, crypto: Crypto, i: nat, newPassword: string)
    requires Sound(crypto) && UniqueUsernames(users) && i < |users|
    ensures var users' := users[i := users[i].(hashedPassword := crypto.hash(newPassword))];
            Login(users', crypto, UserLogin(users[i].username, newPassword)) == Ok(Token(crypto.token(users[i].username), BearerTokenType))
  {
    var users' := users[i := users[i].(hashedPassword := crypto.hash(newPassword))];
    assert UniqueUsernames(users');
    FindByUsernameUnique(users', i);
  }

  /** Changing one user's password does not change whether anybody else can log in. */
  lemma PasswordChangeLeavesOthersLogin(users: seq<User>, crypto: Crypto, i: nat, hash: string, req: UserLogin)
    requires UniqueUsernames(users) && i < |users| && req.username != users[i].username
    ensures Login(users[i := users[i].(hashedPassword := hash)], crypto, req) == Login(users, crypto, req)
  {
    var users' := users[i := users[i].(hashedPassword := hash)];
    match FindByUsername(users, req.username)
    case None =>
      assert FindByUsername(users', req.username).None?;
    case Some(j) =>
      assert UniqueUsernames(users');
      FindByUsernameUnique(users, j);
      FindByUsernameUnique(users', j);
  }

  /** The `users` table as the authentication service sees it. */
  class UserStore {
    var users: seq<User>
    /** The id the database assigns to the next inserted user. */
    var nextId: int

    ghost predicate Valid()
      reads this
    {
      UserTable(users) && forall i :: 0 <= i < |users| ==> users[i].id < nextId
    }

    constructor ()
      ensures Valid() && users == [] && nextId == 1
    {
      users := [];
      nextId := 1;
    }

    /**
     * `register`: refuses a taken username, then a taken email; otherwise
     * appends one user with the password's hash and a balance of 1000.
     */
    method Register(crypto: Crypto, req: UserCreate) returns (r: Result<UserResponse, AuthError>)
      requires Valid()
      modifies this
      ensures Valid()
      ensures FindByUsername(old(users), req.username).Some? ==> r == Err(UsernameTaken)
      ensures (&& FindByUsername(old(users), req.username).None?
               && FindByEmail(old(users), req.email).Some?) ==> r == Err(EmailTaken)
      ensures r.Err? ==> users == old(users) && nextId == old(nextId)
      ensures (&& FindByUsername(old(users), req.username).None?
               && FindByEmail(old(users), req.email).None?) ==>
                var u := User(old(nextId), req.username, crypto.hash(req.password), req.email, DefaultBalance);
                && users == old(users) + [u]
                && r == Ok(ToUserResponse(u))
                && nextId == old(nextId) + 1
    {
      if FindByUsername(users, req.username).Some? {
        return Err(UsernameTaken);
      }
      if FindByEmail(users, req.email).Some? {
        return Err(EmailTaken);
      }
      var hashed := crypto.hash(req.password);
      var u := NewUser(nextId, req.username, hashed, req.email, Some(1000.0));
      InsertKeepsConstraints(users, u);
      users := users + [u];
      nextId := nextId + 1;
      r := Ok(ToUserResponse(u));
    }

    /**
     * `change_password`: refuses an unknown user or a wrong old password, then
     * a new password shorter than 8; otherwise replaces that user's hash only.
     */
    method ChangePassword(crypto: Crypto, req: PasswordChange) returns (r: Result<UserResponse, AuthError>)
      requires Valid()
      modifies this
      ensures Valid() && nextId == old(nextId)
      ensures !Authenticates(old(users), crypto, req.username, req.oldPassword) ==> r == Err(BadCredentials)
      ensures (&& Authenticates(old(users), crypto, req.username, req.oldPassword)
               && |req.newPassword| < MinPasswordLength) ==> r == Err(NewPasswordTooShort)
      ensures r.Err? ==> users == old(users)
      ensures (&& Authenticates(old(users), crypto, req.username, req.oldPassword)
               && |req.newPassword| >= MinPasswordLength) ==>
                var i := FindByUsername(old(users), req.username).value;
                && users == old(users)[i := old(users)[i].(hashedPassword := crypto.hash(req.newPassword))]
                && r == Ok(ToUserResponse(old(users)[i]))
    {
      var found := FindByUsername(users, req.username);
      if found.None? || !crypto.verify(req.oldPassword, users[found.value].hashedPassword) {
        return Err(BadCredentials);
      }
      if |req.newPassword| < MinPasswordLength {
        return Err(NewPasswordTooShort);
      }
      var i := found.value;
      users := users[i := users[i].(hashedPassword := crypto.hash(req.newPassword))];
      r := Ok(ToUserResponse(users[i]));
    }
  }

  /**
   * A password-change body goes through schema validation and then the
   * handler. Every body the schema admits has a new password of at least 8
   * characters, so the handler's own length check never refuses it.
   */
  method ChangePasswordRequest(store: UserStore, crypto: Crypto, username: string, oldPassword: string, newPassword: string)
    returns (r: Result<Result<UserResponse, AuthError>, ValidationError>)
    requires store.Valid()
    modifies store
    ensures store.Valid() && store.nextId == old(store.nextId)
    ensures r.Err? <==> |newPassword| < MinPasswordLength
    ensures r.Err? ==> r.error == StringTooShort("new_password") && store.users == old(store.users)
    ensures r != Ok(Err(NewPasswordTooShort))
    ensures (&& r.Ok?
             && !Authenticates(old(store.users), crypto, username, oldPassword)) ==>
              r.value == Err(BadCredentials) && store.users == old(store.users)
    ensures (&& r.Ok?
             && Authenticates(old(store.users), crypto, username, oldPassword)) ==>
              var i := FindByUsername(old(store.users), username).value;
              && store.users == old(store.users)[i := old(store.users)[i].(hashedPassword := crypto.hash(newPassword))]
              && r.value == Ok(ToUserResponse(old(store.users)[i]))
  {
    var body := ParsePasswordChange(username, oldPassword, newPassword);
    if body.Err? {
      return Err(body.error);
    }
    var handled := store.ChangePassword(crypto, body.value);
    r := Ok(handled);
  }

  /** Registering, logging in, then registering the same name again. */
  method RegistrationScenario(crypto: Crypto) returns (first: Result<UserResponse, AuthError>, login: Result<Token, AuthError>, again: Result<UserResponse, AuthError>)
    requires Sound(crypto)
    ensures first == Ok(UserResponse(1, "alice", "alice@example.com", DefaultBalance))
    ensures login == Ok(Token(crypto.token("alice"), BearerTokenType))
    ensures again == Err(UsernameTaken)
  {
    var store := new UserStore();
    first := store.Register(crypto, UserCreate("alice", "alice@example.com", "correct horse"));
    LoginAfterRegister([], crypto, store.users[0], "correct horse");
    login := Login(store.users, crypto, UserLogin("alice", "correct horse"));
    again := store.Register(crypto, UserCreate("alice", "other@example.com", "another one"));
  }
}
