/**
 * Password accounts: the checks `POST /api/auth/register` makes before it
 * inserts a user, and `POST /api/auth/login`, which reads the user table and
 * mints a token. Request fields are strings. At registration the empty string
 * stands for a missing or falsy field; at login a missing field is not modelled.
 */
module Accounts {
  import opened Wrappers
  import opened Crypto
  import opened Records

  const MinPasswordLength: nat := 6

  const MissingFields := Reply(400, "Missing required fields.")
  const PasswordTooShort := Reply(400, "Password must be at least 6 characters.")
  const AlreadyInUse := Reply(409, "Username or email already in use.")
  const Registered := Reply(201, "Registration successful! You can now log in.")
  const InvalidCredentials := Reply(401, "Invalid credentials.")

  /** The field checks of the register handler: the 400 reply to send, if any. */
  function CheckRegistration(username: string, email: string, password: string): (err: Option<Reply>)
    ensures err.None? <==> username != "" && email != "" && |password| >= MinPasswordLength
    ensures err.Some? ==> err.value.status == 400
    ensures err == Some(PasswordTooShort) <==>
              username != "" && email != "" && password != "" && |password| < MinPasswordLength
  {
    if username == "" || email == "" || password == "" then Some(MissingFields)
    else if |password| < MinPasswordLength then Some(PasswordTooShort)
    else None
  }

  /** The record a successful registration saves: the pre-save hook has replaced
      the plaintext by its digest, and no Google id is set. */
  function LocalAccount(username: string, email: string, password: string): (u: User)
    ensures u.username == username && u.email == email && u.googleId.None?
    ensures u.password.Some? && Compare(password, u.password.value)
  {
    User(username, email, Some(Hash(password)), None)
  }

  /** Registering a fresh username and email keeps the unique indexes and the
      rule that every account has a way to sign in. */
  lemma RegisterPreservesWellFormed(users: seq<User>, username: string, email: string, password: string)
    requires WellFormed(users)
    requires !HasConflict(users, username, email)
    ensures WellFormed(users + [LocalAccount(username, email, password)])
  {
  }

  datatype LoginReply = LoggedIn(token: Token, username: string) | LoginRejected(reply: Reply)

  /** The login handler: find the user by email; reject when there is none, when it
      has no password (a Google-only account) or when the password does not match;
      otherwise sign `{ userId, username }` for one hour. */
  function Login(users: seq<User>, email: string, password: string, key: string, now: int): (r: LoginReply)
    ensures r.LoginRejected? ==> r.reply == InvalidCredentials
    ensures r.LoggedIn? ==>
      && r.token.claims.userId < |users|
      && users[r.token.claims.userId].email == email
      && r.token.claims.username == users[r.token.claims.userId].username == r.username
      && r.token.key == key
      && r.token.expiresAt == now + ExpiresIn
  {
    match IndexOfEmail(users, email)
    case None => LoginRejected(InvalidCredentials)
    case Some(i) =>
      if users[i].password.None? then LoginRejected(InvalidCredentials)
      else if !Compare(password, users[i].password.value) then LoginRejected(InvalidCredentials)
      else LoggedIn(Sign(Claims(i, users[i].username), key, now), users[i].username)
  }

  /** Login succeeds exactly when some account has this email and a digest that this
      password matches (every failure being the same 401, as `Login` states). */
  lemma LoginSucceedsIff(users: seq<User>, email: string, password: string, key: string, now: int)
    requires WellFormed(users)
    ensures Login(users, email, password, key, now).LoggedIn? <==>
              exists i | 0 <= i < |users| ::
                users[i].email == email && users[i].password.Some? && Compare(password, users[i].password.value)
  {
  }

  /** An account made by Google sign-in alone, with no password, cannot log in with any password. */
  lemma GoogleOnlyAccountCannotLogIn(users: seq<User>, i: nat, password: string, key: string, now: int)
    requires WellFormed(users)
    requires i < |users| && users[i].password.None?
    ensures Login(users, users[i].email, password, key, now) == LoginRejected(InvalidCredentials)
  {
  }

  /** Right after a successful registration the new account logs in with the same
      email and password, and the token names the new user. */
  lemma {:induction false} RegisteredUserCanLogIn(users: seq<User>, username: string, email: string, password: string, key: string, now: int)
    requires !HasConflict(users, username, email)
    ensures Login(users + [LocalAccount(username, email, password)], email, password, key, now)
            == LoggedIn(Sign(Claims(|users|, username), key, now), username)
  {
    var table := users + [LocalAccount(username, email, password)];
    var r := IndexOfEmail(table, email);
    assert table[|users|].email == email;
    assert r.Some?;
  }
}
