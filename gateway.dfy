/**
 * `authenticateToken`, the middleware in front of protected routes. The token is
 * the second space-separated field of the `Authorization` header; when there is
 * one, verifying it decides alone. Only without one is the session consulted.
 * The session is the id passport stored at sign-in; it authenticates when
 * deserialising finds that user.
 */
module Gateway {
  import opened Wrappers
  import opened Text
  import opened Crypto
  import opened Records
  import opened Accounts

  const InvalidToken := Reply(403, "Invalid or expired token.")
  const AuthRequired := Reply(401, "Authentication token or session required.")

  /** The caller identity the route handler sees (`req.user`), or the reply sent instead. */
  datatype AuthOutcome = Authenticated(caller: Claims) | Rejected(reply: Reply)

  /** `authHeader && authHeader.split(' ')[1]`, kept only when truthy: a missing header,
      a header with one field, or an empty second field gives no token. */
  function BearerToken(header: Option<string>): (token: Option<string>)
    ensures token.Some? ==> token.value != "" && ' ' !in token.value
  {
    match header
    case None => None
    case Some(h) =>
      var parts := Split(h, ' ');
      if |parts| < 2 || parts[1] == "" then None else Some(parts[1])
  }

  /** The second field is taken whatever the first one says, and it ends at the next
      space, if any. */
  lemma BearerTokenOfHeader(scheme: string, token: string, tail: string)
    requires ' ' !in scheme && ' ' !in token && token != ""
    requires tail == "" || tail[0] == ' '
    ensures BearerToken(Some(scheme + " " + token + tail)) == Some(token)
  {
    assert scheme + " " + token + tail == scheme + [' '] + (token + tail);
    SplitAtFirstSeparator(scheme, token + tail, ' ');
    if tail == "" {
      assert token + tail == token;
      SplitWithoutSeparator(token, ' ');
    } else {
      assert token + tail == token + [' '] + tail[1..];
      SplitAtFirstSeparator(token, tail[1..], ' ');
    }
  }

  /** `Authorization: Bearer` (no second field) and `Authorization: Bearer ` (an empty
      one) give no token, so the request goes on to the session check. */
  lemma BareSchemeGivesNoToken(scheme: string)
    requires ' ' !in scheme
    ensures BearerToken(Some(scheme)) == None
    ensures BearerToken(Some(scheme + " ")) == None
  {
    SplitWithoutSeparator(scheme, ' ');
    SplitJoin([scheme, ""], ' ');
    assert Join([scheme, ""], ' ') == scheme + " ";
  }

  /** The user a session authenticates, if the session names one that exists. */
  function SessionUser(session: Option<nat>, users: seq<User>): (u: Option<nat>)
    ensures u.Some? ==> u.value < |users|
  {
    if session.Some? && session.value < |users| then session else None
  }

  /** `authenticateToken`: bearer token first, then session, then 401. */
  function Authenticate(header: Option<string>, session: Option<nat>, users: seq<User>,
                        decode: string -> Option<Token>, key: string, now: int): (out: AuthOutcome)
    ensures out.Rejected? ==> out.reply == InvalidToken || out.reply == AuthRequired
    ensures out.Rejected? && out.reply == InvalidToken <==>
              BearerToken(header).Some? && VerifyText(decode, BearerToken(header).value, key, now).None?
    ensures out.Rejected? && out.reply == AuthRequired <==>
              BearerToken(header).None? && SessionUser(session, users).None?
  {
    match BearerToken(header)
    case Some(text) =>
      (match VerifyText(decode, text, key, now)
       case Some(claims) => Authenticated(claims)
       case None => Rejected(InvalidToken))
    case None =>
      match SessionUser(session, users)
      case Some(id) => Authenticated(Claims(id, users[id].username))
      case None => Rejected(AuthRequired)
  }

  /** Once a token is extracted, the session and the user table play no part:
      a bad token is a 403 even for a signed-in session, a good one yields its payload. */
  lemma BearerTokenDecidesAlone(header: Option<string>, session: Option<nat>, session': Option<nat>,
                                users: seq<User>, users': seq<User>,
                                decode: string -> Option<Token>, key: string, now: int)
    requires BearerToken(header).Some?
    ensures Authenticate(header, session, users, decode, key, now) == Authenticate(header, session', users', decode, key, now)
    ensures Authenticate(header, session, users, decode, key, now) ==
              match VerifyText(decode, BearerToken(header).value, key, now)
              case Some(claims) => Authenticated(claims)
              case None => Rejected(InvalidToken)
  {
  }

  /** Without a token, a live session yields the session user's `{ userId, username }`. */
  lemma SessionFallback(header: Option<string>, id: nat, users: seq<User>,
                        decode: string -> Option<Token>, key: string, now: int)
    requires BearerToken(header).None? && id < |users|
    ensures Authenticate(header, Some(id), users, decode, key, now) == Authenticated(Claims(id, users[id].username))
  {
  }

  /** The token a login returns, sent as `Bearer <text>`, lets the same user through
      for the hour after login, whatever the session says. */
  lemma {:induction false} LoginTokenAuthenticates(users: seq<User>, email: string, password: string, key: string,
                                                    issued: int, now: int, text: string,
                                                    decode: string -> Option<Token>, session: Option<nat>)
    requires Login(users, email, password, key, issued).LoggedIn?
    requires decode(text) == Some(Login(users, email, password, key, issued).token)
    requires text != "" && ' ' !in text
    requires now < issued + 3600
    ensures var login := Login(users, email, password, key, issued);
      Authenticate(Some("Bearer " + text), session, users, decode, key, now) == Authenticated(login.token.claims)
      && login.token.claims.username == login.username
  {
    var login := Login(users, email, password, key, issued);
    BearerTokenOfHeader("Bearer", text, "");
    assert "Bearer" + " " + text + "" == "Bearer " + text;
    assert BearerToken(Some("Bearer " + text)) == Some(text);
    assert VerifyText(decode, text, key, now) == Verify(login.token, key, now);
  }

  /** From the hour after issue on, the same token is refused with 403, session or not. */
  lemma {:induction false} ExpiredTokenRejected(users: seq<User>, email: string, password: string, key: string,
                                                issued: int, now: int, text: string,
                                                decode: string -> Option<Token>, session: Option<nat>)
    requires Login(users, email, password, key, issued).LoggedIn?
    requires decode(text) == Some(Login(users, email, password, key, issued).token)
    requires text != "" && ' ' !in text
    requires now >= issued + 3600
    ensures Authenticate(Some("Bearer " + text), session, users, decode, key, now) == Rejected(InvalidToken)
  {
    var login := Login(users, email, password, key, issued);
    BearerTokenOfHeader("Bearer", text, "");
    assert "Bearer" + " " + text + "" == "Bearer " + text;
    assert BearerToken(Some("Bearer " + text)) == Some(text);
    assert VerifyText(decode, text, key, now) == Verify(login.token, key, now);
  }
}
