/**
 * The server's data store and the handlers that change it, run one request at a time:
 * register, the Google sign-in callback, `GET /api/posts/single` and `POST /api/comments`.
 * Each handler changes only the collection it writes, and leaves the store as it was
 * on every error reply.
 */
module Server {
  import opened Wrappers
  import opened Text
  import opened Crypto
  import opened Records
  import opened Accounts
  import opened Linker
  import opened Gateway
  import opened Discussion

  const MissingComment := Reply(400, "Missing postId or comment content.")
  const CommentPosted := Reply(201, "Comment posted successfully.")

  class Store {
    /** The `users` collection; a user's id is its position. */
    var users: seq<User>
    /** The `posts` collection, which only ever holds the one post. */
    var post: Option<Post>
    /** The `comments` collection, in insertion order. */
    var comments: seq<Comment>

    /** The unique indexes of the user schema hold. */
    ghost predicate Valid()
      reads this
    {
      WellFormed(users)
    }

    constructor ()
      ensures Valid()
      ensures users == [] && post == None && comments == []
    {
      users, post, comments := [], None, [];
    }

    /** `POST /api/auth/register`. */
    method Register(username: string, email: string, password: string) returns (reply: Reply)
      requires Valid()
      modifies this`users
      ensures Valid()
      ensures CheckRegistration(username, email, password).Some? ==>
                reply == CheckRegistration(username, email, password).value && users == old(users)
      ensures CheckRegistration(username, email, password).None? && HasConflict(old(users), username, email) ==>
                reply == AlreadyInUse && users == old(users)
      ensures CheckRegistration(username, email, password).None? && !HasConflict(old(users), username, email) ==>
                reply == Registered && users == old(users) + [LocalAccount(username, email, password)]
    {
      var invalid := CheckRegistration(username, email, password);
      if invalid.Some? {
        return invalid.value;
      }
      if HasConflict(users, username, email) {
        return AlreadyInUse;
      }
      RegisterPreservesWellFormed(users, username, email, password);
      users := users + [LocalAccount(username, email, password)];
      reply := Registered;
    }

    /** The GoogleStrategy verify callback, with its re-roll loop for the username. */
    method LinkGoogle(profile: Profile, rolls: seq<nat>) returns (result: LinkResult)
      requires Valid() && CanLink(users, profile, rolls)
      modifies this`users
      ensures Valid()
      ensures (result, users) == Link(old(users), profile, rolls)
    {
      LinkPreservesWellFormed(users, profile, rolls);
      var byGoogleId := IndexOfGoogleId(users, profile.id);
      if byGoogleId.Some? {
        return Linked(byGoogleId.value);
      }
      if |profile.emails| == 0 {
        return LinkFailed;
      }
      var email := profile.emails[0];
      var byEmail := IndexOfEmail(users, email);
      if byEmail.Some? {
        var i := byEmail.value;
        users := users[i := users[i].(googleId := Some(profile.id))];
        return Linked(i);
      }
      var base := BaseUsername(profile.displayName);
      ghost var free := FirstFreeRoll(users, base, rolls, 0);
      var k := 0;
      var username := base + DecimalString(rolls[0]);
      var usernameExists := UsernameTaken(users, username);
      while usernameExists
        invariant 0 <= k <= free
        invariant username == Candidate(base, rolls[k])
        invariant usernameExists == UsernameTaken(users, username)
        decreases free - k
      {
        k := k + 1;
        username := base + DecimalString(rolls[k]);
        usernameExists := UsernameTaken(users, username);
      }
      result := Linked(|users|);
      users := users + [GoogleAccount(username, email, profile.id)];
    }

    /** `GET /api/posts/single`: the stored post, or a new default one that is stored. */
    method FetchSinglePost(newId: nat, now: int) returns (p: Post)
      modifies this`post
      ensures old(post).Some? ==> p == old(post).value && post == old(post)
      ensures old(post).None? ==> p == DefaultPost(newId, now) && post == Some(p)
    {
      if post.Some? {
        return post.value;
      }
      p := DefaultPost(newId, now);
      post := Some(p);
    }

    /** `POST /api/comments`: `authenticateToken` first, then the handler. */
    method PostComment(header: Option<string>, session: Option<nat>,
                       decode: string -> Option<Token>, key: string, now: int,
                       postId: Option<nat>, content: string) returns (reply: Reply)
      modifies this`comments
      ensures match Authenticate(header, session, users, decode, key, now)
        case Rejected(r) => reply == r && comments == old(comments)
        case Authenticated(caller) =>
          if postId.None? || content == "" then
            reply == MissingComment && comments == old(comments)
          else
            reply == CommentPosted &&
            comments == old(comments) + [Comment(postId.value, caller.userId, caller.username, content, now)]
    {
      var auth := Authenticate(header, session, users, decode, key, now);
      if auth.Rejected? {
        return auth.reply;
      }
      if postId.None? || content == "" {
        return MissingComment;
      }
      comments := comments + [Comment(postId.value, auth.caller.userId, auth.caller.username, content, now)];
      reply := CommentPosted;
    }
  }

  /** The walk-through of the site on an empty store: alice registers, logs in,
      fetches the post and comments on it with her token, and finds her comment
      in the listing; registering again is a conflict, and fetching the post again
      returns the same post. `text` is the token's serialised form. */
  method RegisterLoginCommentScenario(key: string, now: int, text: string, postId: nat)
    returns (registered: Reply, again: Reply, login: LoginReply, first: Post, second: Post,
             posted: Reply, listed: seq<CommentView>)
    requires text != "" && ' ' !in text
    ensures registered == Registered && again == AlreadyInUse
    ensures login.LoggedIn? && login.username == "alice"
    ensures first == second == DefaultPost(postId, now)
    ensures posted == CommentPosted
    ensures listed == [CommentView("alice", "Nice thread!", now)]
  {
    var store := new Store();
    registered := store.Register("alice", "alice@x.com", "secret1");
    assert CheckRegistration("alice", "alice@x.com", "secret1").None?;
    assert store.users == [LocalAccount("alice", "alice@x.com", "secret1")];
    assert store.users[0].username == "alice";
    again := store.Register("alice", "alice@x.com", "secret1");
    RegisteredUserCanLogIn([], "alice", "alice@x.com", "secret1", key, now);
    login := Login(store.users, "alice@x.com", "secret1", key, now);
    var token := login.token;
    var decode := (s: string) => if s == text then Some(token) else None;
    first := store.FetchSinglePost(postId, now);
    second := store.FetchSinglePost(postId + 1, now + 1);
    LoginTokenAuthenticates(store.users, "alice@x.com", "secret1", key, now, now, text, decode, None);
    assert Authenticate(Some("Bearer " + text), None, store.users, decode, key, now) == Authenticated(Claims(0, "alice"));
    posted := store.PostComment(Some("Bearer " + text), None, decode, key, now, Some(first.id), "Nice thread!");
    assert store.comments == [Comment(first.id, 0, "alice", "Nice thread!", now)];
    listed := ListComments(store.comments, first.id);
  }
}
