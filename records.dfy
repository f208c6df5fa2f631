/**
 * The documents the server stores (the `User`, `Post` and `Comment` schemas),
 * the replies it sends, and the look-ups it makes with `findOne`.
 * A user's id is its position in the user table: users are never deleted.
 */
module Records {
  import opened Wrappers
  import opened Crypto

  /** A user; `password` holds a digest, and is absent for accounts made by Google sign-in. */
  datatype User = User(username: string, email: string, password: Option<Digest>, googleId: Option<string>)

  datatype Post = Post(id: nat, title: string, content: string, author: string, date: int)

  /** A comment; `username` is a copy of the author's name taken when it was posted. */
  datatype Comment = Comment(postId: nat, userId: nat, username: string, content: string, date: int)

  /** An HTTP status with the `message` (or plain text) of the response. */
  datatype Reply = Reply(status: nat, message: string)

  /** The unique indexes on username, email and (sparse) googleId, and the rule
      that every account can be signed into by a password or by Google. */
  predicate WellFormed(users: seq<User>) {
    && (forall i, j | 0 <= i < j < |users| ::
          && users[i].username != users[j].username
          && users[i].email != users[j].email
          && (users[i].googleId.Some? ==> users[i].googleId != users[j].googleId))
    && (forall i | 0 <= i < |users| :: users[i].password.Some? || users[i].googleId.Some?)
  }

  /** `User.findOne({ email })`: the first user with that email, if any. */
  function IndexOfEmail(users: seq<User>, email: string): (r: Option<nat>)
    ensures r.Some? ==> r.value < |users| && users[r.value].email == email
    ensures r.Some? ==> forall j | 0 <= j < r.value :: users[j].email != email
    ensures r.None? ==> forall j | 0 <= j < |users| :: users[j].email != email
  {
    if users == [] then None
    else if users[0].email == email then Some(0)
    else match IndexOfEmail(users[1..], email)
      case None => None
      case Some(i) => Some(i + 1)
  }

  /** `User.findOne({ googleId })`: the first user linked to that Google id, if any. */
  function IndexOfGoogleId(users: seq<User>, googleId: string): (r: Option<nat>)
    ensures r.Some? ==> r.value < |users| && users[r.value].googleId == Some(googleId)
    ensures r.Some? ==> forall j | 0 <= j < r.value :: users[j].googleId != Some(googleId)
    ensures r.None? ==> forall j | 0 <= j < |users| :: users[j].googleId != Some(googleId)
  {
    if users == [] then None
    else if users[0].googleId == Some(googleId) then Some(0)
    else match IndexOfGoogleId(users[1..], googleId)
      case None => None
      case Some(i) => Some(i + 1)
  }

  /** `User.findOne({ username })` finds someone. */
  predicate UsernameTaken(users: seq<User>, username: string) {
    exists i | 0 <= i < |users| :: users[i].username == username
  }

  /** `User.findOne({ $or: [{ username }, { email }] })` finds someone. */
  predicate HasConflict(users: seq<User>, username: string, email: string) {
    exists i | 0 <= i < |users| :: users[i].username == username || users[i].email == email
  }
}
