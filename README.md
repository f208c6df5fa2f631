# miCommunity server: a Dafny model of the request handlers

miCommunity is a small discussion site: one shared post, a comment thread beneath
it, and sign-in with a password or with Google. This project models the request
handling of `server.js` as a sequential state machine over an in-memory store.
The store holds the user table, the single post and the list of comments. The
model proves what the handlers promise about that store.

- `wrappers.dfy` (`Wrappers`): the `Option` type.
- `text.dfy` (`Text`): the JavaScript string operations the handlers use.
  These are `split(' ')`, `replace(/\s/g, '')`, `substring(0, n)` and the decimal
  text of a number, each with its inverse or a characterising lemma.
- `crypto.dfy` (`Crypto`): bcrypt and jsonwebtoken as symbolic functions.
  A digest is a separate type from a password, so a stored digest is never the
  plaintext. A token carries its payload, its signing key and an expiry one hour
  (3600 s) after issue. It verifies only under the same key and before expiry.
- `records.dfy` (`Records`): users, posts, comments and replies.
  It also holds the unique-index invariant `WellFormed` and the `findOne` look-ups.
- `accounts.dfy` (`Accounts`): the register field checks and login.
- `linker.dfy` (`Linker`): the Google sign-in callback, written as a function of the
  user table. The first matching rule decides the account: Google id, then email,
  then a new account with a generated username.
- `gateway.dfy` (`Gateway`): `authenticateToken`. A bearer token, when one is
  extracted, decides alone. Only without one is the session consulted. Otherwise
  the reply is 401.
- `discussion.dfy` (`Discussion`): listing a post's comments, sorted by date, and the
  default post.
- `server.dfy` (`Server`): the `Store` class. Its methods change the store step by
  step as the handlers do: register, Google linking with its re-roll loop, lazy
  post creation and posting a comment. Each method is proved against the functions
  above. A proved walk-through method follows one visitor through the site.

The comment schema's `ref: 'Post'` and `ref: 'User'` (server.js:63-64) are not
enforced, and the comment handler (server.js:289-302) checks neither reference.
The model does the same.

## Model

| member | source | states |
|---|---|---|
| Text.StripWhitespace | server.js:124 | the result has no whitespace character (`\s` in ECMAScript) and is no longer than the display name |
| Text.StripWhitespaceChar | server.js:124 | a whitespace character is deleted, not replaced, and any other character is kept; with Text.StripWhitespaceConcat this pins the function down |
| Text.StripWhitespaceKeepsClean | server.js:124 | a name without whitespace is left as it is, so stripping is idempotent |
| Text.StripWhitespaceConcat | server.js:124 | stripping commutes with concatenation: it removes whitespace and keeps every other character in order |
| Text.DecimalString | server.js:125-130 | the number appended to the base is rendered as a non-empty string of decimal digits with no leading zero; Text.ParseDecimalString gives its inverse |
| Text.ParseDecimalString | server.js:125-130 | the decimal suffix appended to the base name reads back as the number drawn |
| Text.DecimalStringLength | server.js:125-130 | a suffix below 10^k takes at most k digits |
| Text.Prefix | server.js:124 | `substring(0, 10)` yields a prefix of the stripped name, of length 10 or the whole name when it is shorter |
| Text.Split | server.js:154 | `split(' ')` yields at least one field and no field contains a space; its inverse is stated by Text.JoinSplit and Text.SplitJoin |
| Text.JoinSplit | server.js:154 | joining the fields of `split(' ')` with spaces gives back the header |
| Text.SplitJoin | server.js:154 | splitting space-joined fields that contain no space gives back the fields |
| Crypto.Hash | server.js:53-56 | the pre-save hook's digest uses 10 rounds and matches the password it was made from |
| Crypto.Compare | server.js:218 | `bcrypt.compare`; its contract is carried by Crypto.CompareHash |
| Crypto.CompareHash | server.js:218 | `bcrypt.compare` accepts exactly the password the stored digest was made from |
| Crypto.Sign | server.js:224 | a freshly signed token verifies under the same key to its payload `{userId, username}`, and it expires 3600 s after issue |
| Crypto.VerifyText | server.js:157 | `jwt.verify` on header text: it yields claims only when the text decodes to a token that Crypto.Verify accepts; Gateway.Authenticate and Gateway.LoginTokenAuthenticates state the replies |
| Crypto.Verify | server.js:157-158 | verification yields the token's payload, and does so exactly when the token was signed with the server key and `now` is before its expiry |
| Crypto.VerifySigned | server.js:157-158 | a token verifies to its payload under the signing key during the hour after issue; it fails once expired or under any other key |
| Records.UsernameTaken | server.js:128-131 | `findOne({ username })` finds a user exactly when some user holds the name; Linker.FirstFreeRoll and Linker.LinkCreatesAccount state what the loop derives from it |
| Records.HasConflict | server.js:193 | the `$or` look-up finds a user exactly when some user holds the username or the email; Server.Store.Register states the 409 it leads to |
| Records.WellFormed | server.js:47-50 | the unique indexes on username, email and the sparse googleId, plus every account having a password or a Google id; it is Server.Store.Valid, and Accounts.RegisterPreservesWellFormed and Linker.LinkPreservesWellFormed prove it is kept |
| Records.IndexOfEmail | server.js:213 | the look-up returns the first user with the email, or none when no user has it |
| Records.IndexOfGoogleId | server.js:107 | the look-up returns the first user linked to the Google id, or none when no user is |
| Accounts.LocalAccount | server.js:198-199 | the saved record, after the pre-save hash of server.js:53-56, keeps the username and email, holds a digest its plaintext password matches, and has no Google id |
| Accounts.CheckRegistration | server.js:185-190 | a request is accepted exactly when username and email are present and the password has at least 6 characters; every rejection is a 400, and the short-password message is sent exactly for a present but short password |
| Accounts.RegisterPreservesWellFormed | server.js:192-199 | inserting an account whose username and email are both unused keeps names, emails and Google ids unique and keeps every account able to sign in |
| Accounts.LoginSucceedsIff | server.js:213-221 | login succeeds exactly when an account has the email and a digest the password matches; it fails for an unknown email, a Google-only account and a wrong password alike |
| Accounts.Login | server.js:209-230 | every rejection is the same 401 "Invalid credentials."; a success returns a token for the account with that email, with payload `{userId, username}`, the server key and a one-hour expiry, and returns the same username (the success condition is Accounts.LoginSucceedsIff) |
| Accounts.GoogleOnlyAccountCannotLogIn | server.js:214-215 | an account with no password (Google-only) is refused with any password |
| Accounts.RegisteredUserCanLogIn | server.js:198-225 | right after registering, login with the same email and password yields a token naming the new user |
| Linker.BaseUsername | server.js:124 | the base has no whitespace, at most 10 characters, and is a prefix of the stripped display name |
| Linker.Candidate | server.js:125-130 | a candidate (server.js:125 and 130) starts with the base and is followed by a non-empty decimal suffix that parses back to the drawn number |
| Linker.GoogleAccount | server.js:134-139 | the account rule 3 saves; Linker.LinkCreatesAccount states its name, email, Google id and missing password |
| Linker.FirstFreeRoll | server.js:128-132 | the re-roll loop stops at the first drawn suffix whose username is free; every earlier one was taken |
| Linker.AllNamesTakenBlocksLink | server.js:124-132 | when all 10000 names the base can take are held, no suffix can be free, so the re-roll loop never ends; `CanLink` excludes this state |
| Linker.Link | server.js:104-147 | the callback fails (store unchanged) exactly when no user has the Google id and the profile has no email; otherwise the returned user now carries the Google id, and at most one user is added |
| Linker.LinkByGoogleId | server.js:107-111 | a user already linked to the Google id is returned and the table is unchanged |
| Linker.LinkByEmail | server.js:114-120 | otherwise the user with the profile's email gets the Google id in place; no user is added and no other user changes |
| Linker.LinkCreatesAccount | server.js:124-141 | otherwise exactly one account is appended. Its username is the base (whitespace removed, at most 10 characters) plus a suffix below 1000 on the first draw and below 10000 on a re-roll. No existing user holds that username. The account has the profile's email and Google id and no password |
| Linker.LinkPreservesWellFormed | server.js:104-147 | whichever rule applies, usernames, emails and Google ids stay unique, so no second account is made for an email |
| Linker.LinkTwiceSameUser | server.js:107-120 | signing in twice with the same profile resolves to the same user, and the second sign-in changes nothing |
| Gateway.BearerToken | server.js:153-154 | an extracted token is never empty and contains no space |
| Gateway.BearerTokenOfHeader | server.js:153-154 | the token is the second space-separated field, whatever the first field says |
| Gateway.BareSchemeGivesNoToken | server.js:154-156 | `Bearer` with no second field, or with an empty one, yields no token |
| Gateway.SessionUser | server.js:164 | a session authenticates only a user that exists |
| Gateway.Authenticate | server.js:151-176 | a rejection is 403 exactly when a token was extracted and failed to verify; it is 401 exactly when there is no token and no live session; no other rejection exists |
| Gateway.BearerTokenDecidesAlone | server.js:156-162 | once a token is extracted, the session is never consulted: verification alone gives the payload or a 403 |
| Gateway.SessionFallback | server.js:164-170 | without a token, a live session yields the session user's `{userId, username}` |
| Gateway.LoginTokenAuthenticates | server.js:151-161 | a login token sent as `Bearer <token>` within its hour authenticates as that user, whatever the session |
| Gateway.ExpiredTokenRejected | server.js:157-158 | the same token from the hour after issue on is refused with 403 |
| Discussion.DefaultPost | server.js:271-275 | the post created on an empty store, with the source's title, content and author "Admin"; Server.Store.FetchSinglePost states when it is made |
| Discussion.Views | server.js:314 | `.select('username content date')` keeps one view per comment, in order, each showing that comment's username, content and date |
| Discussion.CommentsFor | server.js:313 | every selected comment belongs to the post, and each comment of the post is selected exactly as often as it is stored |
| Discussion.Insert | server.js:315 | inserting into a date-sorted list keeps it sorted and adds exactly that entry |
| Discussion.SortByDate | server.js:315 | the result is in non-decreasing date order and is a permutation of the input |
| Discussion.ListComments | server.js:311-316 | the listing is in non-decreasing date order and is a rearrangement of the projected comments `CommentsFor` selects |
| Discussion.ListCommentsSpec | server.js:311-316 | the listing has one entry per stored comment of the post, counted with repetitions, and every entry shows a stored comment of that post |
| Discussion.ViewsKeepCount | server.js:314 | projecting to `username content date` drops no comment: a view occurs at least as often as any comment it shows |
| Discussion.ListedAsOftenAsStored | server.js:311-316 | every stored comment of the post appears in the listing at least as often as it is stored |
| Discussion.StoredCommentIsListed | server.js:295-316 | a stored comment appears in its post's listing |
| Server.Store.Register | server.js:182-206 | a 400 on invalid fields and a 409 on a used username or email leave the table unchanged; otherwise a 201 appends exactly one account with a hashed password; uniqueness is kept |
| Server.Store.LinkGoogle | server.js:104-147 | the lookups and the re-roll loop compute exactly `Linker.Link`, and uniqueness is kept |
| Server.Store.FetchSinglePost | server.js:265-284 | an existing post is returned unchanged; an empty store gets the default post, stored and returned |
| Server.Store.PostComment | server.js:287-308 | a failed authentication returns the gateway's 401 or 403, and missing fields return 400; both store nothing. Otherwise exactly one comment is appended, carrying the caller's `userId` and `username` |
| Server.RegisterLoginCommentScenario | server.js:182-321 | on an empty store: register is 201, the same register again is 409, and login succeeds. Fetching the post twice returns one post. A comment posted with the login token is 201, and the listing holds exactly that comment |

## Left out

- The browser script (`script.js`) is not part of this model. It is DOM and storage glue.
- The database connection and the exit at startup are not modelled, and neither are the
  middleware and the session cookie settings. Passport's serialise/deserialise is reduced
  to the session's optional user id, which authenticates when that user exists.
- The OAuth redirects and the HTML page that hands the token to the browser are
  transport. So is the token signed for a Google sign-in (server.js:233-259).
- 500 replies from store or hashing failures are not modelled; these are infrastructure faults
  (for the ones caused by the input, see Accounts.Login and the ObjectIds line below).
  Duplicate-key save failures cannot occur here, because the pre-checks are proved to keep
  the unique indexes.
- Concurrency, including the check-then-act race of the username loop: the model runs one request at a time.
- bcrypt internals: the salt and the 72-byte truncation of passwords. A digest is a symbolic
  value, and comparing checks the whole password.
- jsonwebtoken internals: the token's text form is the caller-supplied `decode` function.
  The `iat`/`exp` fields the decoded payload also carries are not passed on as caller identity.
- `Math.random` is replaced by the caller-supplied suffixes `rolls`.
- Linker.Link: requires that the supplied suffixes contain a free name whenever a new account
  is made. The source loops until it draws one. That happens with probability 1 while some
  name base+0 … base+9999 is free. Once all 10000 are held, the source's loop never ends and
  the sign-in request hangs. The model does not describe that non-terminating run:
  Linker.AllNamesTakenBlocksLink shows that `CanLink` rules this state out.
- Dates and ObjectIds: times are integer seconds, user ids are table positions, and the new
  post's id is supplied by the caller. A postId that is not a well-formed ObjectId gets a 500
  from both comment routes (server.js:302-306, 313-319); the model's ids are always well formed.
  Listed comments also carry their `_id`, which CommentView leaves out.
- Request fields are strings. For register and for posting a comment, the empty string stands for
  a missing or falsy field, since `!field` treats both alike there. The comment's `postId` is an
  optional post id: no value stands for a missing or falsy one.
- Accounts.Login: a request with no `password` field is not modelled. The source then calls
  `bcrypt.compare(undefined, …)`, which bcryptjs rejects for its non-string argument. For an email
  with a password account, the source's catch replies 500 "Server error during login."; the model
  reads the field as "" and replies 401 "Invalid credentials.". A missing `email` is not
  modelled either.
  Non-string JSON values are not modelled. Neither is the way the query library treats an
  `undefined` email at login.
- A profile without a display name is not modelled. A profile without emails is:
  it is the callback's error path.
- A character is a Unicode scalar value, whereas JavaScript counts UTF-16 code units.
  A character outside the Basic Multilingual Plane counts once here and twice in JavaScript.
  On such input the model differs from the source in two places. The password-length check
  (Accounts.CheckRegistration) can reply 400 where the source accepts the password. The
  10-character cut of the base username can split a surrogate pair in the source, which the
  model cannot represent.
- Discussion.SortByDate keeps the insertion order of comments with equal dates; the database leaves
  that order unspecified. The proved properties (sorted, a permutation) hold for any order of ties.
- The posts collection is modelled as holding at most one post, because no handler creates a second.
