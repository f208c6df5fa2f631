/**
 * The Google sign-in callback (the GoogleStrategy verify function) as a function
 * of the user table: the first of three rules that applies decides the account.
 *   1. a user already linked to this Google id;
 *   2. otherwise a user with the profile's first email, which gets the Google id;
 *   3. otherwise a new account with a generated username, no password and the Google id.
 * `Math.random()` is replaced by `rolls`: the successive suffixes the generator draws.
 */
module Linker {
  import opened Wrappers
  import opened Text
  import opened Records

  /** The parts of a Google profile the callback reads: `id`, `emails[..].value`, `displayName`. */
  datatype Profile = Profile(id: string, emails: seq<string>, displayName: string)

  /** `done(null, user)` with the user's id, or `done(err)` when reading
      `profile.emails[0]` throws because the profile carries no email. */
  datatype LinkResult = Linked(userId: nat) | LinkFailed

  const BaseLength: nat := 10
  /** `Math.floor(Math.random() * 1000)` for the first try, `* 10000` for every re-roll. */
  const FirstRollBound: nat := 1000
  const RerollBound: nat := 10000

  /** `displayName.replace(/\s/g, '').substring(0, 10)`. */
  function BaseUsername(displayName: string): (b: string)
    ensures |b| <= BaseLength && HasNoWhitespace(b)
    ensures b <= StripWhitespace(displayName)
  {
    Prefix(StripWhitespace(displayName), BaseLength)
  }

  /** The base followed by the decimal suffix. */
  function Candidate(base: string, roll: nat): (c: string)
    ensures |c| > |base| && c[..|base|] == base
    ensures IsDigits(c[|base|..]) && ParseDecimal(c[|base|..]) == roll
  {
    ParseDecimalString(roll);
    assert (base + DecimalString(roll))[|base|..] == DecimalString(roll);
    base + DecimalString(roll)
  }

  /** The suffixes are in the ranges `Math.random` gives: below 1000 first, below 10000 after. */
  predicate RollsInRange(rolls: seq<nat>) {
    forall k | 0 <= k < |rolls| :: rolls[k] < if k == 0 then FirstRollBound else RerollBound
  }

  predicate FreeRollFrom(users: seq<User>, base: string, rolls: seq<nat>, from: nat) {
    exists k | from <= k < |rolls| :: !UsernameTaken(users, Candidate(base, rolls[k]))
  }

  /** Where the re-roll loop stops: the first suffix from `from` on whose candidate is free. */
  function FirstFreeRoll(users: seq<User>, base: string, rolls: seq<nat>, from: nat): (k: nat)
    requires FreeRollFrom(users, base, rolls, from)
    ensures from <= k < |rolls|
    ensures !UsernameTaken(users, Candidate(base, rolls[k]))
    ensures forall j | from <= j < k :: UsernameTaken(users, Candidate(base, rolls[j]))
    decreases |rolls| - from
  {
    if !UsernameTaken(users, Candidate(base, rolls[from])) then from
    else
      assert FreeRollFrom(users, base, rolls, from + 1) by {
        var k :| from <= k < |rolls| && !UsernameTaken(users, Candidate(base, rolls[k]));
        assert k != from;
      }
      FirstFreeRoll(users, base, rolls, from + 1)
  }

  /** Neither the Google id nor the first email is known: rule 3 applies. */
  predicate NeedsNewAccount(users: seq<User>, profile: Profile) {
    IndexOfGoogleId(users, profile.id).None? && |profile.emails| > 0 && IndexOfEmail(users, profile.emails[0]).None?
  }

  /** What the random source must supply: suffixes in range, and, when a new account
      is made, eventually one that gives a free name (the source's loop runs until then). */
  predicate CanLink(users: seq<User>, profile: Profile, rolls: seq<nat>) {
    && RollsInRange(rolls)
    && (NeedsNewAccount(users, profile) ==> FreeRollFrom(users, BaseUsername(profile.displayName), rolls, 0))
  }

  /** When every name the base can take (suffixes 0 to 9999) is held, no drawn suffix
      is free: the source's re-roll loop never ends, and `CanLink` excludes this state. */
  lemma AllNamesTakenBlocksLink(users: seq<User>, profile: Profile, rolls: seq<nat>)
    requires NeedsNewAccount(users, profile)
    requires forall n: nat | n < RerollBound :: UsernameTaken(users, Candidate(BaseUsername(profile.displayName), n))
    ensures !CanLink(users, profile, rolls)
  {
  }

  /** The account rule 3 creates. */
  function GoogleAccount(username: string, email: string, googleId: string): User {
    User(username, email, None, Some(googleId))
  }

  /** The callback's outcome and the user table after it. */
  function Link(users: seq<User>, profile: Profile, rolls: seq<nat>): (out: (LinkResult, seq<User>))
    requires CanLink(users, profile, rolls)
    ensures out.0.LinkFailed? <==> IndexOfGoogleId(users, profile.id).None? && |profile.emails| == 0
    ensures out.0.LinkFailed? ==> out.1 == users
    ensures out.0.Linked? ==> out.0.userId < |out.1| && out.1[out.0.userId].googleId == Some(profile.id)
    ensures |users| <= |out.1| <= |users| + 1
  {
    match IndexOfGoogleId(users, profile.id)
    case Some(i) => (Linked(i), users)
    case None =>
      if |profile.emails| == 0 then (LinkFailed, users)
      else
        var email := profile.emails[0];
        match IndexOfEmail(users, email)
        case Some(i) => (Linked(i), users[i := users[i].(googleId := Some(profile.id))])
        case None =>
          var base := BaseUsername(profile.displayName);
          var k := FirstFreeRoll(users, base, rolls, 0);
          (Linked(|users|), users + [GoogleAccount(Candidate(base, rolls[k]), email, profile.id)])
  }

  /** Rule 1: a user already linked to the Google id is returned and nothing changes. */
  lemma LinkByGoogleId(users: seq<User>, profile: Profile, rolls: seq<nat>, i: nat)
    requires WellFormed(users) && CanLink(users, profile, rolls)
    requires i < |users| && users[i].googleId == Some(profile.id)
    ensures Link(users, profile, rolls) == (Linked(i), users)
  {
  }

  /** Rule 2: otherwise the user holding the first email is linked to the Google id
      in place; every other user, and the number of users, stays the same. */
  lemma LinkByEmail(users: seq<User>, profile: Profile, rolls: seq<nat>, i: nat)
    requires WellFormed(users) && CanLink(users, profile, rolls)
    requires forall j | 0 <= j < |users| :: users[j].googleId != Some(profile.id)
    requires |profile.emails| > 0 && i < |users| && users[i].email == profile.emails[0]
    ensures Link(users, profile, rolls).0 == Linked(i)
    ensures var after := Link(users, profile, rolls).1;
      && |after| == |users|
      && after[i] == users[i].(googleId := Some(profile.id))
      && forall j | 0 <= j < |users| && j != i :: after[j] == users[j]
  {
  }

  /** Rule 3: otherwise exactly one account is appended. Its username is the
      whitespace-free, at most ten-character base of the display name followed by
      a decimal suffix (below 1000 on the first draw, below 10000 on a re-roll),
      and no existing user holds it; it has the profile's email and Google id and no password. */
  lemma {:induction false} LinkCreatesAccount(users: seq<User>, profile: Profile, rolls: seq<nat>)
    requires CanLink(users, profile, rolls) && NeedsNewAccount(users, profile)
    ensures var (r, after) := Link(users, profile, rolls);
      && r == Linked(|users|)
      && |after| == |users| + 1 && after[..|users|] == users
      && after[|users|].email == profile.emails[0]
      && after[|users|].googleId == Some(profile.id)
      && after[|users|].password.None?
      && !UsernameTaken(users, after[|users|].username)
      && |after[|users|].username| <= BaseLength + 4
      && exists k | 0 <= k < |rolls| ::
           && after[|users|].username == BaseUsername(profile.displayName) + DecimalString(rolls[k])
           && rolls[k] < if k == 0 then FirstRollBound else RerollBound
  {
    var base := BaseUsername(profile.displayName);
    var k := FirstFreeRoll(users, base, rolls, 0);
    var after := Link(users, profile, rolls).1;
    assert after == users + [GoogleAccount(Candidate(base, rolls[k]), profile.emails[0], profile.id)];
    assert after[..|users|] == users;
    DecimalStringLength(rolls[k], 4);
    assert |base| <= BaseLength;
  }

  /** Whatever rule applies, the unique indexes hold afterwards and every account can
      still be signed into; in particular no second account gets an existing email. */
  lemma LinkPreservesWellFormed(users: seq<User>, profile: Profile, rolls: seq<nat>)
    requires WellFormed(users) && CanLink(users, profile, rolls)
    ensures WellFormed(Link(users, profile, rolls).1)
  {
  }

  /** Signing in twice with the same profile resolves to the same account, and the
      second sign-in changes nothing, whatever suffixes it would have drawn. */
  lemma LinkTwiceSameUser(users: seq<User>, profile: Profile, rolls: seq<nat>, rolls': seq<nat>)
    requires CanLink(users, profile, rolls)
    requires Link(users, profile, rolls).0.Linked?
    requires RollsInRange(rolls')
    ensures var (first, after) := Link(users, profile, rolls);
      CanLink(after, profile, rolls') && Link(after, profile, rolls') == (first, after)
  {
  }
}
