/**
 * The two cryptographic libraries the server calls, kept abstract.
 * bcrypt: a digest is a symbolic term that only `Hash` builds; comparing a
 * plaintext with a digest succeeds exactly when the digest was made from it.
 * jsonwebtoken: a token is a symbolic signed value carrying its payload, the key
 * that signed it and its expiry; a clock reading `now` is in whole seconds.
 */
module Crypto {
  import opened Wrappers

  /** The cost factor passed to `bcrypt.hash`. */
  const SaltRounds: nat := 10

  /** A bcrypt digest; it is a different type from a plaintext string, so a
      record field holding a Digest can never hold the plaintext itself. */
  datatype Digest = Bcrypt(rounds: nat, preimage: string)

  function Hash(plain: string): (d: Digest)
    ensures Compare(plain, d)
    ensures d.rounds == SaltRounds
  {
    Bcrypt(SaltRounds, plain)
  }

  /** `bcrypt.compare(plain, digest)`. */
  function Compare(plain: string, digest: Digest): bool {
    digest.preimage == plain
  }

  /** A digest matches exactly the password it was made from. */
  lemma CompareHash(password: string, attempt: string)
    ensures Compare(attempt, Hash(password)) <==> attempt == password
  {
  }

  /** The payload the server signs: `{ userId, username }`. */
  datatype Claims = Claims(userId: nat, username: string)

  /** A signed JSON Web Token: payload, signing key, `iat` and `exp`. */
  datatype Token = Token(claims: Claims, key: string, issuedAt: int, expiresAt: int)

  /** `expiresIn: '1h'`, in seconds. */
  const ExpiresIn: int := 3600

  /** `jwt.sign(claims, key, { expiresIn: '1h' })` at time `now`. */
  function Sign(claims: Claims, key: string, now: int): (t: Token)
    ensures Verify(t, key, now) == Some(claims)
    ensures t.expiresAt - t.issuedAt == ExpiresIn
  {
    Token(claims, key, now, now + ExpiresIn)
  }

  /** `jwt.verify(token, key)` at time `now`: the payload, or nothing when the
      signature is not by `key` or the token has expired (`now >= exp`). */
  function Verify(token: Token, key: string, now: int): (r: Option<Claims>)
    ensures r.Some? ==> r.value == token.claims
    ensures r.Some? <==> token.key == key && now < token.expiresAt
  {
    if token.key == key && now < token.expiresAt then Some(token.claims) else None
  }

  /** `jwt.verify` applied to token text: the text must decode to a token, and
      that token must verify. `decode` stands for parsing the compact serialisation. */
  function VerifyText(decode: string -> Option<Token>, text: string, key: string, now: int): (r: Option<Claims>)
    ensures r.Some? <==> decode(text).Some? && Verify(decode(text).value, key, now).Some?
    ensures r.Some? ==> r.value == decode(text).value.claims
  {
    match decode(text)
    case None => None
    case Some(token) => Verify(token, key, now)
  }

  /** A token signed at `issued` verifies under the same key, yielding its payload,
      exactly during the hour that follows; under any other key it never verifies. */
  lemma VerifySigned(claims: Claims, key: string, issued: int, now: int, otherKey: string)
    requires otherKey != key
    ensures Verify(Sign(claims, key, issued), key, now) == (if now < issued + 3600 then Some(claims) else None)
    ensures Verify(Sign(claims, key, issued), otherKey, now) == None
  {
  }
}
