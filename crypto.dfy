/**
 * Ideal models of the two libraries the handlers trust: bcrypt for password
 * hashes and jsonwebtoken for bearer tokens. Both are modelled as injective
 * constructors, so a hash matches exactly one password and a token decodes,
 * under its own key only, to exactly the claims it was signed with. The one
 * exception is the empty string payload: its payload segment is empty; the
 * `jws` decoder that jsonwebtoken uses refuses such a token (RFC 7515 itself
 * allows one), so `jwt.verify` throws on it.
 */
module Crypto {
  import opened Wrappers

  /** A bcrypt digest of `preimage` under `salt`; only `Compare` looks inside. */
  datatype Digest = Bcrypt(salt: nat, preimage: string)

  /** `bcrypt.hash(password, salt)`. */
  function Hash(password: string, salt: nat): (d: Digest)
    ensures Compare(password, d)
    ensures forall q :: Compare(q, d) ==> q == password
  {
    Bcrypt(salt, password)
  }

  /** `bcrypt.compare(candidate, digest)`: rehashing the candidate with the digest's salt gives the digest. */
  predicate Compare(candidate: string, d: Digest)
    ensures Compare(candidate, d) <==> Bcrypt(d.salt, candidate) == d
  {
    candidate == d.preimage
  }

  /** The payload a token carries: an object with optional claims, or a bare string. */
  datatype Claims =
    | Object(id: Option<nat>, role: Option<string>, email: Option<string>)
    | Text(text: string)

  /**
   * A `token` header value: either a token produced by `jwt.sign` under `key`,
   * or any other text (malformed, truncated, forged).
   */
  datatype Token = Jwt(key: string, claims: Claims) | Raw(text: string)

  /** What `jwt.verify` yields: it throws (`Invalid`) or returns the decoded payload. */
  datatype Decoded = Invalid | Valid(claims: Claims)

  /** The payload `jwt.sign` encodes as an empty segment. */
  const EmptyPayload := Text("")

  /** `jwt.sign(claims, secret)`, with no expiry. */
  function Sign(claims: Claims, secret: string): (t: Token)
    ensures Verify(t, secret) == if claims == EmptyPayload then Invalid else Valid(claims)
    ensures forall other :: other != secret ==> Verify(t, other) == Invalid
  {
    Jwt(secret, claims)
  }

  /** `jwt.verify(token, secret)`: succeeds exactly on well-formed tokens signed with `secret`. */
  function Verify(t: Token, secret: string): (d: Decoded)
    ensures d.Valid? <==> t.Jwt? && t.key == secret && t.claims != EmptyPayload
    ensures d.Valid? ==> d.claims == t.claims
  {
    if t.Jwt? && t.key == secret && t.claims != EmptyPayload then Valid(t.claims) else Invalid
  }

  /** Two signings under one key give the same token only for the same claims. */
  lemma SignInjective(a: Claims, b: Claims, secret: string)
    requires Sign(a, secret) == Sign(b, secret)
    ensures a == b
  {
  }

  /** `!token` on the header: absent, or the empty string. A signed token is never empty. */
  predicate HeaderPresent(header: Option<Token>)
    ensures HeaderPresent(header) ==> header.Some?
    ensures header.Some? && header.value.Jwt? ==> HeaderPresent(header)
  {
    header.Some? && header.value != Raw("")
  }
}
