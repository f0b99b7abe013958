/**
 * The token helpers the routes call, kept opaque: a signer for access tokens, a signer for
 * refresh tokens and a verifier that decodes a refresh token into its claims or rejects it.
 * Nothing is assumed about them except where a lemma states `Sound` explicitly.
 */
module Tokens {
  import opened Wrappers
  import opened UserModel

  /** The identity a token carries. */
  datatype Claims = Claims(userId: nat, email: string, role: Role)

  datatype TokenPair = TokenPair(accessToken: string, refreshToken: string)

  datatype Issuer = Issuer(
    signAccess: Claims -> string,
    signRefresh: Claims -> string,
    verifyRefresh: string -> Option<Claims>)

  function ClaimsOf(u: User): (c: Claims)
    ensures c.userId == u.id && c.email == u.email && c.role == u.role
  {
    Claims(u.id, u.email, u.role)
  }

  /** An access token and a refresh token minted from the same claims. */
  function Issue(iss: Issuer, c: Claims): TokenPair
  {
    TokenPair(iss.signAccess(c), iss.signRefresh(c))
  }

  /** A verifier that accepts every refresh token its signer mints, with the claims it was minted from. */
  ghost predicate Sound(iss: Issuer)
  {
    forall c :: iss.verifyRefresh(iss.signRefresh(c)) == Some(c)
  }
}
