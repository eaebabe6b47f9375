/** CreateToken and VerifyToken are called by the auth package but defined outside this model;
    each handler receives them as functions, fixed for the duration of one request. */
module Tokens {
  import opened Base

  /** A claim value decoded from a token: only "is it a string" matters to the package. */
  datatype ClaimValue = StringClaim(s: string) | OtherClaim

  /** jwt.MapClaims: claim name to decoded value. */
  type Claims = map<string, ClaimValue>

  datatype TokenError = TokenError(message: string)

  /** CreateToken(username): a signed token, or the signing error. */
  type TokenIssuer = string -> Result<string, TokenError>

  /** VerifyToken(token): the token's claims, or why it was refused (bad signature, expired, malformed). */
  type TokenVerifier = string -> Result<Claims, TokenError>
}
