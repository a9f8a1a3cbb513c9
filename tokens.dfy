/** JSON Web Tokens as the service sees them. Signing and verification are
    done by a library the model does not look into: a `Signer` stands for
    `jwt.sign` with one secret, a `Verifier` for `jwt.verify` with one secret. */
module Tokens {
  import opened Common

  /** A token payload: the user's id and role, and the issue and expiry
      times the library stamps on a signed token. */
  datatype Claims = Claims(
    userId: Option<string>,
    role: Option<string>,
    issuedAt: Option<int>,
    expiresAt: Option<int>)

  /** What `jwt.verify` does with a token: returns its payload, throws
      `TokenExpiredError` on a correctly signed but expired token (whose
      payload `jwt.decode` still recovers), or throws any other error. */
  datatype Verification = Verified(claims: Claims) | Expired(claims: Claims) | Invalid

  type Verifier = string -> Verification

  type Signer = Claims -> string

  /** The payload `{ userId, role }` the service signs into access tokens. */
  function AccessClaims(userId: string, role: string): Claims {
    Claims(Some(userId), Some(role), None, None)
  }

  /** The payload `{ userId }` the service signs into refresh tokens. */
  function RefreshClaims(userId: string): Claims {
    Claims(Some(userId), None, None, None)
  }
}
