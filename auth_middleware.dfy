/** The request authenticator (middleware/authMiddleware.js): checks the
    bearer access token and, when it has expired, mints a new one from the
    refresh token the user store holds. It only reads the store. */
module AuthMiddleware {
  import opened Common
  import opened Strings
  import opened Tokens
  import opened Models

  const TokenRequired := "Authorization token required."
  const TokenInvalid := "Invalid or expired token."
  const RefreshMissing := "Refresh token missing in DB."
  const RefreshInvalid := "Invalid or expired refresh token."

  /** How a request leaves the middleware: on to the handler (`next()`) with
      `req.user` set and, after a rotation, a new access token in the
      `x-access-token` response header; or answered with a status and
      message and never passed on. */
  datatype Outcome =
    | Proceed(user: Claims, newAccessToken: Option<string>)
    | Reject(status: int, message: string)

  /** `authHeader.split(' ')[1]`: the second space-separated piece of the
      header, whatever its first piece says; None (undefined) when the header
      holds no space. */
  function BearerToken(header: string): (token: Option<string>)
    ensures token.None? <==> ' ' !in header
    ensures token.Some? ==> ' ' !in token.value
  {
    var parts := Split(header, ' ');
    if |parts| > 1 then Some(parts[1]) else None
  }

  /** The token is whatever stands between the first and the second space. */
  lemma BearerTokenOf(scheme: string, token: string, rest: Option<string>)
    requires ' ' !in scheme && ' ' !in token
    ensures rest.None? ==> BearerToken(scheme + " " + token) == Some(token)
    ensures rest.Some? ==> BearerToken(scheme + " " + token + " " + rest.value) == Some(token)
  {
    if rest.None? {
      SplitAfterFirst(scheme, ' ', token);
      assert Split(token, ' ') == [token];
    } else {
      assert scheme + " " + token + " " + rest.value == scheme + [' '] + (token + [' '] + rest.value);
      SplitAfterFirst(scheme, ' ', token + [' '] + rest.value);
      SplitAfterFirst(token, ' ', rest.value);
    }
  }

  /** `jwt.verify(token, JWT_SECRET)` on the extracted token; an undefined
      token is refused as malformed, never as expired. */
  function AccessVerdict(header: string, verifyAccess: Verifier): (v: Verification)
    ensures ' ' !in header ==> v == Invalid
    ensures ' ' in header ==> v == verifyAccess(Split(header, ' ')[1])
  {
    match BearerToken(header)
    case None => Invalid
    case Some(t) => verifyAccess(t)
  }

  /** The refresh path of an expired token: look up the user the expired
      payload names, verify the refresh token stored in that user's record,
      and mint an access token from the record's id and role. */
  function Rotate(userId: Option<string>, users: map<ObjectId, User>,
                  verifyRefresh: Verifier, signAccess: Signer): (r: Outcome)
    ensures r.Reject? ==> r.status == 401 && (r.message == RefreshMissing || r.message == RefreshInvalid)
    ensures r.Proceed? <==>
              && userId.Some? && CastObjectId(userId.value).Some?
              && var id := CastObjectId(userId.value).value;
                 && id in users && HasRefreshToken(users[id])
                 && verifyRefresh(users[id].refreshToken.value).Verified?
    ensures r.Proceed? ==>
              var id := CastObjectId(userId.value).value;
              && r.user == AccessClaims(id, users[id].role)
              && r.newAccessToken == Some(signAccess(r.user))
    ensures r == Reject(401, RefreshMissing) <==>
              || userId.None?
              || (CastObjectId(userId.value).Some?
                  && (CastObjectId(userId.value).value !in users
                      || !HasRefreshToken(users[CastObjectId(userId.value).value])))
  {
    match userId
    // `User.findById(undefined)` resolves to null
    case None => Reject(401, RefreshMissing)
    case Some(raw) =>
      match CastObjectId(raw)
      // `findById` throws a CastError, caught with the refresh failures
      case None => Reject(401, RefreshInvalid)
      case Some(id) =>
        if id !in users || !HasRefreshToken(users[id]) then Reject(401, RefreshMissing)
        else
          match verifyRefresh(users[id].refreshToken.value)
          case Verified(_) =>
            var claims := AccessClaims(id, users[id].role);
            Proceed(claims, Some(signAccess(claims)))
          case _ => Reject(401, RefreshInvalid)
  }

  /** `authenticate(req, res, next)`. The store is a parameter and nothing
      is returned for it: the middleware never changes a user record. */
  function Authenticate(header: Option<string>, users: map<ObjectId, User>,
                        verifyAccess: Verifier, verifyRefresh: Verifier, signAccess: Signer): (r: Outcome)
    ensures r.Reject? ==> r.status == 401
    ensures r == Reject(401, TokenRequired) <==> header.None? || header.value == ""
    ensures r == Reject(401, TokenInvalid) <==>
              header.Some? && header.value != "" && AccessVerdict(header.value, verifyAccess).Invalid?
    ensures r.Proceed? && r.newAccessToken.None? <==>
              header.Some? && header.value != "" && AccessVerdict(header.value, verifyAccess).Verified?
    ensures r.Proceed? && r.newAccessToken.None? ==> r.user == AccessVerdict(header.value, verifyAccess).claims
    ensures header.Some? && header.value != "" && AccessVerdict(header.value, verifyAccess).Expired? ==>
              r == Rotate(AccessVerdict(header.value, verifyAccess).claims.userId, users, verifyRefresh, signAccess)
  {
    if header.None? || header.value == "" then Reject(401, TokenRequired)
    else
      match AccessVerdict(header.value, verifyAccess)
      case Verified(claims) => Proceed(claims, None)
      case Invalid => Reject(401, TokenInvalid)
      case Expired(stale) => Rotate(stale.userId, users, verifyRefresh, signAccess)
  }

  /** A valid access token is accepted on its own: the outcome is the same
      whatever the store holds, so no user is looked up. */
  lemma ValidTokenNeedsNoStore(header: string, usersA: map<ObjectId, User>, usersB: map<ObjectId, User>,
                               verifyAccess: Verifier, verifyRefresh: Verifier, signAccess: Signer)
    requires header != "" && !AccessVerdict(header, verifyAccess).Expired?
    ensures Authenticate(Some(header), usersA, verifyAccess, verifyRefresh, signAccess)
         == Authenticate(Some(header), usersB, verifyAccess, verifyRefresh, signAccess)
  {
  }

  /** Silent refresh after a login: an expired access token whose payload
      names a user whose stored refresh token verifies lets the request
      through, with the id and the role of the stored record (not of the
      expired payload) and a new access token signed from them. */
  lemma {:induction false} ExpiredTokenRotates(scheme: string, token: string, users: map<ObjectId, User>,
                                               verifyAccess: Verifier, verifyRefresh: Verifier, signAccess: Signer,
                                               id: ObjectId, stale: Claims)
    requires ' ' !in scheme && ' ' !in token
    requires verifyAccess(token) == Expired(stale) && stale.userId == Some(id)
    requires id in users && HasRefreshToken(users[id])
    requires verifyRefresh(users[id].refreshToken.value).Verified?
    ensures var claims := AccessClaims(id, users[id].role);
            Authenticate(Some(scheme + " " + token), users, verifyAccess, verifyRefresh, signAccess)
              == Proceed(claims, Some(signAccess(claims)))
  {
    BearerTokenOf(scheme, token, None);
    CastCanonical(id);
  }

  /** After a logout (or before any login) the store holds no refresh token
      for the user, and an expired access token for that user is refused. */
  lemma {:induction false} ExpiredTokenWithoutSessionRejected(scheme: string, token: string, users: map<ObjectId, User>,
                                                              verifyAccess: Verifier, verifyRefresh: Verifier, signAccess: Signer,
                                                              id: ObjectId, stale: Claims)
    requires ' ' !in scheme && ' ' !in token
    requires verifyAccess(token) == Expired(stale) && stale.userId == Some(id)
    requires id !in users || !HasRefreshToken(users[id])
    ensures Authenticate(Some(scheme + " " + token), users, verifyAccess, verifyRefresh, signAccess)
              == Reject(401, RefreshMissing)
  {
    BearerTokenOf(scheme, token, None);
    CastCanonical(id);
  }

  /** A header with no space carries no token, and is refused as invalid,
      never as expired, without a rotation. */
  lemma HeaderWithoutSpaceRejected(header: string, users: map<ObjectId, User>,
                                   verifyAccess: Verifier, verifyRefresh: Verifier, signAccess: Signer)
    requires header != "" && ' ' !in header
    ensures Authenticate(Some(header), users, verifyAccess, verifyRefresh, signAccess) == Reject(401, TokenInvalid)
  {
  }
}
