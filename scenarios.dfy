/** The account operations and the request authenticator share the user
    store: a login opens the refresh path for the user, a logout closes it. */
module Scenarios {
  import opened Common
  import opened Tokens
  import opened Models
  import opened AuthController
  import opened AuthMiddleware

  /** A login followed by a request with an expired access token naming the
      same user: when the login succeeds and the refresh token it stored
      verifies (and is not empty, since an empty token counts as none), the
      request proceeds with the user's id and role and a new access token. */
  method LoginThenExpiredToken(store: UserStore, usergmail: string, password: string,
                               passwordMatches: (string, string) -> bool, signAccess: Signer, signRefresh: Signer,
                               scheme: string, token: string, verifyAccess: Verifier, verifyRefresh: Verifier,
                               id: ObjectId, stale: Claims)
    returns (login: Result<Session>, outcome: Outcome)
    requires store.Valid() && HasEmail(store.users, id, usergmail)
    requires ' ' !in scheme && ' ' !in token
    requires verifyAccess(token) == Expired(stale) && stale.userId == Some(id)
    requires signRefresh(RefreshClaims(id)) != "" && verifyRefresh(signRefresh(RefreshClaims(id))).Verified?
    modifies store
    ensures store.Valid() && HasEmail(store.users, id, usergmail)
    ensures login.Success? ==>
              var claims := AccessClaims(id, store.users[id].role);
              outcome == Proceed(claims, Some(signAccess(claims)))
  {
    login := store.Login(usergmail, password, passwordMatches, signAccess, signRefresh);
    if login.Success? {
      ExpiredTokenRotates(scheme, token, store.users, verifyAccess, verifyRefresh, signAccess, id, stale);
    }
    outcome := Authenticate(Some(scheme + " " + token), store.users, verifyAccess, verifyRefresh, signAccess);
  }

  /** A logout followed by a request with an expired access token naming the
      same user: whether the logout cleared the refresh token or found none,
      the request is refused with "Refresh token missing in DB.". */
  method LogoutThenExpiredToken(store: UserStore, usergmail: string,
                                scheme: string, token: string,
                                verifyAccess: Verifier, verifyRefresh: Verifier, signAccess: Signer,
                                id: ObjectId, stale: Claims)
    returns (logout: Result<()>, outcome: Outcome)
    requires store.Valid() && HasEmail(store.users, id, usergmail)
    requires ' ' !in scheme && ' ' !in token
    requires verifyAccess(token) == Expired(stale) && stale.userId == Some(id)
    modifies store
    ensures store.Valid()
    ensures outcome == Reject(401, RefreshMissing)
  {
    logout := store.Logout(usergmail);
    ExpiredTokenWithoutSessionRejected(scheme, token, store.users, verifyAccess, verifyRefresh, signAccess, id, stale);
    outcome := Authenticate(Some(scheme + " " + token), store.users, verifyAccess, verifyRefresh, signAccess);
  }
}
