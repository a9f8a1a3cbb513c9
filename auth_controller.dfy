/** Registration, login, logout and password reset
    (controllers/authController.js) as operations on the user collection.
    Hashing, password comparison and token signing are parameters; so are
    the clock and the random draw. Mail and SMS are not modelled. */
module AuthController {
  import opened Common
  import opened Strings
  import opened Tokens
  import opened Models

  const EmailExists := AppError("User email already exists", Some(400))
  const InvalidCredentials := AppError("Invalid credentials", Some(400))
  const AlreadyLoggedOut := AppError("You are already logout.", None)
  const UserNotFound := AppError("User not found", Some(404))
  const OtpInvalid := AppError("OTP invalid", Some(400))
  const OtpExpired := AppError("OTP expired", Some(400))

  /** Lifetime of a password-reset OTP: two minutes, in milliseconds. */
  const OtpLifetime := 2 * 60 * 1000

  /** The tokens a successful login returns. */
  datatype Session = Session(token: string, refreshToken: string)

  // ------------------------------------------------------- one-time passwords

  /** `Math.floor(100000 + Math.random() * 900000)`, where `random` is the
      value `Math.random()` returned (exact arithmetic, not floating point). */
  function OtpCode(random: real): (n: nat)
    requires 0.0 <= random < 1.0
    ensures 100000 <= n <= 999999
  {
    (100000.0 + random * 900000.0).Floor
  }

  /** The OTP text `OtpCode(random).toString()`: six decimal digits that
      read back as a number between 100000 and 999999. */
  function OtpText(random: real): (otp: string)
    requires 0.0 <= random < 1.0
    ensures |otp| == 6 && AllDigits(otp)
    ensures 100000 <= ParseDecimal(otp) <= 999999
  {
    var n := OtpCode(random);
    assert Pow10(5) == 100000 && Pow10(6) == 1000000 by {
      assert Pow10(2) == 100;
    }
    NatToStringLength(n, 6);
    ParseNatToString(n);
    NatToString(n)
  }

  /** The checks resetPassword makes AS WRITTEN: `user.otp !== otp`, then
      `Date.now() > user.otpExpires`. An unset OTP equals an absent one, and
      a comparison with an unset expiry is false. */
  function OtpDecisionAsWritten(stored: Option<string>, expires: Option<int>,
                                presented: Option<string>, now: int): (e: Option<Error>)
    ensures e == Some(OtpInvalid) <==> stored != presented
    ensures e == Some(OtpExpired) <==> stored == presented && expires.Some? && now > expires.value
    ensures e.None? <==> stored == presented && (expires.None? || now <= expires.value)
  {
    if stored != presented then Some(OtpInvalid)
    else if expires.Some? && now > expires.value then Some(OtpExpired)
    else None
  }

  /** As written, a request without an OTP for a user with no OTP pending
      passes both checks. */
  lemma AsWrittenAcceptsMissingOtp(now: int)
    ensures OtpDecisionAsWritten(None, None, None, now) == None
  {
  }

  /** The checks as intended: an OTP must have been issued and be presented,
      equality is tested before expiry, and an OTP whose expiry is unknown
      counts as expired. */
  function OtpDecision(stored: Option<string>, expires: Option<int>,
                       presented: Option<string>, now: int): (e: Option<Error>)
    ensures e.None? <==> stored.Some? && presented == stored && expires.Some? && now <= expires.value
    ensures e == Some(OtpInvalid) <==> stored.None? || presented != stored
    ensures e == Some(OtpExpired) <==> stored.Some? && presented == stored && (expires.None? || now > expires.value)
  {
    if stored.None? || stored != presented then Some(OtpInvalid)
    else if expires.None? || now > expires.value then Some(OtpExpired)
    else None
  }

  /** The two agree whenever an OTP is pending; they differ only when none is. */
  lemma {:induction false} OtpDecisionAgreesWhenIssued(stored: Option<string>, expires: Option<int>,
                                                       presented: Option<string>, now: int)
    requires stored.Some? && expires.Some?
    ensures OtpDecision(stored, expires, presented, now) == OtpDecisionAsWritten(stored, expires, presented, now)
  {
  }

  // ------------------------------------------------------------- the store

  class UserStore {
    var users: map<ObjectId, User>

    ghost predicate Valid()
      reads this
    {
      ValidUsers(users)
    }

    constructor ()
      ensures Valid() && users == map[]
    {
      users := map[];
    }

    /** `register`: refuses an email already in use; otherwise stores a
        new user with the hashed password, the given role (or "user"), and
        the uploaded file's name as profileImage (or null). Saving runs the
        schema validators; `newId` is the `_id` the driver generates. */
    method Register(username: string, usergmail: string, password: string, role: Option<string>,
                    uploadedFile: Option<string>, newId: ObjectId, hash: string -> string)
      returns (r: Result<ObjectId>)
      requires Valid()
      modifies this
      ensures Valid()
      ensures EmailTaken(old(users), usergmail) ==> r == Failure(EmailExists) && users == old(users)
      ensures !EmailTaken(old(users), usergmail) ==>
                var u := NewUser(username, usergmail, hash(password), role, uploadedFile);
                if !ValidUser(u) then r == Failure(ValidationError) && users == old(users)
                else if newId in old(users) then r == Failure(DuplicateKey) && users == old(users)
                else r == Success(newId) && users == old(users)[newId := u]
    {
      if id :| id in users && HasEmail(users, id, usergmail) {
        return Failure(EmailExists);
      }
      var u := NewUser(username, usergmail, hash(password), role, uploadedFile);
      if !ValidUser(u) {
        return Failure(ValidationError);
      }
      if newId in users {
        return Failure(DuplicateKey);
      }
      users := users[newId := u];
      r := Success(newId);
    }

    /** `login`: the same "Invalid credentials" for an unknown email and for
        a wrong password, neither changing anything; on success the user's
        single stored refresh token is replaced by the one returned. */
    method Login(usergmail: string, password: string, passwordMatches: (string, string) -> bool,
                 signAccess: Signer, signRefresh: Signer)
      returns (r: Result<Session>)
      requires Valid()
      modifies this
      ensures Valid()
      ensures r.Failure? ==> r.error == InvalidCredentials && users == old(users)
      ensures !EmailTaken(old(users), usergmail) ==> r.Failure?
      ensures forall id: ObjectId | HasEmail(old(users), id, usergmail) ::
                var u := old(users)[id];
                if !passwordMatches(password, u.password) then r.Failure?
                else
                  var refresh := signRefresh(RefreshClaims(id));
                  && r == Success(Session(signAccess(AccessClaims(id, u.role)), refresh))
                  && users == old(users)[id := u.(refreshToken := Some(refresh))]
    {
      if id :| id in users && HasEmail(users, id, usergmail) {
        var u := users[id];
        if !passwordMatches(password, u.password) {
          return Failure(InvalidCredentials);
        }
        var token := signAccess(AccessClaims(id, u.role));
        var refresh := signRefresh(RefreshClaims(id));
        ReplaceKeepsValid(users, id, u.(refreshToken := Some(refresh)));
        users := users[id := u.(refreshToken := Some(refresh))];
        r := Success(Session(token, refresh));
        forall other | HasEmail(old(users), other, usergmail) ensures other == id {
          EmailOwnerUnique(old(users), usergmail, other, id);
        }
      } else {
        r := Failure(InvalidCredentials);
      }
    }

    /** `logout`: an unknown email fails, a user with no refresh token is
        "already logout", otherwise the refresh token is cleared. */
    method Logout(usergmail: string) returns (r: Result<()>)
      requires Valid()
      modifies this
      ensures Valid()
      ensures !EmailTaken(old(users), usergmail) ==> r == Failure(InvalidCredentials) && users == old(users)
      ensures forall id: ObjectId | HasEmail(old(users), id, usergmail) ::
                if !HasRefreshToken(old(users)[id]) then r == Failure(AlreadyLoggedOut) && users == old(users)
                else r == Success(()) && users == old(users)[id := old(users)[id].(refreshToken := None)]
    {
      if id :| id in users && HasEmail(users, id, usergmail) {
        var u := users[id];
        if !HasRefreshToken(u) {
          return Failure(AlreadyLoggedOut);
        }
        ReplaceKeepsValid(users, id, u.(refreshToken := None));
        users := users[id := u.(refreshToken := None)];
        r := Success(());
        forall other | HasEmail(old(users), other, usergmail) ensures other == id {
          EmailOwnerUnique(old(users), usergmail, other, id);
        }
      } else {
        r := Failure(InvalidCredentials);
      }
    }

    /** `forgotPassword`: an unknown email gives 404; otherwise a fresh
        six-digit OTP and its expiry two minutes from `now` are stored. The
        OTP is returned: it is what the mail and the SMS carry. */
    method ForgotPassword(usergmail: string, now: int, random: real) returns (r: Result<string>)
      requires Valid()
      requires 0.0 <= random < 1.0
      modifies this
      ensures Valid()
      ensures !EmailTaken(old(users), usergmail) ==> r == Failure(UserNotFound) && users == old(users)
      ensures forall id: ObjectId | HasEmail(old(users), id, usergmail) ::
                && r == Success(OtpText(random))
                && users == old(users)[id := old(users)[id].(otp := Some(OtpText(random)),
                                                             otpExpires := Some(now + OtpLifetime))]
    {
      if id :| id in users && HasEmail(users, id, usergmail) {
        var otp := OtpText(random);
        var issued := users[id].(otp := Some(otp), otpExpires := Some(now + OtpLifetime));
        ReplaceKeepsValid(users, id, issued);
        users := users[id := issued];
        r := Success(otp);
        forall other | HasEmail(old(users), other, usergmail) ensures other == id {
          EmailOwnerUnique(old(users), usergmail, other, id);
        }
      } else {
        r := Failure(UserNotFound);
      }
    }

    /** `resetPassword`: an unknown email gives 404; the OTP is checked
        before its expiry (OtpDecision); on success the password is replaced
        by the hash of the new one and both OTP fields are cleared, so the
        same OTP cannot be used twice. */
    method ResetPassword(usergmail: string, otp: Option<string>, newPassword: string, now: int,
                         hash: string -> string)
      returns (r: Result<()>)
      requires Valid()
      modifies this
      ensures Valid()
      ensures !EmailTaken(old(users), usergmail) ==> r == Failure(UserNotFound) && users == old(users)
      ensures forall id: ObjectId | HasEmail(old(users), id, usergmail) ::
                var u := old(users)[id];
                var reset := u.(password := hash(newPassword), otp := None, otpExpires := None);
                match OtpDecision(u.otp, u.otpExpires, otp, now)
                case Some(e) => r == Failure(e) && users == old(users)
                case None =>
                  if !ValidUser(reset) then r == Failure(ValidationError) && users == old(users)
                  else r == Success(()) && users == old(users)[id := reset]
    {
      if id :| id in users && HasEmail(users, id, usergmail) {
        var u := users[id];
        var decision := OtpDecision(u.otp, u.otpExpires, otp, now);
        forall other | HasEmail(old(users), other, usergmail) ensures other == id {
          EmailOwnerUnique(old(users), usergmail, other, id);
        }
        if decision.Some? {
          return Failure(decision.value);
        }
        var reset := u.(password := hash(newPassword), otp := None, otpExpires := None);
        if !ValidUser(reset) {
          return Failure(ValidationError);
        }
        ReplaceKeepsValid(users, id, reset);
        users := users[id := reset];
        r := Success(());
      } else {
        r := Failure(UserNotFound);
      }
    }
  }

  /** A second logout in a row is refused. */
  method LogoutTwice(store: UserStore, usergmail: string) returns (first: Result<()>, second: Result<()>)
    requires store.Valid()
    modifies store
    ensures store.Valid()
    ensures second.Failure?
  {
    first := store.Logout(usergmail);
    second := store.Logout(usergmail);
  }

  /** Replaying the OTP of a successful reset is refused as invalid. */
  method ResetReplay(store: UserStore, usergmail: string, otp: string, newPassword: string, now: int,
                     hash: string -> string)
    returns (first: Result<()>, second: Result<()>)
    requires store.Valid()
    modifies store
    ensures store.Valid()
    ensures first.Success? ==> second == Failure(OtpInvalid)
  {
    ghost var before := store.users;
    first := store.ResetPassword(usergmail, Some(otp), newPassword, now, hash);
    ghost var between := store.users;
    second := store.ResetPassword(usergmail, Some(otp), newPassword, now, hash);
    if first.Success? {
      ghost var id :| HasEmail(before, id, usergmail);
      assert HasEmail(between, id, usergmail) && between[id].otp.None?;
    }
  }
}
