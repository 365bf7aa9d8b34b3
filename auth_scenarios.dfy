/**
 * Properties of the authentication controller that span several requests,
 * each stated as a sequence of handler calls on a store and the replies it
 * produces. Raw tokens are distinct random strings; where a scenario needs
 * their digests to differ it says so of `sha256`.
 */
module AuthScenarios {
  import opened Wrappers
  import JsString
  import Crypto
  import EmailValidator
  import opened Jwt
  import opened UserModel
  import opened SessionModel
  import opened RevokedTokenModel
  import opened AuthController

  /**
   * Registration, the mail link and the password step: for an e-mail no
   * account holds, the three succeed in turn and the login answer asks the
   * new account to enrol its second factor.
   */
  method RegisterVerifyLogin(store: AuthStore, name: string, email: string, password: string,
                             hasMxRecords: string -> bool, hashedPassword: string,
                             verificationToken: string, attemptToken: string, now: int)
    returns (registered: Reply, verified: Reply, loggedIn: Reply)
    requires store.Valid()
    requires name != "" && |password| >= 8
    requires EmailValidator.ValidateEmail(email) && EmailValidator.CheckEmailDomain(email, hasMxRecords)
    requires store.bcryptCompare(password + store.masterKeyHex, hashedPassword)
    requires store.UserByEmail(email).None?
    requires verificationToken != "" && store.TokenHashFree(store.Hash(verificationToken))
    requires store.SessionHashFree(store.Hash(attemptToken))
    modifies store
    ensures registered == Answer(201, "User registered. Please verify your email.")
    ensures verified == Answer(200, "Verification successful. You can now log in.")
    ensures loggedIn == Reply(200, "Enter your 2FA code.", SetLoginAttempt(attemptToken), None, Some(true))
    ensures store.Valid()
    ensures store.users.Keys == old(store.users.Keys) + {old(store.nextUserId)}
    ensures store.users[old(store.nextUserId)].isVerified && store.users[old(store.nextUserId)].require2FASetup
    ensures store.sessions == old(store.sessions)[old(store.nextSessionId) := LoginAttempt(old(store.nextUserId), store.Hash(attemptToken), now)]
    ensures store.nextSessionId == old(store.nextSessionId) + 1
    ensures store.AttemptByHash(store.Hash(attemptToken)) == Some(old(store.nextSessionId))
  {
    var uid := store.nextUserId;
    registered := store.RegisterUser(name, email, password, hasMxRecords, hashedPassword, verificationToken, now, true);
    assert store.users[uid].verificationTokenHash == Some(store.Hash(verificationToken));
    assert store.UserByTokenHash(store.Hash(verificationToken)) == Some(uid);
    verified := store.VerifyEmail(verificationToken, now);
    assert store.users[uid].email == email;
    assert store.UserByEmail(email) == Some(uid);
    var sid := store.nextSessionId;
    loggedIn := store.LoginUser(email, password, attemptToken, now);
    assert IsLoginAttempt(store.sessions[sid], store.Hash(attemptToken));
  }

  /**
   * Enrolment and the second factor: from a live login attempt whose user
   * has not enrolled yet, the QR step stores the secret, and a code valid
   * for that secret turns the attempt into a session. The access token
   * names the attempt's user and the new session.
   */
  method EnrolThenLogin2FA(store: AuthStore, attemptToken: string, secret: string, iv: seq<Crypto.Byte>,
                           otp: string, refreshToken: string, now: int)
    returns (enrolled: Reply, promoted: Reply)
    requires store.Valid() && Crypto.Sound(store.aead) && |store.masterKey| == Crypto.KEY_BYTES
    requires attemptToken != "" && store.AttemptByHash(store.Hash(attemptToken)).Some?
    requires var a := store.sessions[store.AttemptByHash(store.Hash(attemptToken)).value];
      a.userId in store.users && store.users[a.userId].require2FASetup
    requires |iv| == Crypto.IV_BYTES && secret != "" && store.totpVerify(JsString.Trim(secret), otp, now)
    requires store.SessionHashFree(store.Hash(refreshToken))
    modifies store
    ensures enrolled == Answer(201, "qr code generated.")
    ensures promoted == Reply(200, "Logged in.", SetRefreshToken(refreshToken),
      Some(Claims(old(store.sessions[store.AttemptByHash(store.Hash(attemptToken)).value].userId), old(store.nextSessionId))), None)
  {
    var sid := store.AttemptByHash(store.Hash(attemptToken)).value;
    var uid := store.sessions[sid].userId;
    enrolled := store.Generate2FAQr(attemptToken, secret, iv);
    Crypto.EncryptDecryptRoundTrip(store.aead, store.masterKey, iv, secret);
    assert store.AttemptByHash(store.Hash(attemptToken)) == Some(sid);
    promoted := store.Login2FA(attemptToken, otp, None, None, None, refreshToken, now);
  }

  /**
   * The whole sign-up from an empty store under a hexadecimal `MASTER_KEY`:
   * register, follow the mail link, log in with the password, enrol, and log
   * in with a valid code. The
   * access token names the first user and the session that replaced the
   * login attempt.
   */
  method SignUpFromEmptyStore(sha256: string -> Crypto.Digest, bcryptCompare: (string, string) -> bool,
                              totpVerify: (string, string, int) -> bool, aead: Crypto.Aead, masterKeyHex: string,
                              name: string, email: string, password: string, hasMxRecords: string -> bool,
                              hashedPassword: string, verificationToken: string, attemptToken: string,
                              secret: string, iv: seq<Crypto.Byte>, otp: string, refreshToken: string, now: int)
    returns (registered: Reply, verified: Reply, loggedIn: Reply, enrolled: Reply, promoted: Reply)
    requires Crypto.LoadMasterKey(masterKeyHex).Success? && Crypto.IsHex(masterKeyHex) && Crypto.Sound(aead)
    requires name != "" && |password| >= 8
    requires EmailValidator.ValidateEmail(email) && EmailValidator.CheckEmailDomain(email, hasMxRecords)
    requires bcryptCompare(password + masterKeyHex, hashedPassword)
    requires verificationToken != "" && attemptToken != ""
    requires sha256(refreshToken) != sha256(attemptToken)
    requires |iv| == Crypto.IV_BYTES && secret != "" && totpVerify(JsString.Trim(secret), otp, now)
    ensures registered == Answer(201, "User registered. Please verify your email.")
    ensures verified == Answer(200, "Verification successful. You can now log in.")
    ensures loggedIn == Reply(200, "Enter your 2FA code.", SetLoginAttempt(attemptToken), None, Some(true))
    ensures enrolled == Answer(201, "qr code generated.")
    ensures promoted == Reply(200, "Logged in.", SetRefreshToken(refreshToken), Some(Claims(0, 1)), None)
  {
    var store := new AuthStore(sha256, bcryptCompare, totpVerify, aead, masterKeyHex, DEFAULT_REFRESH_TTL_DAYS);
    registered, verified, loggedIn :=
      RegisterVerifyLogin(store, name, email, password, hasMxRecords, hashedPassword, verificationToken, attemptToken, now);
    assert store.Hash(refreshToken) != store.Hash(attemptToken);
    assert store.sessions.Keys == {0} && store.users.Keys == {0};
    enrolled, promoted := EnrolThenLogin2FA(store, attemptToken, secret, iv, otp, refreshToken, now);
  }

  /**
   * Rotation, then reuse: refreshing with a live session's token succeeds
   * once; presenting the same token again revokes every session of its
   * user, the rotated one included, though it holds the new digest.
   */
  method RotationThenReuse(store: AuthStore, raw: string, next: string, unused: string, now: int)
    returns (rotated: Reply, replayed: Reply)
    requires store.Valid()
    requires raw != "" && store.SessionByHash(store.Hash(raw)).Some?
    requires var s := store.sessions[store.SessionByHash(store.Hash(raw)).value]; !s.revoked && !(s.expiresAt < now)
    // Tombstones are a bag with no unique index: an older tombstone for the
    // same digest would be the one the replay finds, and its owner would be
    // the user whose sessions are revoked. The token must not be tombstoned yet.
    requires FindByHash(store.revokedTokens, store.Hash(raw)).None?
    requires store.SessionHashFree(store.Hash(next)) && store.SessionHashFree(store.Hash(unused))
    requires store.sha256(next) != store.sha256(unused)
    modifies store
    ensures rotated.status == 200
    ensures rotated.accessToken == Some(Claims(old(store.sessions[store.SessionByHash(store.Hash(raw)).value].userId),
                                               old(store.SessionByHash(store.Hash(raw)).value)))
    ensures replayed == Answer(401, "Token reuse detected. All sessions revoked.")
    ensures forall sid :: sid in store.sessions && store.sessions[sid].userId == rotated.accessToken.value.sub ==>
              store.sessions[sid].revoked
  {
    var sid := store.SessionByHash(store.Hash(raw)).value;
    var uid := store.sessions[sid].userId;
    rotated := store.RefreshToken(raw, next, now);
    assert store.Hash(next) != store.Hash(unused);
    assert store.revokedTokens[|store.revokedTokens| - 1] == NewRevokedToken(store.Hash(raw), uid, old(store.sessions[sid].expiresAt), now);
    var t := FindByHash(store.revokedTokens, store.Hash(raw));
    assert t == Some(|store.revokedTokens| - 1);
    replayed := store.RefreshToken(raw, unused, now);
  }

  /**
   * Logout keeps the digest on the revoked session, so replaying the
   * logged-out token is answered "Session revoked." and reuse detection is
   * never reached.
   */
  method LogoutThenReplay(store: AuthStore, raw: string, next: string, now: int)
    returns (loggedOut: Reply, replayed: Reply)
    requires store.Valid()
    requires raw != "" && store.SessionByHash(store.Hash(raw)).Some?
    requires store.SessionHashFree(store.Hash(next))
    modifies store
    ensures loggedOut == Reply(200, "Logged out.", ClearRefreshToken, None, None)
    ensures replayed == Answer(401, "Session revoked.")
  {
    var sid := store.SessionByHash(store.Hash(raw)).value;
    loggedOut := store.LogoutUser(raw, now);
    assert store.sessions[sid].refreshTokenHash == store.Hash(raw) && store.sessions[sid].revoked;
    assert store.SessionByHash(store.Hash(raw)) == Some(sid);
    replayed := store.RefreshToken(raw, next, now);
  }

  /**
   * The refresh lookup does not look at the device: the `login_attempt`
   * token that a correct password earns can be presented as a refresh
   * token, and it is rotated into an access token without any second factor.
   */
  method AttemptTokenRefreshes(store: AuthStore, email: string, password: string,
                               attemptToken: string, next: string, now: int)
    returns (loggedIn: Reply, refreshed: Reply)
    requires store.Valid()
    requires email != "" && password != "" && attemptToken != ""
    requires store.UserByEmail(email).Some?
    requires var u := store.users[store.UserByEmail(email).value];
      u.isVerified && store.bcryptCompare(password + store.masterKeyHex, u.password)
    requires store.SessionHashFree(store.Hash(attemptToken)) && store.SessionHashFree(store.Hash(next))
    requires store.sha256(attemptToken) != store.sha256(next)
    modifies store
    ensures loggedIn.status == 200 && loggedIn.accessToken == None
    ensures refreshed.status == 200
    ensures refreshed.accessToken == Some(Claims(old(store.UserByEmail(email)).value, old(store.nextSessionId)))
  {
    var uid := store.UserByEmail(email).value;
    var sid := store.nextSessionId;
    loggedIn := store.LoginUser(email, password, attemptToken, now);
    assert store.sessions[sid].refreshTokenHash == store.Hash(attemptToken);
    assert store.SessionByHash(store.Hash(attemptToken)) == Some(sid);
    assert store.Hash(attemptToken) != store.Hash(next);
    refreshed := store.RefreshToken(attemptToken, next, now);
  }

  /**
   * A login attempt does not expire on its own: past its five minutes it
   * still admits re-authentication (with any code at all), and only the TTL
   * sweep past its expiry makes it unknown.
   */
  method AttemptExpiresOnlyBySweep(store: AuthStore, attemptToken: string, anyOtp: string,
                                   token: string, nextToken: string, later: int)
    returns (before: Reply, after: Reply)
    requires store.Valid()
    requires attemptToken != "" && store.AttemptByHash(store.Hash(attemptToken)).Some?
    requires var a := store.sessions[store.AttemptByHash(store.Hash(attemptToken)).value];
      a.userId in store.users && a.expiresAt < later
    requires store.TokenHashFree(store.Hash(token)) && store.TokenHashFree(store.Hash(nextToken))
    requires store.sha256(token) != store.sha256(nextToken)
    modifies store
    ensures before == Answer(200, "Reauthenticated.")
    ensures after == Answer(400, "Invalid or expired login attempt.")
  {
    var sid := store.AttemptByHash(store.Hash(attemptToken)).value;
    before := store.Reauth(attemptToken, anyOtp, token, later, true);
    assert store.Hash(token) != store.Hash(nextToken);
    store.PurgeExpired(later);
    assert forall k :: k in store.sessions ==> store.sessions[k].refreshTokenHash != store.Hash(attemptToken);
    after := store.Reauth(attemptToken, anyOtp, nextToken, later, true);
  }

  /** A verification token works once: the second use finds no holder. */
  method VerificationTokenSingleUse(store: AuthStore, token: string, now: int)
    returns (first: Reply, second: Reply)
    requires store.Valid()
    modifies store
    ensures first.status == 200 ==> second == Answer(400, INVALID_VERIFICATION_TOKEN)
  {
    first := store.VerifyEmail(token, now);
    second := store.VerifyEmail(token, now);
  }

  /** A password-reset link works once. */
  method ResetTokenSingleUse(store: AuthStore, token: string, hashedPassword: string, now: int)
    returns (first: Reply, second: Reply)
    requires store.Valid()
    modifies store
    ensures first.status == 200 ==> second == Answer(400, "Invalid or expired token.")
  {
    first := store.ConfirmPasswordChange(token, hashedPassword, now);
    second := store.ConfirmPasswordChange(token, hashedPassword, now);
  }

  /**
   * The password-reset token lands in the verification slot, so following
   * it at the e-mail verification endpoint verifies the account and reopens
   * 2FA enrolment, without any password change.
   */
  method ResetTokenVerifiesEmail(store: AuthStore, email: string, token: string, now: int)
    returns (requested: Reply, verified: Reply)
    requires store.Valid()
    requires email != "" && token != "" && store.UserByEmail(email).Some?
    requires store.TokenHashFree(store.Hash(token))
    modifies store
    ensures requested == Answer(200, "Password change email sent.")
    ensures verified == Answer(200, "Verification successful. You can now log in.")
    ensures var uid := old(store.UserByEmail(email)).value;
      && uid in store.users
      && store.users[uid] == Verified(old(store.users)[uid])
      && store.users[uid].isVerified && store.users[uid].require2FASetup
  {
    var uid := store.UserByEmail(email).value;
    requested := store.RequestPasswordChange(email, token, now, true);
    assert store.users[uid].verificationTokenHash == Some(store.Hash(token));
    assert store.UserByTokenHash(store.Hash(token)) == Some(uid);
    verified := store.VerifyEmail(token, now);
  }
}
