/**
 * The authentication controller (backend/src/controllers/authController.ts):
 * registration with e-mail verification, password login followed by a TOTP
 * second factor, refresh-token rotation with reuse detection, logout,
 * session listing and revocation, password reset and re-authentication.
 *
 * The three collections it writes (users, sessions, revoked tokens) are the
 * fields of one `AuthStore`; every handler is a method on it. What the
 * handler reads from the request is a parameter, what it sends back is a
 * `Reply`. Randomness (tokens, the TOTP secret, the iv, bcrypt's salt) and
 * the clock are parameters; the outcome of sending mail is the flag
 * `mailSent`. SHA-256, bcrypt's compare, TOTP verification and AES-GCM are
 * foreign code, held as the store's constants.
 */
module AuthController {
  import opened Wrappers
  import JsString
  import Crypto
  import EmailValidator
  import Mongo
  import opened Jwt
  import opened UserModel
  import opened SessionModel
  import opened RevokedTokenModel

  const VERIFICATION_TOKEN_EXPIRY_MS := 15 * 60 * 1000
  const LOGIN_ATTEMPT_TTL_MS := 5 * 60 * 1000
  const DEFAULT_REFRESH_TTL_DAYS := 30
  const DAY_MS := 24 * 60 * 60 * 1000

  const INVALID_VERIFICATION_TOKEN := "Invalid or expired token.<br> Please register again, to get a new verification email."

  /** What a handler does to the `login_attempt` and `refresh_token` cookies. */
  datatype Cookie =
    | NoCookie
    | SetLoginAttempt(raw: string)
    | SetRefreshToken(raw: string)
    | ClearRefreshToken

  /**
   * A response: status, message ("" where the body has none), cookie change,
   * the claims of an issued access token, and the `require2FASetup` flag of
   * the login answer.
   */
  datatype Reply = Reply(status: int, message: string, cookie: Cookie,
                         accessToken: Option<Claims>, require2FASetup: Option<bool>)

  /** A reply that carries only a status and a message. */
  function Answer(status: int, message: string): Reply
  {
    Reply(status, message, NoCookie, None, None)
  }

  /** The document `registerUser` saves. */
  function Unverified(name: string, email: string, hashedPassword: string, tokenHash: string, expiry: int): User
  {
    NewUser(name, email, hashedPassword).(twoFASecret := Some(""),
      verificationTokenHash := Some(tokenHash), verificationTokenExpiry := Some(expiry))
  }

  /** A user after a successful `verifyEmail`: verified, slot cleared, 2FA enrolment reopened. */
  function Verified(u: User): User
  {
    u.(isVerified := true, verificationTokenHash := None, verificationTokenExpiry := None, require2FASetup := true)
  }

  /** A user whose token slot holds a newly issued token. */
  function Reissued(u: User, tokenHash: string, expiry: int): User
  {
    u.(verificationTokenHash := Some(tokenHash), verificationTokenExpiry := Some(expiry))
  }

  /** The five-minute session record that stands for a password-verified login. */
  function LoginAttempt(userId: UserId, attemptHash: string, now: int): Session
  {
    NewSession(userId, attemptHash, now, now + LOGIN_ATTEMPT_TTL_MS, None, None, Some(LOGIN_ATTEMPT))
  }

  /** `req.body.deviceName || "Unknown"`: a missing or empty name falls back to "Unknown". */
  function DeviceLabel(deviceName: Option<string>): (shown: string)
    ensures shown != ""
    ensures deviceName.Some? && deviceName.value != "" ==> shown == deviceName.value
    ensures deviceName.None? || deviceName.value == "" ==> shown == "Unknown"
  {
    match deviceName
    case Some(d) => if d == "" then "Unknown" else d
    case None => "Unknown"
  }

  /** The users table: ids below the counter, the unique e-mail index, one holder per token digest. */
  ghost predicate UsersValid(users: map<UserId, User>, nextUserId: nat)
  {
    && (forall uid :: uid in users ==> uid < nextUserId)
    && EmailsUnique(users)
    && TokenHashesUnique(users)
    && (forall uid :: uid in users ==> SlotConsistent(users[uid]))
  }

  /** The sessions table: ids below the counter and the unique digest index. */
  ghost predicate SessionsValid(sessions: map<SessionId, Session>, nextSessionId: nat)
  {
    && (forall sid :: sid in sessions ==> sid < nextSessionId)
    && HashesUnique(sessions)
  }

  /** Saving a new user whose e-mail and token digest are not taken keeps the table valid. */
  lemma InsertUserValid(users: map<UserId, User>, nextUserId: nat, u: User)
    requires UsersValid(users, nextUserId)
    requires SlotConsistent(u)
    requires forall uid :: uid in users ==> users[uid].email != u.email
    requires u.verificationTokenHash.Some? ==>
      forall uid :: uid in users ==> users[uid].verificationTokenHash != u.verificationTokenHash
    ensures UsersValid(users[nextUserId := u], nextUserId + 1)
  {
  }

  /** Deleting a user keeps the table valid. */
  lemma RemoveUserValid(users: map<UserId, User>, nextUserId: nat, uid: UserId)
    requires UsersValid(users, nextUserId)
    ensures UsersValid(users - {uid}, nextUserId)
  {
  }

  class AuthStore {
    var users: map<UserId, User>
    var sessions: map<SessionId, Session>
    var revokedTokens: seq<RevokedToken>
    /** The ids the store gives the next user and the next session. */
    var nextUserId: nat
    var nextSessionId: nat

    const sha256: string -> Crypto.Digest
    /** `bcrypt.compare(candidate, digest)`. */
    const bcryptCompare: (string, string) -> bool
    /** `speakeasy.totp.verify` with a window of one step: (base32 secret, code, now). */
    const totpVerify: (string, string, int) -> bool
    const aead: Crypto.Aead
    /** `MASTER_KEY`: the pepper appended to passwords and, decoded, the AES key. */
    const masterKeyHex: string
    const masterKey: seq<Crypto.Byte>
    const refreshTtlMs: int

    /** The invariant every handler keeps. */
    ghost predicate Valid()
      reads this
    {
      UsersValid(users, nextUserId) && SessionsValid(sessions, nextSessionId)
    }

    /** `sha256Hex`: the digest under which the store keeps a raw token. */
    function Hash(raw: string): (h: string)
      ensures |h| == 64 && Crypto.HexDecode(h) == sha256(raw)
    {
      Crypto.Sha256Hex(sha256, raw)
    }

    /** `User.findOne({ email })`. */
    function UserByEmail(email: string): (r: Option<UserId>)
      reads this
      ensures r.Some? ==> r.value in users && users[r.value].email == email
      ensures r.None? ==> forall uid :: uid in users && uid < nextUserId ==> users[uid].email != email
    {
      Mongo.FindOne(users, nextUserId, (u: User) => u.email == email)
    }

    /** `User.findOne({ verificationTokenHash })`. */
    function UserByTokenHash(tokenHash: string): (r: Option<UserId>)
      reads this
      ensures r.Some? ==> r.value in users && users[r.value].verificationTokenHash == Some(tokenHash)
      ensures r.None? ==> forall uid :: uid in users && uid < nextUserId ==> users[uid].verificationTokenHash != Some(tokenHash)
    {
      Mongo.FindOne(users, nextUserId, (u: User) => u.verificationTokenHash == Some(tokenHash))
    }

    /** `Session.findOne({ refreshTokenHash })`. */
    function SessionByHash(hash: string): (r: Option<SessionId>)
      reads this
      ensures r.Some? ==> r.value in sessions && sessions[r.value].refreshTokenHash == hash
      ensures r.Some? ==> forall sid :: sid in sessions && sid < r.value ==> sessions[sid].refreshTokenHash != hash
      ensures r.None? ==> forall sid :: sid in sessions && sid < nextSessionId ==> sessions[sid].refreshTokenHash != hash
    {
      Mongo.FindOne(sessions, nextSessionId, (s: Session) => s.refreshTokenHash == hash)
    }

    /** `Session.findOne({ refreshTokenHash, deviceName: "login-attempt", revoked: false })`. */
    function AttemptByHash(hash: string): (r: Option<SessionId>)
      reads this
      ensures r.Some? ==> r.value in sessions && IsLoginAttempt(sessions[r.value], hash)
      ensures r.Some? ==> forall sid :: sid in sessions && sid < r.value ==> !IsLoginAttempt(sessions[sid], hash)
      ensures r.None? ==> forall sid :: sid in sessions && sid < nextSessionId ==> !IsLoginAttempt(sessions[sid], hash)
    {
      Mongo.FindOne(sessions, nextSessionId, (s: Session) => IsLoginAttempt(s, hash))
    }

    /** No user holds this verification-token digest. */
    predicate TokenHashFree(tokenHash: string)
      reads this
    {
      forall uid :: uid in users ==> users[uid].verificationTokenHash != Some(tokenHash)
    }

    /** No session holds this refresh-token digest. */
    predicate SessionHashFree(hash: string)
      reads this
    {
      forall sid :: sid in sessions ==> sessions[sid].refreshTokenHash != hash
    }

    /**
     * The store at start-up. The module that holds the key refuses to load
     * unless `MASTER_KEY` has 64 characters; the refresh lifetime is
     * `REFRESH_TOKEN_TTL_DAYS` days.
     */
    constructor (sha256: string -> Crypto.Digest, bcryptCompare: (string, string) -> bool,
                 totpVerify: (string, string, int) -> bool, aead: Crypto.Aead,
                 masterKeyHex: string, refreshTtlDays: int)
      requires Crypto.LoadMasterKey(masterKeyHex).Success?
      ensures Valid()
      ensures users == map[] && sessions == map[] && revokedTokens == []
      ensures nextUserId == 0 && nextSessionId == 0
      ensures this.sha256 == sha256 && this.bcryptCompare == bcryptCompare
      ensures this.totpVerify == totpVerify && this.aead == aead
      ensures this.masterKeyHex == masterKeyHex
      ensures masterKey == Crypto.LoadMasterKey(masterKeyHex).value
      ensures refreshTtlMs == refreshTtlDays * DAY_MS
    {
      users := map[];
      sessions := map[];
      revokedTokens := [];
      nextUserId := 0;
      nextSessionId := 0;
      this.sha256 := sha256;
      this.bcryptCompare := bcryptCompare;
      this.totpVerify := totpVerify;
      this.aead := aead;
      this.masterKeyHex := masterKeyHex;
      masterKey := Crypto.LoadMasterKey(masterKeyHex).value;
      refreshTtlMs := refreshTtlDays * DAY_MS;
    }

    /**
     * `registerUser`. `hashedPassword` is bcrypt's digest of the password
     * with the pepper appended, `token` the fresh verification token. A
     * stale unverified account with the same e-mail is deleted before the
     * password-length check, so a weak password still removes it.
     */
    method RegisterUser(name: string, email: string, password: string, hasMxRecords: string -> bool,
                        hashedPassword: string, token: string, now: int, mailSent: bool)
      returns (r: Reply)
      requires Valid()
      requires TokenHashFree(Hash(token))
      modifies this
      ensures Valid()
      ensures sessions == old(sessions) && revokedTokens == old(revokedTokens)
      ensures nextSessionId == old(nextSessionId)
      ensures
        var existing := old(UserByEmail(email));
        if name == "" || email == "" || password == "" then
          r == Answer(400, "All fields required.") && users == old(users) && nextUserId == old(nextUserId)
        else if !EmailValidator.ValidateEmail(email) then
          r == Answer(400, "Invalid email format.") && users == old(users) && nextUserId == old(nextUserId)
        else if !EmailValidator.CheckEmailDomain(email, hasMxRecords) then
          r == Answer(400, "Invalid email domain.") && users == old(users) && nextUserId == old(nextUserId)
        else if existing.Some? && old(users)[existing.value].isVerified then
          r == Answer(400, "Email already registered.") && users == old(users) && nextUserId == old(nextUserId)
        else
          var kept := if existing.Some? then old(users) - {existing.value} else old(users);
          if |password| < 8 then
            r == Answer(400, "Password too weak.") && users == kept && nextUserId == old(nextUserId)
          else
            && users == kept[old(nextUserId) := Unverified(name, email, hashedPassword, Hash(token), now + VERIFICATION_TOKEN_EXPIRY_MS)]
            && nextUserId == old(nextUserId) + 1
            && r == (if mailSent then Answer(201, "User registered. Please verify your email.")
                     else Answer(500, "Failed to send verification email."))
    {
      if name == "" || email == "" || password == "" {
        return Answer(400, "All fields required.");
      }
      if !EmailValidator.ValidateEmail(email) {
        return Answer(400, "Invalid email format.");
      }
      if !EmailValidator.CheckEmailDomain(email, hasMxRecords) {
        return Answer(400, "Invalid email domain.");
      }
      var existing := UserByEmail(email);
      if existing.Some? && users[existing.value].isVerified {
        return Answer(400, "Email already registered.");
      }
      // `deleteOne({ email, isVerified: false })`; by the unique index the
      // only candidate is the user just found.
      if existing.Some? {
        RemoveUserValid(users, nextUserId, existing.value);
        users := users - {existing.value};
      }
      if |password| < 8 {
        return Answer(400, "Password too weak.");
      }
      var created := Unverified(name, email, hashedPassword, Hash(token), now + VERIFICATION_TOKEN_EXPIRY_MS);
      InsertUserValid(users, nextUserId, created);
      users := users[nextUserId := created];
      nextUserId := nextUserId + 1;
      if !mailSent {
        return Answer(500, "Failed to send verification email.");
      }
      return Answer(201, "User registered. Please verify your email.");
    }

    /**
     * `verifyEmail`: the holder of an unexpired token becomes verified, its
     * slot is cleared and 2FA enrolment is reopened. The token slot is the
     * one password reset and re-authentication also fill.
     */
    method VerifyEmail(token: string, now: int) returns (r: Reply)
      requires Valid()
      modifies this
      ensures Valid()
      ensures sessions == old(sessions) && revokedTokens == old(revokedTokens)
      ensures nextUserId == old(nextUserId) && nextSessionId == old(nextSessionId)
      ensures
        var holder := old(UserByTokenHash(Hash(token)));
        if token == "" then
          r == Answer(400, "Token missing.") && users == old(users)
        else if holder.None? then
          r == Answer(400, INVALID_VERIFICATION_TOKEN) && users == old(users)
        else if !TokenUsable(old(users)[holder.value], now) then
          r == Answer(400, "Token expired.") && users == old(users)
        else
          && r == Answer(200, "Verification successful. You can now log in.")
          && users == old(users)[holder.value := Verified(old(users)[holder.value])]
      ensures r.status == 200 ==> TokenHashFree(Hash(token))
    {
      if token == "" {
        return Answer(400, "Token missing.");
      }
      var holder := UserByTokenHash(Hash(token));
      if holder.None? {
        return Answer(400, INVALID_VERIFICATION_TOKEN);
      }
      var u := users[holder.value];
      if u.verificationTokenExpiry.None? || u.verificationTokenExpiry.value < now {
        return Answer(400, "Token expired.");
      }
      users := users[holder.value := Verified(u)];
      return Answer(200, "Verification successful. You can now log in.");
    }

    /** `resendVerification`: a new token for an unverified account. */
    method ResendVerification(email: string, token: string, now: int, mailSent: bool) returns (r: Reply)
      requires Valid()
      requires TokenHashFree(Hash(token))
      modifies this
      ensures Valid()
      ensures sessions == old(sessions) && revokedTokens == old(revokedTokens)
      ensures nextUserId == old(nextUserId) && nextSessionId == old(nextSessionId)
      ensures
        var holder := old(UserByEmail(email));
        if email == "" then
          r == Answer(400, "Email required.") && users == old(users)
        else if !EmailValidator.ValidateEmail(email) then
          r == Answer(400, "Invalid email.") && users == old(users)
        else if holder.None? then
          r == Answer(404, "User not found.") && users == old(users)
        else if old(users)[holder.value].isVerified then
          r == Answer(400, "User already verified.") && users == old(users)
        else
          && users == old(users)[holder.value := Reissued(old(users)[holder.value], Hash(token), now + VERIFICATION_TOKEN_EXPIRY_MS)]
          && r == (if mailSent then Answer(200, "Verification email resent.")
                   else Answer(500, "Failed to send verification email."))
    {
      if email == "" {
        return Answer(400, "Email required.");
      }
      if !EmailValidator.ValidateEmail(email) {
        return Answer(400, "Invalid email.");
      }
      var holder := UserByEmail(email);
      if holder.None? {
        return Answer(404, "User not found.");
      }
      if users[holder.value].isVerified {
        return Answer(400, "User already verified.");
      }
      users := users[holder.value := Reissued(users[holder.value], Hash(token), now + VERIFICATION_TOKEN_EXPIRY_MS)];
      if !mailSent {
        return Answer(500, "Failed to send verification email.");
      }
      return Answer(200, "Verification email resent.");
    }

    /**
     * `loginUser`: after the password check, a login attempt is recorded
     * under the digest of the fresh `attemptToken`, which goes back in the
     * `login_attempt` cookie. No access token is issued here, and an unknown
     * e-mail and a wrong password get the same answer.
     */
    method LoginUser(email: string, password: string, attemptToken: string, now: int) returns (r: Reply)
      requires Valid()
      requires SessionHashFree(Hash(attemptToken))
      modifies this
      ensures Valid()
      ensures users == old(users) && revokedTokens == old(revokedTokens) && nextUserId == old(nextUserId)
      ensures r.accessToken == None
      ensures
        var holder := old(UserByEmail(email));
        if email == "" || password == "" then
          r == Answer(400, "Email and password required.") && sessions == old(sessions) && nextSessionId == old(nextSessionId)
        else if holder.None? then
          r == Answer(400, "Invalid credentials.") && sessions == old(sessions) && nextSessionId == old(nextSessionId)
        else if !old(users)[holder.value].isVerified then
          r == Answer(403, "Account not verified.") && sessions == old(sessions) && nextSessionId == old(nextSessionId)
        else if !bcryptCompare(password + masterKeyHex, old(users)[holder.value].password) then
          r == Answer(400, "Invalid credentials.") && sessions == old(sessions) && nextSessionId == old(nextSessionId)
        else
          && sessions == old(sessions)[old(nextSessionId) := LoginAttempt(holder.value, Hash(attemptToken), now)]
          && nextSessionId == old(nextSessionId) + 1
          && r == Reply(200, "Enter your 2FA code.", SetLoginAttempt(attemptToken), None,
                        Some(old(users)[holder.value].require2FASetup))
    {
      if email == "" || password == "" {
        return Answer(400, "Email and password required.");
      }
      var holder := UserByEmail(email);
      if holder.None? {
        return Answer(400, "Invalid credentials.");
      }
      var u := users[holder.value];
      if !u.isVerified {
        return Answer(403, "Account not verified.");
      }
      if !bcryptCompare(password + masterKeyHex, u.password) {
        return Answer(400, "Invalid credentials.");
      }
      sessions := sessions[nextSessionId := LoginAttempt(holder.value, Hash(attemptToken), now)];
      nextSessionId := nextSessionId + 1;
      return Reply(200, "Enter your 2FA code.", SetLoginAttempt(attemptToken), None, Some(u.require2FASetup));
    }

    /**
     * `requestPasswordChange`: a reset token in the same slot as the
     * verification token, for verified and unverified accounts alike. A
     * failure to send the mail is the handler's generic server error.
     */
    method RequestPasswordChange(email: string, token: string, now: int, mailSent: bool) returns (r: Reply)
      requires Valid()
      requires TokenHashFree(Hash(token))
      modifies this
      ensures Valid()
      ensures sessions == old(sessions) && revokedTokens == old(revokedTokens)
      ensures nextUserId == old(nextUserId) && nextSessionId == old(nextSessionId)
      ensures
        var holder := old(UserByEmail(email));
        if email == "" then
          r == Answer(400, "Email required.") && users == old(users)
        else if holder.None? then
          r == Answer(404, "User not found.") && users == old(users)
        else
          && users == old(users)[holder.value := Reissued(old(users)[holder.value], Hash(token), now + VERIFICATION_TOKEN_EXPIRY_MS)]
          && r == (if mailSent then Answer(200, "Password change email sent.") else Answer(500, "Server error."))
    {
      if email == "" {
        return Answer(400, "Email required.");
      }
      var holder := UserByEmail(email);
      if holder.None? {
        return Answer(404, "User not found.");
      }
      users := users[holder.value := Reissued(users[holder.value], Hash(token), now + VERIFICATION_TOKEN_EXPIRY_MS)];
      if !mailSent {
        return Answer(500, "Server error.");
      }
      return Answer(200, "Password change email sent.");
    }

    /**
     * `confirmPasswordChange`: the holder of an unexpired token gets the new
     * digest `hashedPassword` and an empty slot. Nothing else of the account
     * changes: it stays verified or unverified, and its sessions live on.
     */
    method ConfirmPasswordChange(token: string, hashedPassword: string, now: int) returns (r: Reply)
      requires Valid()
      modifies this
      ensures Valid()
      ensures sessions == old(sessions) && revokedTokens == old(revokedTokens)
      ensures nextUserId == old(nextUserId) && nextSessionId == old(nextSessionId)
      ensures
        var holder := old(UserByTokenHash(Hash(token)));
        if token == "" then
          r == Answer(400, "Missing token.") && users == old(users)
        else if holder.None? then
          r == Answer(400, "Invalid or expired token.") && users == old(users)
        else if !TokenUsable(old(users)[holder.value], now) then
          r == Answer(400, "This password reset link has expired.") && users == old(users)
        else
          && r == Answer(200, "Password Updated successfully")
          && users == old(users)[holder.value := old(users)[holder.value].(password := hashedPassword,
                                   verificationTokenHash := None, verificationTokenExpiry := None)]
      ensures r.status == 200 ==> TokenHashFree(Hash(token))
    {
      if token == "" {
        return Answer(400, "Missing token.");
      }
      var holder := UserByTokenHash(Hash(token));
      if holder.None? {
        return Answer(400, "Invalid or expired token.");
      }
      var u := users[holder.value];
      if u.verificationTokenExpiry.None? || u.verificationTokenExpiry.value < now {
        return Answer(400, "This password reset link has expired.");
      }
      users := users[holder.value := u.(password := hashedPassword, verificationTokenHash := None, verificationTokenExpiry := None)];
      return Answer(200, "Password Updated successfully");
    }

    /**
     * `generate2FAQr`: enrols the attempt's user once, storing the envelope
     * of the fresh base32 `secret` under the fresh `iv`. The attempt itself
     * is left in place. A master key that is not 32 bytes makes the
     * encryption throw, and the answer is the generic server error.
     */
    method Generate2FAQr(attemptToken: string, secret: string, iv: seq<Crypto.Byte>) returns (r: Reply)
      requires Valid()
      requires |iv| == Crypto.IV_BYTES
      modifies this
      ensures Valid()
      ensures sessions == old(sessions) && revokedTokens == old(revokedTokens)
      ensures nextUserId == old(nextUserId) && nextSessionId == old(nextSessionId)
      ensures
        var attempt := old(AttemptByHash(Hash(attemptToken)));
        if attemptToken == "" then
          r == Answer(400, "Missing login attempt.") && users == old(users)
        else if attempt.None? then
          r == Answer(400, "Invalid or expired login attempt.") && users == old(users)
        else
          var uid := old(sessions)[attempt.value].userId;
          if uid !in old(users) then
            r == Answer(400, "user not found.") && users == old(users)
          else if !old(users)[uid].require2FASetup then
            r == Answer(400, "2FA already set up.") && users == old(users)
          else match Crypto.EncryptText(aead, masterKey, iv, secret)
            case Failure(_) => r == Answer(500, "Server error.") && users == old(users)
            case Success(payload) =>
              && r == Answer(201, "qr code generated.")
              && users == old(users)[uid := old(users)[uid].(twoFASecret := Some(payload), require2FASetup := false)]
    {
      if attemptToken == "" {
        return Answer(400, "Missing login attempt.");
      }
      var attempt := AttemptByHash(Hash(attemptToken));
      if attempt.None? {
        return Answer(400, "Invalid or expired login attempt.");
      }
      var uid := sessions[attempt.value].userId;
      if uid !in users {
        return Answer(400, "user not found.");
      }
      if !users[uid].require2FASetup {
        return Answer(400, "2FA already set up.");
      }
      var encrypted := Crypto.EncryptText(aead, masterKey, iv, secret);
      if encrypted.Failure? {
        // `encryptText` throws: the handler's catch answers.
        return Answer(500, "Server error.");
      }
      users := users[uid := users[uid].(twoFASecret := Some(encrypted.value), require2FASetup := false)];
      return Answer(201, "qr code generated.");
    }

    /**
     * `login2FA`: a valid code for the attempt's user replaces the attempt
     * with a full session under the digest of the fresh `refreshToken`, and
     * issues an access token naming that user and that session.
     * `require2FASetup` is not consulted.
     */
    method Login2FA(attemptToken: string, otp: string, deviceName: Option<string>,
                    ip: Option<string>, userAgent: Option<string>, refreshToken: string, now: int)
      returns (r: Reply)
      requires Valid()
      requires SessionHashFree(Hash(refreshToken))
      modifies this
      ensures Valid()
      ensures users == old(users) && revokedTokens == old(revokedTokens) && nextUserId == old(nextUserId)
      ensures
        var attempt := old(AttemptByHash(Hash(attemptToken)));
        if attemptToken == "" then
          r == Answer(400, "Session timed out log in again") && sessions == old(sessions) && nextSessionId == old(nextSessionId)
        else if attempt.None? then
          r == Answer(400, "Invalid or expired login attempt.") && sessions == old(sessions) && nextSessionId == old(nextSessionId)
        else
          var uid := old(sessions)[attempt.value].userId;
          if uid !in users then
            r == Answer(400, "Invalid attempt.") && sessions == old(sessions) && nextSessionId == old(nextSessionId)
          else
            var secret := Crypto.DecryptText(aead, masterKey, users[uid].twoFASecret.GetOr(""));
            if secret.Failure? then
              r == Answer(500, "Server error.") && sessions == old(sessions) && nextSessionId == old(nextSessionId)
            else if !totpVerify(JsString.Trim(secret.value), otp, now) then
              r == Answer(400, "Invalid OTP.") && sessions == old(sessions) && nextSessionId == old(nextSessionId)
            else
              && sessions == (old(sessions) - {attempt.value})[old(nextSessionId) :=
                   NewSession(uid, Hash(refreshToken), now, now + refreshTtlMs, ip, userAgent, Some(DeviceLabel(deviceName)))]
              && nextSessionId == old(nextSessionId) + 1
              && r == Reply(200, "Logged in.", SetRefreshToken(refreshToken), Some(Claims(uid, old(nextSessionId))), None)
    {
      if attemptToken == "" {
        return Answer(400, "Session timed out log in again");
      }
      var attempt := AttemptByHash(Hash(attemptToken));
      if attempt.None? {
        return Answer(400, "Invalid or expired login attempt.");
      }
      var uid := sessions[attempt.value].userId;
      if uid !in users {
        return Answer(400, "Invalid attempt.");
      }
      var secret := Crypto.DecryptText(aead, masterKey, users[uid].twoFASecret.GetOr(""));
      if secret.Failure? {
        // `decryptText` throws: the handler's catch answers.
        return Answer(500, "Server error.");
      }
      if !totpVerify(JsString.Trim(secret.value), otp, now) {
        return Answer(400, "Invalid OTP.");
      }
      sessions := sessions - {attempt.value};
      var sid := nextSessionId;
      sessions := sessions[sid := NewSession(uid, Hash(refreshToken), now, now + refreshTtlMs, ip, userAgent, Some(DeviceLabel(deviceName)))];
      nextSessionId := nextSessionId + 1;
      return Reply(200, "Logged in.", SetRefreshToken(refreshToken), Some(Claims(uid, sid)), None);
    }

    /**
     * `refreshToken`: rotation. A live session's digest is replaced by that
     * of the fresh `newToken`, its old digest is tombstoned until the
     * session's old expiry, and a new access token is issued. A digest that
     * matches no session but a tombstone is reuse: every session of the
     * tombstone's owner is revoked. The session's device is not consulted.
     */
    method RefreshToken(raw: string, newToken: string, now: int) returns (r: Reply)
      requires Valid()
      requires SessionHashFree(Hash(newToken))
      modifies this
      ensures Valid()
      ensures users == old(users) && nextUserId == old(nextUserId) && nextSessionId == old(nextSessionId)
      ensures
        var found := old(SessionByHash(Hash(raw)));
        if raw == "" then
          r == Answer(200, "No refresh token.") && sessions == old(sessions) && revokedTokens == old(revokedTokens)
        else if found.None? then
          var tombstone := FindByHash(old(revokedTokens), Hash(raw));
          revokedTokens == old(revokedTokens) &&
          if tombstone.Some? then
            && r == Answer(401, "Token reuse detected. All sessions revoked.")
            && sessions == RevokeAllOf(old(sessions), old(revokedTokens)[tombstone.value].userId)
          else
            r == Answer(401, "Invalid session.") && sessions == old(sessions)
        else
          var s := old(sessions)[found.value];
          if s.revoked then
            r == Answer(401, "Session revoked.") && sessions == old(sessions) && revokedTokens == old(revokedTokens)
          else if s.expiresAt < now then
            r == Answer(401, "Session expired.") && sessions == old(sessions) && revokedTokens == old(revokedTokens)
          else
            && revokedTokens == old(revokedTokens) + [NewRevokedToken(s.refreshTokenHash, s.userId, s.expiresAt, now)]
            && sessions == old(sessions)[found.value := s.(refreshTokenHash := Hash(newToken), expiresAt := now + refreshTtlMs)]
            && r == Reply(200, "", SetRefreshToken(newToken), Some(Claims(s.userId, found.value)), None)
      ensures r.status == 200 && raw != "" ==> SessionHashFree(Hash(raw))
    {
      if raw == "" {
        return Answer(200, "No refresh token.");
      }
      var found := SessionByHash(Hash(raw));
      if found.None? {
        var tombstone := FindByHash(revokedTokens, Hash(raw));
        if tombstone.Some? {
          RevokeAllKeepsHashesUnique(sessions, revokedTokens[tombstone.value].userId);
          sessions := RevokeAllOf(sessions, revokedTokens[tombstone.value].userId);
          return Answer(401, "Token reuse detected. All sessions revoked.");
        }
        return Answer(401, "Invalid session.");
      }
      var s := sessions[found.value];
      if s.revoked {
        return Answer(401, "Session revoked.");
      }
      if s.expiresAt < now {
        return Answer(401, "Session expired.");
      }
      revokedTokens := revokedTokens + [NewRevokedToken(s.refreshTokenHash, s.userId, s.expiresAt, now)];
      sessions := sessions[found.value := s.(refreshTokenHash := Hash(newToken), expiresAt := now + refreshTtlMs)];
      return Reply(200, "", SetRefreshToken(newToken), Some(Claims(s.userId, found.value)), None);
    }

    /**
     * `logoutUser`: the cookie's session is marked revoked — its digest stays
     * in place — and the digest is tombstoned. The cookie is cleared and the
     * answer is the same whether or not a session matched.
     */
    method LogoutUser(raw: string, now: int) returns (r: Reply)
      requires Valid()
      modifies this
      ensures Valid()
      ensures users == old(users) && nextUserId == old(nextUserId) && nextSessionId == old(nextSessionId)
      ensures r == Reply(200, "Logged out.", ClearRefreshToken, None, None)
      ensures
        var found := old(SessionByHash(Hash(raw)));
        if raw == "" || found.None? then
          sessions == old(sessions) && revokedTokens == old(revokedTokens)
        else
          var s := old(sessions)[found.value];
          && sessions == old(sessions)[found.value := s.(revoked := true)]
          && revokedTokens == old(revokedTokens) + [NewRevokedToken(Hash(raw), s.userId, s.expiresAt, now)]
    {
      if raw != "" {
        var found := SessionByHash(Hash(raw));
        if found.Some? {
          var s := sessions[found.value];
          sessions := sessions[found.value := s.(revoked := true)];
          revokedTokens := revokedTokens + [NewRevokedToken(Hash(raw), s.userId, s.expiresAt, now)];
        }
      }
      return Reply(200, "Logged out.", ClearRefreshToken, None, None);
    }

    /**
     * `getSessions`: the caller's unrevoked sessions, login attempts
     * included, without their digests.
     */
    method GetSessions(authorization: Option<string>, verify: string -> Option<Claims>)
      returns (r: Reply, listed: map<SessionId, SessionView>)
      ensures BearerToken(authorization).None? ==> r == Answer(401, "Unauthorized.") && listed == map[]
      ensures BearerToken(authorization).Some? ==>
        match verify(BearerToken(authorization).value)
        case None => r == Answer(401, "Invalid token.") && listed == map[]
        case Some(claims) =>
          && r == Answer(200, "")
          && (forall sid :: sid in listed <==> sid in sessions && sessions[sid].userId == claims.sub && !sessions[sid].revoked)
          && (forall sid :: sid in listed ==> listed[sid] == View(sessions[sid]))
    {
      var token := BearerToken(authorization);
      if token.None? {
        return Answer(401, "Unauthorized."), map[];
      }
      var payload := verify(token.value);
      if payload.None? {
        return Answer(401, "Invalid token."), map[];
      }
      var userId := payload.value.sub;
      listed := map sid | sid in sessions && sessions[sid].userId == userId && !sessions[sid].revoked :: View(sessions[sid]);
      r := Answer(200, "");
    }

    /**
     * `revokeSession`: one of the caller's own sessions is revoked and its
     * digest tombstoned; another user's session is "not found".
     */
    method RevokeSession(authorization: Option<string>, verify: string -> Option<Claims>, sessionId: SessionId, now: int)
      returns (r: Reply)
      requires Valid()
      modifies this
      ensures Valid()
      ensures users == old(users) && nextUserId == old(nextUserId) && nextSessionId == old(nextSessionId)
      ensures BearerToken(authorization).None? ==>
        r == Answer(401, "Unauthorized.") && sessions == old(sessions) && revokedTokens == old(revokedTokens)
      ensures BearerToken(authorization).Some? ==>
        match verify(BearerToken(authorization).value)
        case None =>
          r == Answer(401, "Invalid token.") && sessions == old(sessions) && revokedTokens == old(revokedTokens)
        case Some(claims) =>
          if sessionId !in old(sessions) || old(sessions)[sessionId].userId != claims.sub then
            r == Answer(404, "Session not found.") && sessions == old(sessions) && revokedTokens == old(revokedTokens)
          else
            var s := old(sessions)[sessionId];
            && r == Answer(200, "Session revoked.")
            && sessions == old(sessions)[sessionId := s.(revoked := true)]
            && revokedTokens == old(revokedTokens) + [NewRevokedToken(s.refreshTokenHash, s.userId, s.expiresAt, now)]
    {
      var token := BearerToken(authorization);
      if token.None? {
        return Answer(401, "Unauthorized.");
      }
      var payload := verify(token.value);
      if payload.None? {
        return Answer(401, "Invalid token.");
      }
      if sessionId !in sessions || sessions[sessionId].userId != payload.value.sub {
        return Answer(404, "Session not found.");
      }
      var s := sessions[sessionId];
      sessions := sessions[sessionId := s.(revoked := true)];
      revokedTokens := revokedTokens + [NewRevokedToken(s.refreshTokenHash, s.userId, s.expiresAt, now)];
      return Answer(200, "Session revoked.");
    }

    /**
     * `reauth`: for the attempt's user, a new token in the verification slot
     * and a verification mail. The code `otp` is read but never checked.
     */
    method Reauth(attemptToken: string, otp: string, token: string, now: int, mailSent: bool) returns (r: Reply)
      requires Valid()
      requires TokenHashFree(Hash(token))
      modifies this
      ensures Valid()
      ensures sessions == old(sessions) && revokedTokens == old(revokedTokens)
      ensures nextUserId == old(nextUserId) && nextSessionId == old(nextSessionId)
      ensures
        var attempt := old(AttemptByHash(Hash(attemptToken)));
        if attemptToken == "" then
          r == Answer(400, "Session timed out log in again") && users == old(users)
        else if attempt.None? then
          r == Answer(400, "Invalid or expired login attempt.") && users == old(users)
        else
          var uid := old(sessions)[attempt.value].userId;
          if uid !in old(users) then
            r == Answer(400, "Invalid attempt.") && users == old(users)
          else
            && users == old(users)[uid := Reissued(old(users)[uid], Hash(token), now + VERIFICATION_TOKEN_EXPIRY_MS)]
            && r == (if mailSent then Answer(200, "Reauthenticated.") else Answer(500, "Failed to send verification email."))
    {
      if attemptToken == "" {
        return Answer(400, "Session timed out log in again");
      }
      var attempt := AttemptByHash(Hash(attemptToken));
      if attempt.None? {
        return Answer(400, "Invalid or expired login attempt.");
      }
      var uid := sessions[attempt.value].userId;
      if uid !in users {
        return Answer(400, "Invalid attempt.");
      }
      users := users[uid := Reissued(users[uid], Hash(token), now + VERIFICATION_TOKEN_EXPIRY_MS)];
      if !mailSent {
        return Answer(500, "Failed to send verification email.");
      }
      return Answer(200, "Reauthenticated.");
    }

    /**
     * The TTL indexes: sessions and login attempts past `expiresAt` and
     * tombstones past `expireAt` are removed. This is the only place a login
     * attempt expires; the handlers' attempt lookups never read its expiry.
     */
    method PurgeExpired(now: int)
      requires Valid()
      modifies this
      ensures Valid()
      ensures users == old(users) && nextUserId == old(nextUserId) && nextSessionId == old(nextSessionId)
      ensures sessions == SweepSessions(old(sessions), now)
      ensures revokedTokens == SweepTombstones(old(revokedTokens), now)
    {
      sessions := SweepSessions(sessions, now);
      revokedTokens := SweepTombstones(revokedTokens, now);
    }
  }
}
