/** The user document (backend/src/models/userModel.ts). */
module UserModel {
  import opened Wrappers

  /** Document ids; the store hands them out in increasing order. */
  type UserId = nat

  /**
   * `password` holds the bcrypt digest, `twoFASecret` the envelope payload of
   * the TOTP seed, and the verification-token slot the SHA-256 hex digest of
   * the emailed token with its expiry in milliseconds.
   */
  datatype User = User(
    name: string,
    email: string,
    password: string,
    twoFASecret: Option<string>,
    isVerified: bool,
    verificationTokenHash: Option<string>,
    verificationTokenExpiry: Option<int>,
    require2FASetup: bool)

  /**
   * A new document from the required fields alone: the schema's defaults
   * leave it unverified, with 2FA setup pending, an empty token slot and no
   * second-factor secret.
   */
  function NewUser(name: string, email: string, password: string): (u: User)
    ensures u.name == name && u.email == email && u.password == password
    ensures !u.isVerified && u.require2FASetup
    ensures u.verificationTokenHash == None && u.verificationTokenExpiry == None
    ensures u.twoFASecret == None
    ensures HasRequiredFields(u) <==> name != "" && email != "" && password != ""
  {
    User(name, email, password, None, false, None, None, true)
  }

  /** Mongoose's `required` refuses a missing or empty string. */
  predicate HasRequiredFields(u: User)
  {
    u.name != "" && u.email != "" && u.password != ""
  }

  /** The unique index on `email`. */
  ghost predicate EmailsUnique(users: map<UserId, User>)
  {
    forall a, b :: a in users && b in users && users[a].email == users[b].email ==> a == b
  }

  /**
   * No two users hold the same verification-token digest. The schema has no
   * index for it; it holds because every issued token is fresh randomness.
   */
  ghost predicate TokenHashesUnique(users: map<UserId, User>)
  {
    forall a, b ::
      (a in users && b in users && users[a].verificationTokenHash.Some?
       && users[a].verificationTokenHash == users[b].verificationTokenHash) ==> a == b
  }

  /** The one token slot: digest and expiry are set and cleared together. */
  predicate SlotConsistent(u: User)
  {
    u.verificationTokenHash.Some? == u.verificationTokenExpiry.Some?
  }

  /** The controllers' expiry test: an expiry is present and not before `now`. */
  predicate TokenUsable(u: User, now: int)
  {
    u.verificationTokenExpiry.Some? && !(u.verificationTokenExpiry.value < now)
  }
}
