/** The session document (backend/src/models/sessionModel.ts). */
module SessionModel {
  import opened Wrappers
  import Mongo
  import opened UserModel

  type SessionId = nat

  /** The device marker of a password-verified login waiting for its second factor. */
  const LOGIN_ATTEMPT := "login-attempt"

  /** Times are milliseconds; `refreshTokenHash` is the SHA-256 hex digest of the raw token. */
  datatype Session = Session(
    userId: UserId,
    refreshTokenHash: string,
    createdAt: int,
    expiresAt: int,
    ip: Option<string>,
    userAgent: Option<string>,
    deviceName: Option<string>,
    revoked: bool)

  /** A new document: `revoked` takes its default, false. */
  function NewSession(userId: UserId, refreshTokenHash: string, createdAt: int, expiresAt: int,
                      ip: Option<string>, userAgent: Option<string>, deviceName: Option<string>): (s: Session)
    ensures !s.revoked
    ensures s.userId == userId && s.refreshTokenHash == refreshTokenHash
    ensures s.createdAt == createdAt && s.expiresAt == expiresAt
    ensures s.ip == ip && s.userAgent == userAgent && s.deviceName == deviceName
  {
    Session(userId, refreshTokenHash, createdAt, expiresAt, ip, userAgent, deviceName, false)
  }

  /** The unique index on `refreshTokenHash`. */
  ghost predicate HashesUnique(sessions: map<SessionId, Session>)
  {
    forall a, b ::
      (a in sessions && b in sessions
       && sessions[a].refreshTokenHash == sessions[b].refreshTokenHash) ==> a == b
  }

  /** The attempt lookups' filter: digest, device marker and not revoked; expiry is not consulted. */
  predicate IsLoginAttempt(s: Session, hash: string)
  {
    s.refreshTokenHash == hash && s.deviceName == Some(LOGIN_ATTEMPT) && !s.revoked
  }

  /** `Session.updateMany({ userId }, { revoked: true })`. */
  function RevokeAllOf(sessions: map<SessionId, Session>, userId: UserId): (r: map<SessionId, Session>)
    ensures r.Keys == sessions.Keys
    ensures forall sid :: sid in r && sessions[sid].userId == userId ==> r[sid] == sessions[sid].(revoked := true)
    ensures forall sid :: sid in r && sessions[sid].userId != userId ==> r[sid] == sessions[sid]
  {
    map sid | sid in sessions ::
      if sessions[sid].userId == userId then sessions[sid].(revoked := true) else sessions[sid]
  }

  /** Revoking every session of a user changes no digest, so the index stays unique. */
  lemma RevokeAllKeepsHashesUnique(sessions: map<SessionId, Session>, userId: UserId)
    requires HashesUnique(sessions)
    ensures HashesUnique(RevokeAllOf(sessions, userId))
  {
    var r := RevokeAllOf(sessions, userId);
    forall a, b | a in r && b in r && r[a].refreshTokenHash == r[b].refreshTokenHash
      ensures a == b
    {
      assert r[a].refreshTokenHash == sessions[a].refreshTokenHash;
      assert r[b].refreshTokenHash == sessions[b].refreshTokenHash;
    }
  }

  /** The TTL index on `expiresAt` (`expires: 0`): the store's only expiry of sessions and login attempts. */
  function SweepSessions(sessions: map<SessionId, Session>, now: int): (r: map<SessionId, Session>)
    ensures forall sid :: sid in r <==> sid in sessions && !(sessions[sid].expiresAt < now)
    ensures forall sid :: sid in r ==> r[sid] == sessions[sid]
  {
    Mongo.SweepExpired(sessions, (s: Session) => s.expiresAt, now)
  }

  /** A session as `getSessions` lists it: every field but the digest. */
  datatype SessionView = SessionView(
    userId: UserId,
    createdAt: int,
    expiresAt: int,
    ip: Option<string>,
    userAgent: Option<string>,
    deviceName: Option<string>,
    revoked: bool)

  /** `.select("-refreshTokenHash")`: every field but the digest. */
  function View(s: Session): (v: SessionView)
    ensures v.userId == s.userId && v.createdAt == s.createdAt && v.expiresAt == s.expiresAt
    ensures v.ip == s.ip && v.userAgent == s.userAgent && v.deviceName == s.deviceName && v.revoked == s.revoked
  {
    SessionView(s.userId, s.createdAt, s.expiresAt, s.ip, s.userAgent, s.deviceName, s.revoked)
  }

  /** The listing reveals nothing of the digest: sessions that differ only in it look the same. */
  lemma ViewHidesDigest(s: Session, hash: string)
    ensures View(s.(refreshTokenHash := hash)) == View(s)
  {
  }
}
