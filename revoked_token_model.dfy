/** The refresh-token tombstone (backend/src/models/revokedTokenModel.ts). */
module RevokedTokenModel {
  import opened Wrappers
  import JsArray
  import opened UserModel

  /**
   * The digest of a superseded or ended refresh token, its owner, and the
   * time the TTL index removes it. `tokenHash` is indexed but not unique, so
   * the table is a bag, kept in insertion order.
   */
  datatype RevokedToken = RevokedToken(tokenHash: string, userId: UserId, createdAt: int, expireAt: int)

  /** A new tombstone; `createdAt` takes its default, the current time. */
  function NewRevokedToken(tokenHash: string, userId: UserId, expireAt: int, now: int): (t: RevokedToken)
    ensures t.createdAt == now
    ensures t.tokenHash == tokenHash && t.userId == userId && t.expireAt == expireAt
  {
    RevokedToken(tokenHash, userId, now, expireAt)
  }

  /** `RevokedToken.findOne({ tokenHash })`: the oldest tombstone for the digest. */
  function FindByHash(tombstones: seq<RevokedToken>, hash: string): (r: Option<nat>)
    ensures r.Some? ==> r.value < |tombstones| && tombstones[r.value].tokenHash == hash
    ensures r.Some? ==> forall i :: 0 <= i < r.value ==> tombstones[i].tokenHash != hash
    ensures r.None? ==> forall i :: 0 <= i < |tombstones| ==> tombstones[i].tokenHash != hash
  {
    JsArray.FindIndex(tombstones, (t: RevokedToken) => t.tokenHash == hash)
  }

  /** The TTL index on `expireAt` (`expires: 0`). */
  function SweepTombstones(tombstones: seq<RevokedToken>, now: int): (r: seq<RevokedToken>)
    ensures forall i :: 0 <= i < |r| ==> r[i] in tombstones && !(r[i].expireAt < now)
    ensures forall i :: 0 <= i < |tombstones| && !(tombstones[i].expireAt < now) ==> tombstones[i] in r
  {
    JsArray.Filter(tombstones, (t: RevokedToken) => !(t.expireAt < now))
  }
}
