/**
 * The two store operations the controllers use on an id-keyed collection:
 * `findOne` in natural (insertion) order, and the TTL index sweep.
 * Documents get increasing ids, so natural order is ascending id order.
 */
module Mongo {
  import opened Wrappers

  /** `findOne(filter)`: the smallest id below `bound` whose document matches `p`. */
  function FindOne<V>(m: map<nat, V>, bound: nat, p: V -> bool): (r: Option<nat>)
    ensures r.Some? ==> r.value in m && r.value < bound && p(m[r.value])
    ensures r.Some? ==> forall k :: k in m && k < r.value ==> !p(m[k])
    ensures r.None? ==> forall k :: k in m && k < bound ==> !p(m[k])
    decreases bound
  {
    if bound == 0 then None
    else match FindOne(m, bound - 1, p)
      case Some(k) => Some(k)
      case None => if bound - 1 in m && p(m[bound - 1]) then Some(bound - 1) else None
  }

  /**
   * A TTL index with `expires: 0` removes a document once the current time is
   * past the indexed date; `expiry` reads that date from a document.
   */
  function SweepExpired<V>(m: map<nat, V>, expiry: V -> int, now: int): (r: map<nat, V>)
    ensures forall k :: k in r <==> k in m && !(expiry(m[k]) < now)
    ensures forall k :: k in r ==> r[k] == m[k]
  {
    map k | k in m && !(expiry(m[k]) < now) :: m[k]
  }
}
