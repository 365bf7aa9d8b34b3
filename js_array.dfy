/** The JavaScript array built-ins the vault handlers use: `find` and `filter`. */
module JsArray {
  import opened Wrappers

  /** `Array.prototype.find`, as the index of the first element satisfying `p`. */
  function FindIndex<T>(s: seq<T>, p: T -> bool): (r: Option<nat>)
    ensures r.Some? ==> r.value < |s| && p(s[r.value])
    ensures r.Some? ==> forall j :: 0 <= j < r.value ==> !p(s[j])
    ensures r.None? ==> forall j :: 0 <= j < |s| ==> !p(s[j])
    decreases |s|
  {
    if |s| == 0 then None
    else if p(s[0]) then Some(0)
    else match FindIndex(s[1..], p)
      case Some(k) => Some(k + 1)
      case None => None
  }

  /** `Array.prototype.filter`: the elements satisfying `keep`, in their order. */
  function Filter<T>(s: seq<T>, keep: T -> bool): (r: seq<T>)
    ensures |r| <= |s|
    ensures forall j :: 0 <= j < |r| ==> r[j] in s && keep(r[j])
    ensures forall j :: 0 <= j < |s| && keep(s[j]) ==> s[j] in r
    decreases |s|
  {
    if |s| == 0 then []
    else if keep(s[0]) then [s[0]] + Filter(s[1..], keep)
    else Filter(s[1..], keep)
  }

  /** Filtering works piecewise, so the kept elements stay in their order. */
  lemma {:induction false} FilterAppend<T>(a: seq<T>, b: seq<T>, keep: T -> bool)
    ensures Filter(a + b, keep) == Filter(a, keep) + Filter(b, keep)
    decreases |a|
  {
    if |a| > 0 {
      assert (a + b)[1..] == a[1..] + b;
      FilterAppend(a[1..], b, keep);
    } else {
      assert a + b == b;
    }
  }

  /** A filter that rejects nothing returns its input unchanged. */
  lemma {:induction false} FilterKeepsAll<T>(s: seq<T>, keep: T -> bool)
    requires forall j :: 0 <= j < |s| ==> keep(s[j])
    ensures Filter(s, keep) == s
    decreases |s|
  {
    if |s| > 0 {
      FilterKeepsAll(s[1..], keep);
      assert [s[0]] + s[1..] == s;
    }
  }

  /** A filter that rejects only the element at `k` removes exactly that one, keeping the rest in order. */
  lemma {:induction false} FilterRemovesOne<T>(s: seq<T>, keep: T -> bool, k: nat)
    requires k < |s| && !keep(s[k])
    requires forall j :: 0 <= j < |s| && j != k ==> keep(s[j])
    ensures Filter(s, keep) == s[..k] + s[k + 1..]
    decreases k
  {
    var tail := s[1..];
    if k == 0 {
      assert forall j :: 0 <= j < |tail| ==> keep(tail[j]) by {
        assert forall j :: 0 <= j < |tail| ==> tail[j] == s[j + 1];
      }
      FilterKeepsAll(tail, keep);
      assert s[..k] + s[k + 1..] == tail;
    } else {
      assert forall j :: 0 <= j < |tail| && j != k - 1 ==> keep(tail[j]) by {
        assert forall j :: 0 <= j < |tail| ==> tail[j] == s[j + 1];
      }
      FilterRemovesOne(tail, keep, k - 1);
      assert s[..k] == [s[0]] + tail[..k - 1];
      assert s[k + 1..] == tail[k..];
    }
  }

  /** No two elements share a key. */
  predicate KeysDistinct<T, K(==)>(s: seq<T>, key: T -> K)
  {
    forall i, j :: 0 <= i < j < |s| ==> key(s[i]) != key(s[j])
  }

  /** Filtering keeps distinct keys distinct: it never repeats an element. */
  lemma {:induction false} FilterKeepsKeysDistinct<T, K>(s: seq<T>, keep: T -> bool, key: T -> K)
    requires KeysDistinct(s, key)
    ensures KeysDistinct(Filter(s, keep), key)
    decreases |s|
  {
    if |s| > 0 {
      FilterKeepsKeysDistinct(s[1..], keep, key);
      var tail := Filter(s[1..], keep);
      assert forall j :: 0 <= j < |tail| ==> key(tail[j]) != key(s[0]) by {
        forall j | 0 <= j < |tail|
          ensures key(tail[j]) != key(s[0])
        {
          var k :| 0 <= k < |s[1..]| && s[1..][k] == tail[j];
          assert s[k + 1] == tail[j];
        }
      }
      if keep(s[0]) {
        var r := Filter(s, keep);
        assert r == [s[0]] + tail;
        forall i, j | 0 <= i < j < |r|
          ensures key(r[i]) != key(r[j])
        {
          assert r[j] == tail[j - 1];
          if i == 0 {
            assert r[i] == s[0];
          } else {
            assert r[i] == tail[i - 1];
            assert 0 <= i - 1 < j - 1 < |tail|;
          }
        }
      } else {
        assert Filter(s, keep) == tail;
      }
    }
  }
}
