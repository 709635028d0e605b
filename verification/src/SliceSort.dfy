/** Sorting a stretch of distinct numbers in place. */
module SliceSort {

  ghost predicate Climbs(s: seq<nat>) {
    forall i, j :: 0 <= i < j < |s| ==> s[i] < s[j]
  }

  ghost predicate Different(s: seq<nat>) {
    forall i, j :: 0 <= i < j < |s| ==> s[i] != s[j]
  }

  function InsertSorted(x: nat, s: seq<nat>): (r: seq<nat>)
    requires Climbs(s) && x !in s
    ensures Climbs(r) && |r| == |s| + 1 && forall y :: y in r <==> y == x || y in s
  {
    if s == [] then [x]
    else if x < s[0] then [x] + s
    else
      assert s == [s[0]] + s[1..] && s[0] in s && s[0] < x;
      var rest := InsertSorted(x, s[1..]);
      assert forall y :: y in rest ==> s[0] < y;
      assert forall k :: 0 <= k < |rest| ==> rest[k] in rest;
      [s[0]] + rest
  }

  /** The ascending arrangement of distinct numbers. */
  function Arranged(s: seq<nat>): (r: seq<nat>)
    requires Different(s)
    ensures Climbs(r) && |r| == |s| && forall y :: y in r <==> y in s
  {
    if s == [] then []
    else
      assert s == [s[0]] + s[1..] && s[0] !in s[1..];
      InsertSorted(s[0], Arranged(s[1..]))
  }

  method SortSlice(b: array<nat>, lo: nat, hi: nat)
    requires lo <= hi <= b.Length && Different(b[lo..hi])
    modifies b
    ensures b[lo..hi] == Arranged(old(b[lo..hi]))
    ensures b[..lo] == old(b[..lo]) && b[hi..] == old(b[hi..])
  {
    var r := Arranged(b[lo..hi]);
    for k := lo to hi
      invariant b[lo..k] == r[..k - lo] && b[..lo] == old(b[..lo]) && b[hi..] == old(b[hi..])
    {
      b[k] := r[k - lo];
      assert r[..k + 1 - lo] == r[..k - lo] + [r[k - lo]];
    }
    assert r[..hi - lo] == r;
  }

  /** A stretch outside the one that changed. */
  lemma SliceStays<T>(before: seq<T>, after: seq<T>, a: nat, b: nat, low: nat, high: nat)
    requires |after| == |before| && a <= b <= |before| && low <= high <= |before| && (b <= low || high <= a)
    requires after[..low] == before[..low] && after[high..] == before[high..]
    ensures after[a..b] == before[a..b]
  {
    forall k | a <= k < b
      ensures after[k] == before[k]
    {
      if k < low {
        assert after[k] == after[..low][k] == before[..low][k];
      } else {
        assert after[k] == after[high..][k - high] == before[high..][k - high];
      }
    }
  }
}
