/** Option and Result, and the "first element that matches" query that the
    repository uses everywhere through LINQ's FirstOrDefault. */
module Wrappers {

  datatype Option<+T> = None | Some(value: T)

  datatype Result<+T, +E> = Success(value: T) | Failure(error: E)

  /** k is the position of the first element of `s` satisfying `p`. */
  ghost predicate IsFirst<T>(s: seq<T>, p: T -> bool, k: int) {
    0 <= k < |s| && p(s[k]) && forall j :: 0 <= j < k ==> !p(s[j])
  }

  /** Index of the first element of `s` satisfying `p`, or None when there is
      none: the position FirstOrDefault(p) would return. */
  ghost function FirstIndex<T>(s: seq<T>, p: T -> bool): (r: Option<nat>)
    ensures r.Some? ==> IsFirst(s, p, r.value)
    ensures r.None? <==> forall k :: 0 <= k < |s| ==> !p(s[k])
  {
    if exists k :: 0 <= k < |s| && p(s[k]) then
      FirstExists(s, p);
      var k :| IsFirst(s, p, k);
      Some(k)
    else None
  }

  /** Where some element matches, a first one exists. */
  lemma {:induction false} FirstExists<T>(s: seq<T>, p: T -> bool)
    requires exists k :: 0 <= k < |s| && p(s[k])
    ensures exists k :: IsFirst(s, p, k)
  {
    if p(s[0]) {
      assert IsFirst(s, p, 0);
    } else {
      var k :| 0 <= k < |s| && p(s[k]);
      assert p(s[1..][k - 1]);
      FirstExists(s[1..], p);
      var m :| IsFirst(s[1..], p, m);
      assert IsFirst(s, p, m + 1);
    }
  }

  /** At most one position is the first match. */
  lemma FirstIsUnique<T>(s: seq<T>, p: T -> bool, i: int, j: int)
    requires IsFirst(s, p, i) && IsFirst(s, p, j)
    ensures i == j
  {
  }

  /** FirstIndex is pinned down by its contract. */
  lemma FirstIndexOf<T>(s: seq<T>, p: T -> bool, k: int)
    requires IsFirst(s, p, k)
    ensures FirstIndex(s, p) == Some(k)
  {
    FirstIsUnique(s, p, k, FirstIndex(s, p).value);
  }

  /** FirstOrDefault: scans from the front and stops at the first match. */
  method FirstOrDefault<T>(s: seq<T>, p: T -> bool) returns (r: Option<nat>)
    ensures r == FirstIndex(s, p)
  {
    var i := 0;
    while i < |s|
      invariant 0 <= i <= |s|
      invariant forall j :: 0 <= j < i ==> !p(s[j])
    {
      if p(s[i]) {
        FirstIndexOf(s, p, i);
        return Some(i);
      }
      i := i + 1;
    }
    return None;
  }

  /** FirstIndex depends only on the positions where `p` holds: appending an
      element leaves an earlier match in place. */
  lemma FirstIndexAppend<T>(s: seq<T>, x: T, p: T -> bool)
    ensures FirstIndex(s + [x], p) ==
      (if FirstIndex(s, p).Some? then FirstIndex(s, p) else if p(x) then Some(|s|) else None)
  {
    assert forall k :: 0 <= k < |s| ==> (s + [x])[k] == s[k];
    if FirstIndex(s, p).Some? {
      FirstIndexOf(s + [x], p, FirstIndex(s, p).value);
    } else if p(x) {
      FirstIndexOf(s + [x], p, |s|);
    }
  }

  /** Two lists matched position by position with the same outcome have
      their first match at the same place. */
  lemma FirstIndexCongruent<T, U>(s: seq<T>, p: T -> bool, t: seq<U>, q: U -> bool)
    requires |s| == |t|
    requires forall k :: 0 <= k < |s| ==> p(s[k]) == q(t[k])
    ensures FirstIndex(s, p) == FirstIndex(t, q)
  {
    if FirstIndex(s, p).Some? {
      FirstIndexOf(t, q, FirstIndex(s, p).value);
    }
  }
}
