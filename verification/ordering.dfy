/** The `ORDER BY … DESC` / `ASC` and `setMaxResults` of the repository
    queries: a selection sort of a set of row ids by an integer key, and a
    prefix of the result. */
module Ordering {

  type Id = nat

  /** No id occurs twice. */
  predicate Distinct(r: seq<Id>) {
    forall i, j :: 0 <= i < j < |r| ==> r[i] != r[j]
  }

  /** Keys never increase along the sequence. */
  predicate Descending(r: seq<Id>, key: Id -> int) {
    forall i, j :: 0 <= i < j < |r| ==> key(r[i]) >= key(r[j])
  }

  /** An id of `s` with the largest key. */
  method PickMax(s: set<Id>, key: Id -> int) returns (m: Id)
    requires s != {}
    ensures m in s
    ensures forall y :: y in s ==> key(y) <= key(m)
  {
    m :| m in s;
    var rest := s - {m};
    while rest != {}
      invariant rest <= s && m in s
      invariant forall y :: y in s && y !in rest ==> key(y) <= key(m)
      decreases rest
    {
      var y :| y in rest;
      if key(y) > key(m) {
        m := y;
      }
      rest := rest - {y};
    }
  }

  /** The ids of `s`, each once, largest key first. */
  method SortDescending(s: set<Id>, key: Id -> int) returns (r: seq<Id>)
    ensures forall x :: x in r <==> x in s
    ensures Distinct(r) && |r| == |s|
    ensures Descending(r, key)
  {
    var rest := s;
    r := [];
    while rest != {}
      invariant rest <= s
      invariant forall x :: x in r <==> x in s && x !in rest
      invariant Distinct(r)
      invariant |r| + |rest| == |s|
      invariant Descending(r, key)
      invariant forall i, y :: 0 <= i < |r| && y in rest ==> key(y) <= key(r[i])
      decreases rest
    {
      var m := PickMax(rest, key);
      r := r + [m];
      rest := rest - {m};
    }
  }

  /** `setMaxResults(limit)` over a sorted result. */
  function Take(r: seq<Id>, limit: nat): (t: seq<Id>)
    ensures |t| == if |r| <= limit then |r| else limit
    ensures t == r[..|t|]
  {
    if |r| <= limit then r else r[..limit]
  }

  /** The first `limit` ids of the sorted set, each with a key at least that
      of every id of `s` left out. */
  method TopByKey(s: set<Id>, key: Id -> int, limit: nat) returns (t: seq<Id>)
    ensures forall x :: x in t ==> x in s
    ensures Distinct(t) && Descending(t, key)
    ensures |t| == if |s| <= limit then |s| else limit
    ensures forall i, y :: 0 <= i < |t| && y in s && y !in t ==> key(y) <= key(t[i])
  {
    var all := SortDescending(s, key);
    t := Take(all, limit);
    forall i, y | 0 <= i < |t| && y in s && y !in t
      ensures key(y) <= key(t[i])
    {
      var k :| 0 <= k < |all| && all[k] == y;
      assert k >= |t|;
    }
  }
}
