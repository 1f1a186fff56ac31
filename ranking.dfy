/** Orderings of film ids shared by every ranking query: a set of ids in
    ascending order, a stable sort by a rank (a like count, a release day)
    in descending order, and the top-K selection built on it. */
module Ranking {

  import opened Common

  /** The rank of `x`; ids the key does not mention rank 0. */
  function Rank(key: map<Id, int>, x: Id): int {
    if x in key then key[x] else 0
  }

  predicate Distinct(s: seq<Id>) {
    forall i, j :: 0 <= i < j < |s| ==> s[i] != s[j]
  }

  predicate StrictlyAscending(s: seq<Id>) {
    forall i, j :: 0 <= i < j < |s| ==> s[i] < s[j]
  }

  /** Ranks never increase along `s`. */
  predicate RankDescending(s: seq<Id>, key: map<Id, int>) {
    forall i, j :: 0 <= i < j < |s| ==> Rank(key, s[i]) >= Rank(key, s[j])
  }

  /** Of two ids with the same rank, the smaller comes first. */
  predicate TiesAscending(s: seq<Id>, key: map<Id, int>) {
    forall i, j :: 0 <= i < j < |s| && Rank(key, s[i]) == Rank(key, s[j]) ==> s[i] < s[j]
  }

  /** A least element of a non-empty finite set of integers. */
  ghost function LeastOf(s: set<Id>): (m: Id)
    requires s != {}
    ensures m in s && forall y :: y in s ==> m <= y
    decreases s
  {
    var x :| x in s;
    var rest := s - {x};
    assert forall y :: y in s ==> y == x || y in rest;
    if rest == {} then x
    else
      var m := LeastOf(rest);
      if x < m then x else m
  }

  function Least(s: set<Id>): (m: Id)
    requires s != {}
    ensures m in s && forall y :: y in s ==> m <= y
  {
    assert LeastOf(s) in s && forall y :: y in s ==> LeastOf(s) <= y;
    var m :| m in s && forall y :: y in s ==> m <= y;
    m
  }

  /** The ids of `s`, smallest first. */
  function Ascending(s: set<Id>): (r: seq<Id>)
    ensures StrictlyAscending(r)
    ensures forall x :: x in r <==> x in s
    ensures |r| == |s|
    decreases s
  {
    if s == {} then []
    else
      var m := Least(s);
      [m] + Ascending(s - {m})
  }

  /** Puts `x` in front of the first element whose rank is not above its own. */
  function Insert(x: Id, s: seq<Id>, key: map<Id, int>): (r: seq<Id>)
    ensures |r| == |s| + 1
    ensures multiset(r) == multiset(s) + multiset{x}
    ensures forall y :: y in r <==> y == x || y in s
  {
    if s == [] then [x]
    else if Rank(key, s[0]) <= Rank(key, x) then [x] + s
    else
      assert s == [s[0]] + s[1..];
      [s[0]] + Insert(x, s[1..], key)
  }

  lemma {:induction false} InsertOrdered(x: Id, s: seq<Id>, key: map<Id, int>)
    requires RankDescending(s, key)
    ensures RankDescending(Insert(x, s, key), key)
  {
    if s != [] && Rank(key, x) < Rank(key, s[0]) {
      InsertOrdered(x, s[1..], key);
      var t := Insert(x, s[1..], key);
      assert Insert(x, s, key) == [s[0]] + t;
      forall y | y in t ensures Rank(key, y) <= Rank(key, s[0]) {
        if y != x { var j :| 0 <= j < |s[1..]| && s[1..][j] == y; assert s[j + 1] == y; }
      }
    }
  }

  lemma {:induction false} InsertDistinct(x: Id, s: seq<Id>, key: map<Id, int>)
    requires x !in s && Distinct(s)
    ensures Distinct(Insert(x, s, key))
  {
    if s != [] && Rank(key, x) < Rank(key, s[0]) {
      InsertDistinct(x, s[1..], key);
      var t := Insert(x, s[1..], key);
      assert Insert(x, s, key) == [s[0]] + t;
      assert s[0] !in t;
    }
  }

  /** Prepending `a` keeps ties ascending when `a` is below every id of its rank. */
  lemma TiesCons(a: Id, t: seq<Id>, key: map<Id, int>)
    requires TiesAscending(t, key)
    requires forall y :: y in t && Rank(key, y) == Rank(key, a) ==> a < y
    ensures TiesAscending([a] + t, key)
  {
    var r := [a] + t;
    forall i, j | 0 <= i < j < |r| && Rank(key, r[i]) == Rank(key, r[j]) ensures r[i] < r[j] {
      assert r[j] == t[j - 1];
      if i > 0 { assert r[i] == t[i - 1]; }
    }
  }

  /** When `x` is smaller than every id of `s`, inserting it keeps ties
      in ascending order: it lands in front of the ids that share its rank. */
  lemma {:induction false} InsertTies(x: Id, s: seq<Id>, key: map<Id, int>)
    requires RankDescending(s, key) && TiesAscending(s, key)
    requires forall y :: y in s ==> x < y
    ensures TiesAscending(Insert(x, s, key), key)
  {
    if s == [] {
    } else if Rank(key, s[0]) <= Rank(key, x) {
      TiesCons(x, s, key);
    } else {
      var tail := s[1..];
      assert forall y :: y in tail ==> y in s;
      assert TiesAscending(tail, key);
      InsertTies(x, tail, key);
      var t := Insert(x, tail, key);
      forall y | y in t && Rank(key, y) == Rank(key, s[0]) ensures s[0] < y {
        if y != x {
          var k :| 0 <= k < |tail| && tail[k] == y;
          assert s[k + 1] == y;
        }
      }
      TiesCons(s[0], t, key);
    }
  }

  /** Stable insertion sort by rank, highest rank first. */
  function SortDesc(s: seq<Id>, key: map<Id, int>): (r: seq<Id>)
    ensures |r| == |s|
    ensures multiset(r) == multiset(s)
    ensures forall y :: y in r <==> y in s
  {
    if s == [] then []
    else
      assert s == [s[0]] + s[1..];
      Insert(s[0], SortDesc(s[1..], key), key)
  }

  /** SortDesc orders by rank, keeps distinct ids distinct, and, fed the
      ids in ascending order, breaks ties by ascending id. */
  lemma {:induction false} SortDescOrdered(s: seq<Id>, key: map<Id, int>)
    ensures RankDescending(SortDesc(s, key), key)
    ensures Distinct(s) ==> Distinct(SortDesc(s, key))
    ensures StrictlyAscending(s) ==> TiesAscending(SortDesc(s, key), key)
  {
    if s != [] {
      var rest := SortDesc(s[1..], key);
      SortDescOrdered(s[1..], key);
      InsertOrdered(s[0], rest, key);
      if Distinct(s) {
        assert s[0] !in s[1..];
        InsertDistinct(s[0], rest, key);
      }
      if StrictlyAscending(s) {
        forall y | y in rest ensures s[0] < y {
          var j :| 0 <= j < |s[1..]| && s[1..][j] == y;
          assert s[j + 1] == y;
        }
        InsertTies(s[0], rest, key);
      }
    }
  }

  /** The first `k` elements of `s`, or all of them when there are fewer. */
  function Take(s: seq<Id>, k: nat): (r: seq<Id>)
    ensures |r| == if k < |s| then k else |s|
    ensures r == s[..|r|]
  {
    if k < |s| then s[..k] else s
  }

  /** The `k` highest-ranked ids of `s`, highest first. Ties come in the
      order SortDesc leaves them in, which this contract does not state. */
  function TopK(s: seq<Id>, key: map<Id, int>, k: nat): (r: seq<Id>)
    requires Distinct(s)
    ensures |r| == if k < |s| then k else |s|
    ensures Distinct(r)
    ensures forall x :: x in r ==> x in s
    ensures RankDescending(r, key)
    ensures forall x, i :: x in s && x !in r && 0 <= i < |r| ==> Rank(key, x) <= Rank(key, r[i])
  {
    var sorted := SortDesc(s, key);
    SortDescOrdered(s, key);
    var r := Take(sorted, k);
    forall x, i | x in s && x !in r && 0 <= i < |r|
      ensures Rank(key, x) <= Rank(key, r[i])
    {
      var j :| 0 <= j < |sorted| && sorted[j] == x;
      assert j >= |r|;
    }
    r
  }

  /** The `k` members of `s` ranked highest by `key`, highest first. */
  function TopOf(s: set<Id>, key: map<Id, int>, k: nat): (r: seq<Id>)
    ensures |r| == if k < |s| then k else |s|
    ensures Distinct(r) && forall x :: x in r ==> x in s
    ensures RankDescending(r, key)
    ensures forall x, i :: x in s && x !in r && 0 <= i < |r| ==> Rank(key, x) <= Rank(key, r[i])
  {
    var all := Ascending(s);
    var r := TopK(all, key, k);
    forall x, i | x in s && x !in r && 0 <= i < |r|
      ensures Rank(key, x) <= Rank(key, r[i])
    {
      assert x in all;
    }
    r
  }
}
