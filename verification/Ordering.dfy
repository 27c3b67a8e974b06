/** Keyset order: every listing, prune batch, purge batch and backfill batch sorts
    rows by (time, id) and cuts a page off the front. `Sorted` is the list Python's
    `sort` returns for such keys; the lemmas say what a cursor leaves behind. */
module Ordering {
  import opened Uuids

  datatype Stamp = Stamp(at: int, id: Uuid)

  predicate Less(a: Stamp, b: Stamp) {
    a.at < b.at || (a.at == b.at && a.id.n < b.id.n)
  }

  /** Ascending order for `up`, descending (`reverse=True`) otherwise. */
  predicate Precedes(up: bool, a: Stamp, b: Stamp) {
    if up then Less(a, b) else Less(b, a)
  }

  ghost predicate IsSorted(q: seq<Stamp>, up: bool) {
    forall i, j :: 0 <= i < j < |q| ==> Precedes(up, q[i], q[j])
  }

  function Elems(q: seq<Stamp>): set<Stamp> {
    set x | x in q
  }

  predicate IsFirst(s: set<Stamp>, up: bool, m: Stamp) {
    m in s && forall x :: x in s && x != m ==> Precedes(up, m, x)
  }

  lemma {:induction false} FirstExists(s: set<Stamp>, up: bool)
    requires s != {}
    ensures exists m :: IsFirst(s, up, m)
    decreases |s|
  {
    var a :| a in s;
    var t := s - {a};
    assert s == t + {a};
    if t == {} {
      assert IsFirst(s, up, a);
    } else {
      FirstExists(t, up);
      var m :| IsFirst(t, up, m);
      var f := if Precedes(up, a, m) then a else m;
      forall x | x in s && x != f ensures Precedes(up, f, x) {
        if x != a && x != m { assert Precedes(up, m, x); }
      }
      assert IsFirst(s, up, f);
    }
  }

  function First(s: set<Stamp>, up: bool): (m: Stamp)
    requires s != {}
    ensures IsFirst(s, up, m)
  {
    FirstExists(s, up);
    var m :| IsFirst(s, up, m);
    m
  }

  /** The rows of s in order, without duplicates: the list a keyed sort returns. */
  function Sorted(s: set<Stamp>, up: bool): seq<Stamp>
    decreases |s|
  {
    if s == {} then []
    else
      var m := First(s, up);
      [m] + Sorted(s - {m}, up)
  }

  lemma {:induction false} SortedFacts(s: set<Stamp>, up: bool)
    ensures IsSorted(Sorted(s, up), up)
    ensures Elems(Sorted(s, up)) == s
    ensures |Sorted(s, up)| == |s|
    decreases |s|
  {
    if s != {} {
      var m := First(s, up);
      SortedFacts(s - {m}, up);
      FirstThenRest(s, up, m, Sorted(s - {m}, up));
    }
  }

  lemma FirstThenRest(s: set<Stamp>, up: bool, m: Stamp, rest: seq<Stamp>)
    requires IsFirst(s, up, m) && IsSorted(rest, up) && Elems(rest) == s - {m}
    ensures IsSorted([m] + rest, up) && Elems([m] + rest) == s
  {
    forall j | 0 <= j < |rest| ensures Precedes(up, m, rest[j]) {
      assert rest[j] in Elems(rest);
    }
    assert Elems([m] + rest) == {m} + Elems(rest);
  }

  lemma ElemsTail(q: seq<Stamp>, up: bool)
    requires IsSorted(q, up) && q != []
    ensures Elems(q[1..]) == Elems(q) - {q[0]}
  {
    forall x | x in Elems(q) - {q[0]} ensures x in q[1..] {
      assert q == [q[0]] + q[1..];
    }
  }

  /** There is only one sorted arrangement, so iteration order cannot matter. */
  lemma {:induction false} SortedUnique(p: seq<Stamp>, q: seq<Stamp>, up: bool)
    requires IsSorted(p, up) && IsSorted(q, up) && Elems(p) == Elems(q)
    ensures p == q
  {
    assert p != [] ==> p[0] in Elems(q);
    assert q != [] ==> q[0] in Elems(p);
    if p != [] {
      ElemsTail(p, up);
      ElemsTail(q, up);
      SortedUnique(p[1..], q[1..], up);
    }
  }

  lemma SortedOf(q: seq<Stamp>, s: set<Stamp>, up: bool)
    requires IsSorted(q, up) && Elems(q) == s
    ensures q == Sorted(s, up)
    ensures |q| == |s|
  {
    SortedFacts(s, up);
    SortedUnique(q, Sorted(s, up), up);
  }

  /** What a cursor placed at the k-th row leaves is exactly the rest of the listing. */
  lemma AfterCursor(s: set<Stamp>, up: bool, k: nat)
    requires 0 < k <= |Sorted(s, up)|
    ensures Sorted((set x | x in s && Precedes(up, Sorted(s, up)[k - 1], x)), up) == Sorted(s, up)[k..]
  {
    var q := Sorted(s, up);
    SortedFacts(s, up);
    var rest := set x | x in s && Precedes(up, q[k - 1], x);
    forall x | x in rest ensures x in q[k..] {
      assert x in Elems(q);
      var i :| 0 <= i < |q| && q[i] == x;
      assert i >= k;
      assert q[k..][i - k] == x;
    }
    forall x | x in q[k..] ensures x in rest {
      assert x in Elems(q);
    }
    assert Elems(q[k..]) == rest;
    SortedOf(q[k..], rest, up);
  }

  lemma PageAndRest(q: seq<Stamp>, up: bool, k: nat)
    requires IsSorted(q, up) && k <= |q|
    ensures Elems(q[..k]) <= Elems(q)
    ensures Elems(q[k..]) == Elems(q) - Elems(q[..k])
  {
    forall x | x in Elems(q) - Elems(q[..k]) ensures x in q[k..] {
      assert q == q[..k] + q[k..];
    }
    forall x | x in q[k..] ensures x !in q[..k] {
      var j :| 0 <= j < |q| - k && q[k..][j] == x;
      forall i | 0 <= i < k ensures q[..k][i] != x {
        assert Precedes(up, q[i], q[k + j]);
      }
    }
  }

  /** Removing a page leaves the rest of the listing. */
  lemma AfterRemoval(s: set<Stamp>, up: bool, k: nat)
    requires k <= |Sorted(s, up)|
    ensures Elems(Sorted(s, up)[..k]) <= s
    ensures |Elems(Sorted(s, up)[..k])| == k
    ensures Sorted(s - Elems(Sorted(s, up)[..k]), up) == Sorted(s, up)[k..]
  {
    var q := Sorted(s, up);
    SortedFacts(s, up);
    var page := Elems(q[..k]);
    SortedOf(q[..k], page, up);
    PageAndRest(q, up, k);
    SortedOf(q[k..], s - page, up);
  }

  function Before(s: set<Stamp>, up: bool, x: Stamp): set<Stamp> {
    set y | y in s && Precedes(up, y, x)
  }

  /** The rows listed before the r-th are those that come before it. */
  lemma RankAt(s: set<Stamp>, up: bool, r: nat)
    requires r < |Sorted(s, up)|
    ensures |Before(s, up, Sorted(s, up)[r])| == r
  {
    var q := Sorted(s, up);
    SortedFacts(s, up);
    PageIsBefore(q, up, r);
    assert Elems(q[..r]) == Before(s, up, q[r]);
    SortedOf(q[..r], Elems(q[..r]), up);
  }

  lemma PageIsBefore(q: seq<Stamp>, up: bool, r: nat)
    requires IsSorted(q, up) && r < |q|
    ensures Elems(q[..r]) == Before(Elems(q), up, q[r])
  {
    forall y | y in Before(Elems(q), up, q[r]) ensures y in q[..r] {
      var i :| 0 <= i < |q| && q[i] == y;
      assert i < r && q[..r][i] == y;
    }
    forall y | y in q[..r] ensures y in Before(Elems(q), up, q[r]) {
      var i :| 0 <= i < r && q[i] == y;
      assert Precedes(up, q[i], q[r]);
    }
  }

  lemma OnPageIffEarly(q: seq<Stamp>, up: bool, r: nat, k: nat)
    requires IsSorted(q, up) && r < |q| && k <= |q|
    ensures q[r] in q[..k] <==> r < k
  {
    if r < k {
      assert q[..k][r] == q[r];
    } else {
      forall i | 0 <= i < k ensures q[..k][i] != q[r] {
        assert Precedes(up, q[i], q[r]);
      }
    }
  }

  /** What is not on a page comes after what is. */
  lemma NotOnPageIsLater(q: seq<Stamp>, up: bool, k: nat, x: Stamp, y: Stamp)
    requires IsSorted(q, up) && k <= |q| && x in q[..k] && y in q && y !in q[..k]
    ensures Precedes(up, x, y)
  {
    var i :| 0 <= i < k && q[i] == x;
    var j :| 0 <= j < |q| && q[j] == y;
    OnPageIffEarly(q, up, j, k);
  }

  /** A row is on a page of k rows exactly when fewer than k rows come before it. */
  lemma PageHasIffRank(s: set<Stamp>, up: bool, x: Stamp, k: nat)
    requires x in s && k <= |Sorted(s, up)|
    ensures x in Sorted(s, up)[..k] <==> |Before(s, up, x)| < k
  {
    var q := Sorted(s, up);
    SortedFacts(s, up);
    assert x in Elems(q);
    var r :| 0 <= r < |q| && q[r] == x;
    RankAt(s, up, r);
    OnPageIffEarly(q, up, r, k);
  }
}
