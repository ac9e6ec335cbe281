/**
 Scored identifiers and the stable sorts that the vector index applies to its candidate
 and result arrays.
 */
module Ranking {
  import opened Basics

  datatype Hit = Hit(id: string, score: real)

  ghost predicate Ascending(s: seq<Hit>) {
    forall i, j | 0 <= i < j < |s| :: s[i].score <= s[j].score
  }

  ghost predicate Descending(s: seq<Hit>) {
    forall i, j | 0 <= i < j < |s| :: s[i].score >= s[j].score
  }

  ghost predicate DistinctIds(s: seq<Hit>) {
    forall i, j | 0 <= i < j < |s| :: s[i].id != s[j].id
  }

  ghost function Ids(s: seq<Hit>): set<string> {
    set i | 0 <= i < |s| :: s[i].id
  }

  /** The end index of `slice(0, n)` on an array of the given length; a negative `n` counts from the end. */
  function SliceEnd(length: nat, n: int): (end: nat)
    ensures end <= length
  {
    if n < 0 then Max(0, length + n) else Min(n, length)
  }

  // ----- stable ascending sort -----

  /** Puts `x` behind every element whose score is at most its own. */
  function Place(s: seq<Hit>, x: Hit): seq<Hit> {
    if s == [] || s[|s| - 1].score <= x.score then s + [x]
    else Place(s[..|s| - 1], x) + [s[|s| - 1]]
  }

  function SortAscending(s: seq<Hit>): seq<Hit> {
    if s == [] then [] else Place(SortAscending(s[..|s| - 1]), s[|s| - 1])
  }

  /** `Place` inserts at one position and keeps the order on both sides of it. */
  lemma {:induction false} PlaceSplits(s: seq<Hit>, x: Hit) returns (k: nat)
    requires Ascending(s)
    ensures k <= |s|
    ensures Place(s, x) == s[..k] + [x] + s[k..]
    ensures forall i | 0 <= i < k :: s[i].score <= x.score
    ensures forall i | k <= i < |s| :: x.score < s[i].score
    ensures Ascending(Place(s, x))
  {
    k := PlaceAt(s, x);
    InsertedAscending(s, x, k);
  }

  lemma {:induction false} PlaceAt(s: seq<Hit>, x: Hit) returns (k: nat)
    requires Ascending(s)
    ensures k <= |s| && Place(s, x) == s[..k] + [x] + s[k..]
    ensures forall i | 0 <= i < k :: s[i].score <= x.score
    ensures forall i | k <= i < |s| :: x.score < s[i].score
  {
    if s == [] || s[|s| - 1].score <= x.score {
      k := |s|;
    } else {
      var front, last := s[..|s| - 1], s[|s| - 1];
      k := PlaceAt(front, x);
      assert front[k..] + [last] == s[k..] && front[..k] == s[..k];
      assert Place(s, x) == s[..k] + [x] + (front[k..] + [last]);
      forall i | k <= i < |s| ensures x.score < s[i].score {
        if i < |front| { assert s[i] == front[i]; }
      }
    }
  }

  lemma InsertedAscending(s: seq<Hit>, x: Hit, k: nat)
    requires Ascending(s) && k <= |s|
    requires forall i | 0 <= i < k :: s[i].score <= x.score
    requires forall i | k <= i < |s| :: x.score < s[i].score
    ensures Ascending(s[..k] + [x] + s[k..])
  {
    var r := s[..k] + [x] + s[k..];
    assert forall i | 0 <= i < |r| :: r[i] == if i < k then s[i] else if i == k then x else s[i - 1];
  }

  lemma InsertedMembers(s: seq<Hit>, x: Hit, k: nat)
    requires k <= |s|
    ensures forall h :: h in s[..k] + [x] + s[k..] <==> h in s || h == x
  {
    assert s == s[..k] + s[k..];
  }

  /** Sorting permutes: same length, same hits, and distinct ids stay distinct. */
  lemma {:induction false} SortAscendingSorts(s: seq<Hit>)
    ensures Ascending(SortAscending(s))
    ensures |SortAscending(s)| == |s|
    ensures forall h :: h in SortAscending(s) <==> h in s
    ensures DistinctIds(s) ==> DistinctIds(SortAscending(s))
  {
    if s != [] {
      var front, x := s[..|s| - 1], s[|s| - 1];
      var sorted := SortAscending(front);
      assert SortAscending(s) == Place(sorted, x);
      assert s == front + [x];
      assert DistinctIds(s) ==> DistinctIds(front);
      hide SortAscending, Place, Ascending, DistinctIds;
      SortAscendingSorts(front);
      var k := PlaceSplits(sorted, x);
      InsertedMembers(sorted, x, k);
      if DistinctIds(s) {
        InsertedDistinct(sorted, x, k, front);
      }
    }
  }

  lemma InsertedDistinct(s: seq<Hit>, x: Hit, k: nat, front: seq<Hit>)
    requires k <= |s| && DistinctIds(s) && DistinctIds(front + [x])
    requires forall h | h in s :: h in front
    ensures DistinctIds(s[..k] + [x] + s[k..])
  {
    var r := s[..k] + [x] + s[k..];
    forall i | 0 <= i < |s| ensures s[i].id != x.id {
      assert s[i] in front;
      var j :| 0 <= j < |front| && front[j] == s[i];
      assert (front + [x])[j] == s[i] && (front + [x])[|front|] == x;
    }
    assert forall i | 0 <= i < |r| :: r[i] == if i < k then s[i] else if i == k then x else s[i - 1];
  }

  lemma {:induction false} SortOfSorted(s: seq<Hit>)
    requires Ascending(s)
    ensures SortAscending(s) == s
  {
    if s != [] {
      var front, last := s[..|s| - 1], s[|s| - 1];
      SortOfSorted(front);
      assert front == [] || front[|front| - 1].score <= last.score;
      assert Place(front, last) == front + [last] == s;
    }
  }

  /** Sorting a sorted array after one push only moves the pushed element. */
  lemma SortAfterPush(s: seq<Hit>, x: Hit) returns (k: nat)
    requires Ascending(s)
    ensures k <= |s|
    ensures SortAscending(s + [x]) == s[..k] + [x] + s[k..]
    ensures Ascending(SortAscending(s + [x]))
  {
    SortOfSorted(s);
    assert (s + [x])[..|s|] == s;
    k := PlaceSplits(s, x);
  }

  // ----- stable descending sort -----

  function Negated(s: seq<Hit>): (r: seq<Hit>)
    ensures |r| == |s|
    ensures forall i | 0 <= i < |s| :: r[i] == Hit(s[i].id, -s[i].score)
  {
    seq(|s|, i requires 0 <= i < |s| => Hit(s[i].id, -s[i].score))
  }

  function SortDescending(s: seq<Hit>): seq<Hit> {
    Negated(SortAscending(Negated(s)))
  }

  lemma SortDescendingSorts(s: seq<Hit>)
    ensures Descending(SortDescending(s))
    ensures |SortDescending(s)| == |s|
    ensures forall h :: h in SortDescending(s) <==> h in s
    ensures DistinctIds(s) ==> DistinctIds(SortDescending(s))
  {
    var n := Negated(s);
    SortAscendingSorts(n);
    var a := SortAscending(n);
    forall h ensures h in Negated(a) <==> h in s {
      var g := Hit(h.id, -h.score);
      assert g in a <==> g in n;
      if h in Negated(a) {
        var i :| 0 <= i < |a| && Negated(a)[i] == h;
        assert a[i] == g;
        var j :| 0 <= j < |n| && n[j] == g;
        assert s[j] == h;
      }
      if h in s {
        var i :| 0 <= i < |s| && s[i] == h;
        assert n[i] == g;
        var j :| 0 <= j < |a| && a[j] == g;
        assert Negated(a)[j] == h;
      }
    }
  }

  // ----- best selections -----

  lemma {:induction false} IdsCount(s: seq<Hit>)
    requires DistinctIds(s)
    ensures |Ids(s)| == |s|
  {
    if s == [] {
      assert Ids(s) == {};
    } else {
      var front, x := s[..|s| - 1], s[|s| - 1];
      IdsCount(front);
      assert Ids(s) == Ids(front) + {x.id} by {
        forall id | id in Ids(s) ensures id in Ids(front) + {x.id} {
          var i :| 0 <= i < |s| && s[i].id == id;
          if i < |front| { assert front[i].id == id; }
        }
        forall id | id in Ids(front) ensures id in Ids(s) {
          var i :| 0 <= i < |front| && front[i].id == id;
          assert s[i].id == id;
        }
        assert s[|s| - 1].id == x.id;
      }
      assert x.id !in Ids(front);
    }
  }

  /** Every hit shows the score that `all` gives its id. */
  ghost predicate ScoredBy(s: seq<Hit>, all: map<string, real>) {
    forall i | 0 <= i < |s| :: s[i].id in all && s[i].score == all[s[i].id]
  }

  /** Nothing of `all` outside `found` beats a member of `found`. */
  ghost predicate NoneBetter(found: seq<Hit>, all: map<string, real>) {
    forall id, i | id in all && id !in Ids(found) && 0 <= i < |found| :: all[id] <= found[i].score
  }

  /**
   `found` lists the `count` best-scoring members of `all`, best first; ties may be
   broken either way.
   */
  ghost predicate IsBest(found: seq<Hit>, all: map<string, real>, count: nat) {
    && Descending(found)
    && DistinctIds(found)
    && |found| == count
    && ScoredBy(found, all)
    && NoneBetter(found, all)
  }

  function Scores(s: seq<Hit>): (r: seq<real>)
    ensures |r| == |s| && forall i | 0 <= i < |s| :: r[i] == s[i].score
  {
    seq(|s|, i requires 0 <= i < |s| => s[i].score)
  }

  /** Up to ties there is only one best selection: all of them show the same scores. */
  lemma BestIsUnique(a: seq<Hit>, b: seq<Hit>, all: map<string, real>, count: nat)
    requires IsBest(a, all, count) && IsBest(b, all, count)
    ensures Scores(a) == Scores(b)
  {
    forall i | 0 <= i < count ensures a[i].score == b[i].score {
      BestNeverBeaten(a, b, all, count, i);
      BestNeverBeaten(b, a, all, count, i);
    }
  }

  lemma BestNeverBeaten(a: seq<Hit>, b: seq<Hit>, all: map<string, real>, count: nat, i: nat)
    requires IsBest(a, all, count) && IsBest(b, all, count) && i < count
    ensures a[i].score <= b[i].score
  {
    if a[i].score > b[i].score {
      var p, q := a[..i + 1], b[..i];
      forall id | id in Ids(p) ensures id in Ids(q) {
        var k :| 0 <= k < |p| && p[k].id == id;
        BetterIsListedBefore(b, all, count, i, a[k].id);
      }
      assert DistinctIds(p) && DistinctIds(q);
      IdsCount(p);
      IdsCount(q);
      SubsetSize(Ids(p), Ids(q));
    }
  }

  /** Whatever beats the i-th of a best selection is listed in front of it. */
  lemma BetterIsListedBefore(b: seq<Hit>, all: map<string, real>, count: nat, i: nat, id: string)
    requires IsBest(b, all, count) && i < count
    requires id in all && all[id] > b[i].score
    ensures id in Ids(b[..i])
  {
    assert id in Ids(b);
    var j :| 0 <= j < |b| && b[j].id == id;
    assert j < i;
    assert b[..i][j].id == id;
  }

  lemma SubsetSize<T>(a: set<T>, b: set<T>)
    requires a <= b
    ensures |a| <= |b|
  {
    assert b == a + (b - a);
  }

  /** Sorting all hits and keeping a prefix is a best selection. */
  lemma SortedPrefixIsBest(hits: seq<Hit>, all: map<string, real>, count: nat)
    requires DistinctIds(hits) && count <= |hits|
    requires ScoredBy(hits, all) && Ids(hits) == all.Keys
    ensures |SortDescending(hits)| == |hits|
    ensures IsBest(SortDescending(hits)[..count], all, count)
  {
    SortDescendingSorts(hits);
    var d := SortDescending(hits);
    forall i | 0 <= i < |d| ensures d[i].id in all && d[i].score == all[d[i].id] {
      assert d[i] in hits;
    }
    forall id | id in all ensures id in Ids(d) {
      var j :| 0 <= j < |hits| && hits[j].id == id;
      assert hits[j] in d;
      var k :| 0 <= k < |d| && d[k] == hits[j];
    }
    PrefixIsBest(d, all, count);
  }

  /** Any prefix of a complete descending list is a best selection. */
  lemma PrefixIsBest(d: seq<Hit>, all: map<string, real>, count: nat)
    requires Descending(d) && DistinctIds(d) && ScoredBy(d, all) && count <= |d|
    requires all.Keys <= Ids(d)
    ensures IsBest(d[..count], all, count)
  {
    var found := d[..count];
    forall k | 0 <= k < count ensures d[k].id in Ids(found) { assert found[k].id == d[k].id; }
    forall id, i | id in all && id !in Ids(found) && 0 <= i < |found| ensures all[id] <= found[i].score {
      var j :| 0 <= j < |d| && d[j].id == id;
    }
  }
}
