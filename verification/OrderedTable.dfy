/**
 Insertion-ordered dictionaries as the composer uses them: a list of values with distinct
 keys, filled by inserting items one after another and combining values that share a key.
 */
module OrderedTable {

  /** The position of the first value with the key, or the length of the list. */
  function IndexOf<V>(t: seq<V>, key: V -> string, k: string): (i: nat)
    ensures i <= |t| && (i < |t| ==> key(t[i]) == k)
    ensures forall j | 0 <= j < i :: key(t[j]) != k
  {
    if t == [] then 0
    else
      var i := IndexOf(t[..|t| - 1], key, k);
      if i < |t| - 1 || key(t[|t| - 1]) == k then i else |t|
  }

  /** Inserting keeps the place of a key that is there already and appends a new one. */
  function Put<V>(t: seq<V>, key: V -> string, combine: (V, V) -> V, v: V): seq<V> {
    var i := IndexOf(t, key, key(v));
    if i < |t| then t[i := combine(t[i], v)] else t + [v]
  }

  function FoldFrom<V>(t: seq<V>, key: V -> string, combine: (V, V) -> V, items: seq<V>): seq<V> {
    if items == [] then t
    else Put(FoldFrom(t, key, combine, items[..|items| - 1]), key, combine, items[|items| - 1])
  }

  function Fold<V>(key: V -> string, combine: (V, V) -> V, items: seq<V>): seq<V> {
    FoldFrom([], key, combine, items)
  }

  ghost predicate DistinctKeys<V>(t: seq<V>, key: V -> string) {
    forall i, j | 0 <= i < j < |t| :: key(t[i]) != key(t[j])
  }

  ghost predicate Associative<V(!new)>(combine: (V, V) -> V) {
    forall a, b, c :: combine(combine(a, b), c) == combine(a, combine(b, c))
  }

  ghost predicate KeepsKey<V(!new)>(key: V -> string, combine: (V, V) -> V) {
    forall a, b | key(a) == key(b) :: key(combine(a, b)) == key(a)
  }

  ghost function KeySet<V>(t: seq<V>, key: V -> string): set<string> {
    set i | 0 <= i < |t| :: key(t[i])
  }

  // ----- insertion -----

  lemma IndexIs<V>(t: seq<V>, key: V -> string, k: string, i: nat)
    requires i < |t| && key(t[i]) == k && forall j | 0 <= j < i :: key(t[j]) != k
    ensures IndexOf(t, key, k) == i
  {
  }

  lemma PutFacts<V(!new)>(t: seq<V>, key: V -> string, combine: (V, V) -> V, v: V)
    requires KeepsKey(key, combine) && DistinctKeys(t, key)
    ensures DistinctKeys(Put(t, key, combine, v), key)
    ensures KeySet(Put(t, key, combine, v), key) == KeySet(t, key) + {key(v)}
    ensures |Put(t, key, combine, v)| == if key(v) in KeySet(t, key) then |t| else |t| + 1
    ensures IndexOf(t, key, key(v)) < |t| <==> key(v) in KeySet(t, key)
  {
    var p, i := Put(t, key, combine, v), IndexOf(t, key, key(v));
    assert forall j | 0 <= j < |t| :: key(p[j]) == key(t[j]);
    forall j | 0 <= j < |t| ensures key(t[j]) in KeySet(p, key) { assert key(p[j]) in KeySet(p, key); }
    assert key(v) in KeySet(p, key) by { assert key(p[if i < |t| then i else |t|]) == key(v); }
    if i < |t| { assert key(t[i]) in KeySet(t, key); }
  }

  lemma {:induction false} FoldFromFacts<V(!new)>(t: seq<V>, key: V -> string, combine: (V, V) -> V, items: seq<V>)
    requires KeepsKey(key, combine) && DistinctKeys(t, key)
    ensures DistinctKeys(FoldFrom(t, key, combine, items), key)
    ensures KeySet(FoldFrom(t, key, combine, items), key) == KeySet(t, key) + KeySet(items, key)
  {
    if items != [] {
      var front, last := items[..|items| - 1], items[|items| - 1];
      FoldFromFacts(t, key, combine, front);
      PutFacts(FoldFrom(t, key, combine, front), key, combine, last);
      assert KeySet(items, key) == KeySet(front, key) + {key(last)} by {
        assert forall j | 0 <= j < |front| :: items[j] == front[j];
        forall j | 0 <= j < |front|
          ensures key(front[j]) in KeySet(items, key)
        {
          assert key(items[j]) in KeySet(items, key);
        }
        assert key(items[|items| - 1]) in KeySet(items, key);
      }
    }
  }

  /** Inserting two values under one key is inserting their combination. */
  lemma PutTwice<V(!new)>(t: seq<V>, key: V -> string, combine: (V, V) -> V, a: V, b: V)
    requires KeepsKey(key, combine) && Associative(combine) && key(a) == key(b)
    ensures Put(Put(t, key, combine, a), key, combine, b) == Put(t, key, combine, combine(a, b))
  {
    var i := IndexOf(t, key, key(a));
    var p := Put(t, key, combine, a);
    assert forall j | 0 <= j < i :: p[j] == t[j];
    IndexIs(p, key, key(b), i);
  }

  /** Insertions under different keys commute once the key of one of them has its place. */
  lemma PutsCommute<V(!new)>(t: seq<V>, key: V -> string, combine: (V, V) -> V, a: V, b: V)
    requires KeepsKey(key, combine) && DistinctKeys(t, key)
    requires key(a) != key(b) && key(a) in KeySet(t, key)
    ensures Put(Put(t, key, combine, a), key, combine, b) == Put(Put(t, key, combine, b), key, combine, a)
  {
    var i, j := IndexOf(t, key, key(a)), IndexOf(t, key, key(b));
    var k :| 0 <= k < |t| && key(t[k]) == key(a);
    assert i < |t|;
    var ta, tb := Put(t, key, combine, a), Put(t, key, combine, b);
    assert forall q | 0 <= q < |t| :: key(ta[q]) == key(t[q]) && key(tb[q]) == key(t[q]);
    IndexIs(tb, key, key(a), i);
    if j < |t| {
      IndexIs(ta, key, key(b), j);
    } else {
      assert IndexOf(ta, key, key(b)) == |t|;
    }
  }

  // ----- folding -----

  lemma {:induction false} FoldConcat<V>(t: seq<V>, key: V -> string, combine: (V, V) -> V, a: seq<V>, b: seq<V>)
    ensures FoldFrom(t, key, combine, a + b) == FoldFrom(FoldFrom(t, key, combine, a), key, combine, b)
  {
    if b == [] {
      assert a + b == a;
    } else {
      FoldConcat(t, key, combine, a, b[..|b| - 1]);
      assert (a + b)[..|a + b| - 1] == a + b[..|b| - 1];
    }
  }

  /** Combining into one of the items is the same as inserting the value after them all. */
  lemma {:induction false} FoldCombined<V(!new)>(t: seq<V>, key: V -> string, combine: (V, V) -> V,
                                                 items: seq<V>, i: nat, v: V)
    requires KeepsKey(key, combine) && Associative(combine) && DistinctKeys(t, key) && DistinctKeys(items, key)
    requires i < |items| && key(items[i]) == key(v)
    ensures FoldFrom(t, key, combine, items[i := combine(items[i], v)])
            == Put(FoldFrom(t, key, combine, items), key, combine, v)
  {
    var n := |items| - 1;
    var front, last := items[..n], items[n];
    var changed := items[i := combine(items[i], v)];
    if i == n {
      assert changed[..n] == front;
      hide Put, DistinctKeys;
      PutTwice(FoldFrom(t, key, combine, front), key, combine, last, v);
    } else {
      assert key(v) != key(last) && DistinctKeys(front, key);
      assert changed[..n] == front[i := combine(front[i], v)] && changed[n] == last;
      hide Put, DistinctKeys, KeySet, Associative, KeepsKey;
      FoldCombined(t, key, combine, front, i, v);
      FoldHasKey(t, key, combine, front, i);
      PutsCommute(FoldFrom(t, key, combine, front), key, combine, v, last);
    }
  }

  lemma FoldHasKey<V(!new)>(t: seq<V>, key: V -> string, combine: (V, V) -> V, items: seq<V>, i: nat)
    requires KeepsKey(key, combine) && DistinctKeys(t, key) && i < |items|
    ensures DistinctKeys(FoldFrom(t, key, combine, items), key)
    ensures key(items[i]) in KeySet(FoldFrom(t, key, combine, items), key)
  {
    FoldFromFacts(t, key, combine, items);
    assert key(items[i]) in KeySet(items, key);
  }

  /** Folding a folded list gives the same as folding the list itself. */
  lemma {:induction false} FoldOfFold<V(!new)>(t: seq<V>, key: V -> string, combine: (V, V) -> V, items: seq<V>)
    requires KeepsKey(key, combine) && Associative(combine) && DistinctKeys(t, key)
    ensures FoldFrom(t, key, combine, Fold(key, combine, items)) == FoldFrom(t, key, combine, items)
  {
    if items != [] {
      var front, last := items[..|items| - 1], items[|items| - 1];
      FoldOfFold(t, key, combine, front);
      FoldFromFacts([], key, combine, front);
      var e := Fold(key, combine, front);
      var i := IndexOf(e, key, key(last));
      if i < |e| {
        FoldCombined(t, key, combine, e, i, last);
      } else {
        assert (e + [last])[..|e|] == e;
      }
    }
  }

  // ----- what a fold holds -----

  /** All items with the key, in order. */
  function Occurrences<V>(key: V -> string, items: seq<V>, k: string): seq<V> {
    if items == [] then []
    else
      var front := Occurrences(key, items[..|items| - 1], k);
      if key(items[|items| - 1]) == k then front + [items[|items| - 1]] else front
  }

  function Reduce<V>(combine: (V, V) -> V, items: seq<V>): V
    requires items != []
  {
    if |items| == 1 then items[0] else combine(Reduce(combine, items[..|items| - 1]), items[|items| - 1])
  }

  /** The keys in the order in which they first occur. */
  function FirstOccurrences<V>(key: V -> string, items: seq<V>): seq<string> {
    if items == [] then []
    else
      var front := FirstOccurrences(key, items[..|items| - 1]);
      if key(items[|items| - 1]) in front then front else front + [key(items[|items| - 1])]
  }

  /**
   The reference reading of a fold: one value per key, in order of first occurrence, each the
   combination of all occurrences of its key from left to right.
   */
  lemma {:induction false} FoldMeaning<V(!new)>(key: V -> string, combine: (V, V) -> V, items: seq<V>)
    requires KeepsKey(key, combine)
    ensures var t, ks := Fold(key, combine, items), FirstOccurrences(key, items);
            && |t| == |ks| && (forall i | 0 <= i < |t| :: key(t[i]) == ks[i])
            && forall i | 0 <= i < |t| ::
               Occurrences(key, items, ks[i]) != [] && t[i] == Reduce(combine, Occurrences(key, items, ks[i]))
    ensures DistinctKeys(Fold(key, combine, items), key)
    ensures forall k | k !in FirstOccurrences(key, items) :: Occurrences(key, items, k) == []
  {
    FoldFromFacts([], key, combine, items);
    if items != [] {
      var front, last := items[..|items| - 1], items[|items| - 1];
      FoldMeaning(key, combine, front);
      var t, ks := Fold(key, combine, front), FirstOccurrences(key, front);
      var j := IndexOf(t, key, key(last));
      if j < |t| {
        var occ := Occurrences(key, front, key(last));
        assert ks[j] == key(last);
        assert (occ + [last])[..|occ|] == occ;
      }
    }
  }

  // ----- groups -----

  function Flat<V>(groups: seq<seq<V>>): seq<V> {
    if groups == [] then [] else Flat(groups[..|groups| - 1]) + groups[|groups| - 1]
  }

  function FoldEach<V>(key: V -> string, combine: (V, V) -> V, groups: seq<seq<V>>): (r: seq<seq<V>>)
    ensures |r| == |groups|
    ensures forall i | 0 <= i < |groups| :: r[i] == Fold(key, combine, groups[i])
  {
    seq(|groups|, i requires 0 <= i < |groups| => Fold(key, combine, groups[i]))
  }

  /** Folding groups first and then folding their results gives the flat fold, order included. */
  lemma {:induction false} GroupingIrrelevant<V(!new)>(key: V -> string, combine: (V, V) -> V, groups: seq<seq<V>>)
    requires KeepsKey(key, combine) && Associative(combine)
    ensures Fold(key, combine, Flat(FoldEach(key, combine, groups))) == Fold(key, combine, Flat(groups))
  {
    if groups != [] {
      var front, last := groups[..|groups| - 1], groups[|groups| - 1];
      GroupingIrrelevant(key, combine, front);
      assert FoldEach(key, combine, groups)[..|groups| - 1] == FoldEach(key, combine, front);
      FoldConcat([], key, combine, Flat(FoldEach(key, combine, front)), Fold(key, combine, last));
      FoldConcat([], key, combine, Flat(front), last);
      FoldFromFacts([], key, combine, Flat(front));
      FoldOfFold(Fold(key, combine, Flat(front)), key, combine, last);
    }
  }

  // ----- conflicts -----

  /** How many insertions met a key that was there already. */
  function Conflicts<V>(key: V -> string, combine: (V, V) -> V, items: seq<V>): nat {
    if items == [] then 0
    else
      var front := items[..|items| - 1];
      var t := Fold(key, combine, front);
      Conflicts(key, combine, front) + if IndexOf(t, key, key(items[|items| - 1])) < |t| then 1 else 0
  }

  /** Conflicts are total occurrences minus distinct keys. */
  lemma {:induction false} ConflictCount<V(!new)>(key: V -> string, combine: (V, V) -> V, items: seq<V>)
    requires KeepsKey(key, combine)
    ensures Conflicts(key, combine, items) == |items| - |KeySet(items, key)|
    ensures |Fold(key, combine, items)| == |KeySet(items, key)|
  {
    FoldFromFacts([], key, combine, items);
    DistinctCount(Fold(key, combine, items), key);
    if items != [] {
      var front, last := items[..|items| - 1], items[|items| - 1];
      ConflictCount(key, combine, front);
      FoldFromFacts([], key, combine, front);
      PutFacts(Fold(key, combine, front), key, combine, last);
    }
  }

  lemma {:induction false} DistinctCount<V>(t: seq<V>, key: V -> string)
    requires DistinctKeys(t, key)
    ensures |KeySet(t, key)| == |t|
  {
    if t == [] {
      assert KeySet(t, key) == {};
    } else {
      var front, last := t[..|t| - 1], t[|t| - 1];
      DistinctCount(front, key);
      assert KeySet(t, key) == KeySet(front, key) + {key(last)} by {
        assert forall j | 0 <= j < |front| :: t[j] == front[j];
        forall j | 0 <= j < |front| ensures key(front[j]) in KeySet(t, key) { assert key(t[j]) in KeySet(t, key); }
        assert key(t[|t| - 1]) in KeySet(t, key);
      }
      assert key(last) !in KeySet(front, key);
    }
  }

  function TotalConflicts<V>(key: V -> string, combine: (V, V) -> V, groups: seq<seq<V>>): nat {
    if groups == [] then 0
    else TotalConflicts(key, combine, groups[..|groups| - 1]) + Conflicts(key, combine, groups[|groups| - 1])
  }

  /** Conflicts add up: those inside the groups and those between them are those of the flat list. */
  lemma ConflictsAddUp<V(!new)>(key: V -> string, combine: (V, V) -> V, groups: seq<seq<V>>)
    requires KeepsKey(key, combine) && Associative(combine)
    ensures TotalConflicts(key, combine, groups) + Conflicts(key, combine, Flat(FoldEach(key, combine, groups)))
         == Conflicts(key, combine, Flat(groups))
  {
    GroupingIrrelevant(key, combine, groups);
    ConflictCount(key, combine, Flat(groups));
    ConflictCount(key, combine, Flat(FoldEach(key, combine, groups)));
    InnerConflicts(key, combine, groups);
  }

  lemma {:induction false} InnerConflicts<V(!new)>(key: V -> string, combine: (V, V) -> V, groups: seq<seq<V>>)
    requires KeepsKey(key, combine)
    ensures TotalConflicts(key, combine, groups) == |Flat(groups)| - |Flat(FoldEach(key, combine, groups))|
  {
    if groups != [] {
      var front, last := groups[..|groups| - 1], groups[|groups| - 1];
      InnerConflicts(key, combine, front);
      assert FoldEach(key, combine, groups)[..|groups| - 1] == FoldEach(key, combine, front);
      ConflictCount(key, combine, last);
    }
  }
}
