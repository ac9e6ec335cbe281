/**
 What the in-memory LRU+TTL cache means: a list of distinct keys, most recently used first,
 and the effect of each operation on it. The inclusion property of caches of different sizes
 is proved here, over whole runs.
 */
module Recency {
  import opened Basics

  /** `expiresAt` 0 means that the entry never expires. */
  datatype Entry<T> = Entry(value: T, expiresAt: int, createdAt: int, accessCount: nat, lastAccessedAt: int)

  datatype Slot<T> = Slot(key: string, entry: Entry<T>)

  predicate Expired<T>(e: Entry<T>, now: int) {
    e.expiresAt > 0 && now > e.expiresAt
  }

  ghost predicate DistinctKeys<T>(list: seq<Slot<T>>) {
    forall i, j | 0 <= i < j < |list| :: list[i].key != list[j].key
  }

  function Lookup<T>(list: seq<Slot<T>>, key: string): Option<Entry<T>> {
    if list == [] then None
    else if list[0].key == key then Some(list[0].entry)
    else Lookup(list[1..], key)
  }

  function Without<T>(list: seq<Slot<T>>, key: string): seq<Slot<T>> {
    if list == [] then []
    else if list[0].key == key then Without(list[1..], key)
    else [list[0]] + Without(list[1..], key)
  }

  /** The list without the expired entries whose key is in `keys`. */
  function Purged<T>(list: seq<Slot<T>>, now: int, keys: set<string>): seq<Slot<T>> {
    if list == [] then []
    else if list[0].key in keys && Expired(list[0].entry, now) then Purged(list[1..], now, keys)
    else [list[0]] + Purged(list[1..], now, keys)
  }

  function KeysOf<T>(list: seq<Slot<T>>): set<string> {
    set i | 0 <= i < |list| :: list[i].key
  }

  /** The most entries a cache may hold; a negative limit holds none. */
  function Cap(maxSize: int): nat {
    if maxSize < 0 then 0 else maxSize
  }

  function Evicted<T>(list: seq<Slot<T>>, maxSize: int): seq<Slot<T>> {
    if |list| > maxSize && list != [] then Evicted(list[..|list| - 1], maxSize) else list
  }

  // ----- operations -----

  datatype Op<T> =
    | Get(key: string)
    | Set(key: string, value: T, ttlMs: Option<int>)
    | Delete(key: string)
    | Has(key: string)
    | Purge
    | Clear

  datatype Reply<T> = Value(found: Option<T>) | Flag(flag: bool) | Count(count: nat) | Done

  function NewEntry<T>(value: T, ttlMs: Option<int>, defaultTtlMs: int, now: int): Entry<T> {
    var ttl := if ttlMs.Some? then ttlMs.value else defaultTtlMs;
    Entry(value, if ttl > 0 then now + ttl else 0, now, 0, now)
  }

  function Touched<T>(e: Entry<T>, now: int): Entry<T> {
    e.(accessCount := e.accessCount + 1, lastAccessedAt := now)
  }

  function Apply<T>(list: seq<Slot<T>>, maxSize: int, defaultTtlMs: int, now: int,
                    op: Op<T>): (seq<Slot<T>>, Reply<T>) {
    match op
    case Get(key) =>
      (match Lookup(list, key)
       case None => (list, Value(None))
       case Some(e) =>
         if Expired(e, now) then (Without(list, key), Value(None))
         else ([Slot(key, Touched(e, now))] + Without(list, key), Value(Some(e.value))))
    case Set(key, value, ttlMs) =>
      var slot := Slot(key, NewEntry(value, ttlMs, defaultTtlMs, now));
      if Lookup(list, key).Some? then ([slot] + Without(list, key), Done)
      else (Evicted([slot] + list, maxSize), Done)
    case Delete(key) => (Without(list, key), Flag(Lookup(list, key).Some?))
    case Has(key) =>
      (match Lookup(list, key)
       case None => (list, Flag(false))
       case Some(e) => if Expired(e, now) then (Without(list, key), Flag(false)) else (list, Flag(true)))
    case Purge =>
      var kept := Purged(list, now, KeysOf(list));
      (kept, Count(if |kept| <= |list| then |list| - |kept| else 0))
    case Clear => ([], Done)
  }

  // ----- facts about the list functions -----

  lemma {:induction false} LookupAt<T>(list: seq<Slot<T>>, i: nat)
    requires DistinctKeys(list) && i < |list|
    ensures Lookup(list, list[i].key) == Some(list[i].entry)
    ensures Without(list, list[i].key) == list[..i] + list[i + 1..]
  {
    var rest := list[1..];
    assert DistinctKeys(rest);
    if i == 0 {
      LookupMissing(rest, list[0].key);
    } else {
      LookupAt(rest, i - 1);
      assert list[..i] + list[i + 1..] == [list[0]] + (rest[..i - 1] + rest[i..]);
    }
  }

  lemma {:induction false} LookupMissing<T>(list: seq<Slot<T>>, key: string)
    requires forall i | 0 <= i < |list| :: list[i].key != key
    ensures Lookup(list, key) == None && Without(list, key) == list
  {
    if list != [] {
      LookupMissing(list[1..], key);
      assert list == [list[0]] + list[1..];
    }
  }

  lemma {:induction false} WithoutFacts<T>(list: seq<Slot<T>>, key: string)
    requires DistinctKeys(list)
    ensures DistinctKeys(Without(list, key))
    ensures KeysOf(Without(list, key)) == KeysOf(list) - {key}
    ensures |Without(list, key)| == if Lookup(list, key).Some? then |list| - 1 else |list|
    ensures Lookup(list, key).Some? <==> key in KeysOf(list)
  {
    if i :| 0 <= i < |list| && list[i].key == key {
      LookupAt(list, i);
      var w := Without(list, key);
      forall k | k in KeysOf(list) - {key} ensures k in KeysOf(w) {
        var j :| 0 <= j < |list| && list[j].key == k;
        assert w[if j < i then j else j - 1].key == k;
      }
      assert list[i].key in KeysOf(list);
      assert forall j | 0 <= j < |w| :: w[j] == list[if j < i then j else j + 1];
    } else {
      LookupMissing(list, key);
    }
  }

  lemma {:induction false} KeyCount<T>(list: seq<Slot<T>>)
    requires DistinctKeys(list)
    ensures |KeysOf(list)| == |list|
  {
    if list == [] {
      assert KeysOf(list) == {};
    } else {
      KeysOfLast(list);
      hide KeysOf, DistinctKeys;
      KeyCount(list[..|list| - 1]);
    }
  }

  lemma KeysOfLast<T>(list: seq<Slot<T>>)
    requires list != [] && DistinctKeys(list)
    ensures var front, key := list[..|list| - 1], list[|list| - 1].key;
            DistinctKeys(front) && key !in KeysOf(front) && KeysOf(list) == KeysOf(front) + {key}
  {
    var front, last := list[..|list| - 1], list[|list| - 1];
    forall k ensures k in KeysOf(list) <==> k in KeysOf(front) + {last.key} {
      if k in KeysOf(front) {
        var i :| 0 <= i < |front| && front[i].key == k;
        assert list[i].key == k;
      }
      if k in KeysOf(list) {
        var i :| 0 <= i < |list| && list[i].key == k;
        if i < |front| { assert front[i].key == k; }
      }
    }
  }

  lemma {:induction false} PurgedFacts<T>(list: seq<Slot<T>>, now: int, keys: set<string>)
    requires DistinctKeys(list)
    ensures DistinctKeys(Purged(list, now, keys))
    ensures |Purged(list, now, keys)| <= |list|
    ensures forall s | s in Purged(list, now, keys) :: s in list && !(s.key in keys && Expired(s.entry, now))
    ensures forall s | s in list && !(s.key in keys && Expired(s.entry, now)) :: s in Purged(list, now, keys)
  {
    if list != [] {
      var rest, p := list[1..], Purged(list[1..], now, keys);
      PurgedFacts(rest, now, keys);
      assert list == [list[0]] + rest;
      forall i | 0 <= i < |p| ensures p[i].key != list[0].key {
        assert p[i] in p;
        assert p[i] in rest;
      }
    }
  }

  /** Looking at one more key removes its entry exactly when it has expired. */
  lemma {:induction false} PurgeOneMore<T>(list: seq<Slot<T>>, now: int, keys: set<string>, i: nat)
    requires DistinctKeys(list) && i < |list| && list[i].key !in keys
    ensures var key := list[i].key;
            && Lookup(Purged(list, now, keys), key) == Some(list[i].entry)
            && Purged(list, now, keys + {key})
               == if Expired(list[i].entry, now) then Without(Purged(list, now, keys), key) else Purged(list, now, keys)
  {
    var key, rest := list[i].key, list[1..];
    assert DistinctKeys(rest);
    if i == 0 {
      PurgedFacts(rest, now, keys);
      var p := Purged(rest, now, keys);
      forall j | 0 <= j < |p| ensures p[j].key != key { assert p[j] in p; assert p[j] in rest; }
      LookupMissing(p, key);
      PurgeIgnoresAbsent(rest, now, keys, key);
    } else {
      PurgeOneMore(rest, now, keys, i - 1);
    }
  }

  lemma ApplyPurge<T>(list: seq<Slot<T>>, maxSize: int, defaultTtlMs: int, now: int)
    requires DistinctKeys(list)
    ensures var kept := Purged(list, now, KeysOf(list));
            |kept| <= |list| && Apply(list, maxSize, defaultTtlMs, now, Purge) == (kept, Count(|list| - |kept|))
  {
    PurgedFacts(list, now, KeysOf(list));
  }

  lemma {:induction false} PurgeIgnoresAbsent<T>(list: seq<Slot<T>>, now: int, keys: set<string>, key: string)
    requires forall i | 0 <= i < |list| :: list[i].key != key
    ensures Purged(list, now, keys + {key}) == Purged(list, now, keys)
  {
    if list != [] {
      PurgeIgnoresAbsent(list[1..], now, keys, key);
    }
  }

  lemma {:induction false} PurgeNothing<T>(list: seq<Slot<T>>, now: int)
    ensures Purged(list, now, {}) == list
  {
    if list != [] {
      PurgeNothing(list[1..], now);
      assert list == [list[0]] + list[1..];
    }
  }

  lemma {:induction false} EvictedIsPrefix<T>(list: seq<Slot<T>>, maxSize: int)
    ensures Evicted(list, maxSize) == if |list| <= Cap(maxSize) then list else list[..Cap(maxSize)]
  {
    if |list| > maxSize && list != [] {
      EvictedIsPrefix(list[..|list| - 1], maxSize);
    }
  }

  /** Every operation keeps the keys distinct and the list within the limit. */
  lemma ApplyKeepsShape<T>(list: seq<Slot<T>>, maxSize: int, defaultTtlMs: int, now: int, op: Op<T>)
    requires DistinctKeys(list) && |list| <= Cap(maxSize)
    ensures var after := Apply(list, maxSize, defaultTtlMs, now, op).0;
            DistinctKeys(after) && |after| <= Cap(maxSize)
  {
    match op
    case Get(key) => WithoutFacts(list, key); HeadIsNew(list, key);
    case Set(key, value, ttlMs) =>
      WithoutFacts(list, key);
      HeadIsNew(list, key);
      if Lookup(list, key).None? {
        EvictedIsPrefix([Slot(key, NewEntry(value, ttlMs, defaultTtlMs, now))] + list, maxSize);
        assert forall i | 0 <= i < |list| :: list[i].key in KeysOf(list);
      }
    case Delete(key) => WithoutFacts(list, key);
    case Has(key) => WithoutFacts(list, key);
    case Purge => PurgedFacts(list, now, KeysOf(list));
    case Clear =>
  }

  lemma HeadIsNew<T>(list: seq<Slot<T>>, key: string)
    requires DistinctKeys(list)
    ensures forall e :: DistinctKeys([Slot(key, e)] + Without(list, key))
  {
    WithoutFacts(list, key);
    var w := Without(list, key);
    assert forall i | 0 <= i < |w| :: w[i].key in KeysOf(w);
  }

  // ----- inclusion of a smaller cache in a larger one -----

  /** `a` is a subsequence of `b`, entries included. */
  ghost predicate Sub<T>(a: seq<Slot<T>>, b: seq<Slot<T>>) {
    if a == [] then true
    else b != [] && if a[0] == b[0] then Sub(a[1..], b[1..]) else Sub(a, b[1..])
  }

  lemma {:induction false} SubLength<T>(a: seq<Slot<T>>, b: seq<Slot<T>>)
    requires Sub(a, b)
    ensures |a| <= |b|
    ensures forall s | s in a :: s in b
  {
    if a != [] {
      SubLength(if a[0] == b[0] then a[1..] else a, b[1..]);
      assert a == [a[0]] + a[1..] && b == [b[0]] + b[1..];
    }
  }

  lemma {:induction false} SubTail<T>(a: seq<Slot<T>>, b: seq<Slot<T>>)
    requires a != [] && Sub(a, b)
    ensures b != [] && Sub(a[1..], b[1..])
  {
    if a[0] != b[0] {
      SubTail(a, b[1..]);
      SubWider(a[1..], b[1..]);
    }
  }

  lemma {:induction false} SubWider<T>(a: seq<Slot<T>>, b: seq<Slot<T>>)
    requires b != [] && Sub(a, b[1..])
    ensures Sub(a, b)
  {
    if a != [] && a[0] == b[0] {
      SubTail(a, b[1..]);
      SubWider(a[1..], b[1..]);
    }
  }

  lemma {:induction false} SubWithout<T>(a: seq<Slot<T>>, b: seq<Slot<T>>, key: string)
    requires Sub(a, b)
    ensures Sub(Without(a, key), Without(b, key))
  {
    if a != [] {
      if a[0] == b[0] {
        SubWithout(a[1..], b[1..], key);
      } else {
        SubWithout(a, b[1..], key);
        if b[0].key != key { SubWider(Without(a, key), Without(b, key)); }
      }
    }
  }

  lemma {:induction false} SubPurged<T>(a: seq<Slot<T>>, b: seq<Slot<T>>, now: int, ka: set<string>, kb: set<string>)
    requires Sub(a, b)
    requires KeysOf(a) <= ka && KeysOf(b) <= kb
    ensures Sub(Purged(a, now, ka), Purged(b, now, kb))
    ensures |a| - |Purged(a, now, ka)| <= |b| - |Purged(b, now, kb)|
  {
    if a == [] {
      if b != [] {
        assert forall i | 0 <= i < |b[1..]| :: b[1..][i] == b[i + 1];
        SubPurged(a, b[1..], now, ka, kb);
      }
    } else {
      assert a[0].key in KeysOf(a) && b[0].key in KeysOf(b);
      forall i | 0 <= i < |b| - 1
        ensures b[1..][i].key in kb
      {
        assert b[1..][i] == b[i + 1];
        assert b[i + 1].key in KeysOf(b);
      }
      forall i | 0 <= i < |a| - 1
        ensures a[1..][i].key in ka
      {
        assert a[1..][i] == a[i + 1];
        assert a[i + 1].key in KeysOf(a);
      }
      if a[0] == b[0] {
        SubPurged(a[1..], b[1..], now, ka, kb);
      } else {
        SubPurged(a, b[1..], now, ka, kb);
        if !Expired(b[0].entry, now) { SubWider(Purged(a, now, ka), Purged(b, now, kb)); }
      }
    }
  }

  lemma {:induction false} SubDropLast<T>(a: seq<Slot<T>>, b: seq<Slot<T>>)
    requires a != [] && Sub(a, b)
    ensures b != [] && Sub(a[..|a| - 1], b[..|b| - 1])
  {
    if |a| > 1 {
      if a[0] == b[0] {
        SubDropLast(a[1..], b[1..]);
        SubLength(a, b);
        assert a[1..][..|a| - 2] == a[..|a| - 1][1..] && b[1..][..|b| - 2] == b[..|b| - 1][1..];
      } else {
        SubDropLast(a, b[1..]);
        SubLength(a, b[1..]);
        assert b[1..][..|b| - 2] == b[..|b| - 1][1..];
      }
    }
  }

  lemma {:induction false} SubShorter<T>(a: seq<Slot<T>>, b: seq<Slot<T>>)
    requires a != [] && Sub(a, b)
    ensures Sub(a[..|a| - 1], b)
  {
    SubDropLast(a, b);
    SubExtend(a[..|a| - 1], b[..|b| - 1], b[|b| - 1]);
    assert b == b[..|b| - 1] + [b[|b| - 1]];
  }

  lemma {:induction false} SubExtend<T>(a: seq<Slot<T>>, b: seq<Slot<T>>, s: Slot<T>)
    requires Sub(a, b)
    ensures Sub(a, b + [s])
  {
    if a != [] {
      assert (b + [s])[1..] == b[1..] + [s];
      SubExtend(if a[0] == b[0] then a[1..] else a, b[1..], s);
    }
  }

  lemma SubLookup<T>(a: seq<Slot<T>>, b: seq<Slot<T>>, key: string)
    requires Sub(a, b) && DistinctKeys(a) && DistinctKeys(b)
    ensures Lookup(a, key).Some? ==> Lookup(b, key) == Lookup(a, key)
  {
    if i :| 0 <= i < |a| && a[i].key == key {
      LookupAt(a, i);
      SubLength(a, b);
      assert a[i] in b;
      var j :| 0 <= j < |b| && b[j] == a[i];
      LookupAt(b, j);
    } else {
      LookupMissing(a, key);
    }
  }

  /**
   The smaller cache is included in the larger one, and the larger one's surplus never
   exceeds the difference of the two limits.
   */
  ghost predicate Included<T>(small: seq<Slot<T>>, large: seq<Slot<T>>, smallSize: int, largeSize: int) {
    && DistinctKeys(small) && DistinctKeys(large)
    && |small| <= Cap(smallSize) && |large| <= Cap(largeSize)
    && Sub(small, large)
    && |large| - |small| <= Cap(largeSize) - Cap(smallSize)
  }

  /** The larger cache answers at least as well: every hit of the smaller one is the same hit there. */
  ghost predicate NoWorse<T>(small: Reply<T>, large: Reply<T>) {
    match small
    case Value(found) => large.Value? && (found.Some? ==> large.found == found)
    case Flag(flag) => large.Flag? && (flag ==> large.flag)
    case Count(count) => large.Count? && count <= large.count
    case Done => large.Done?
  }

  lemma InclusionStep<T>(small: seq<Slot<T>>, large: seq<Slot<T>>, smallSize: int, largeSize: int,
                         defaultTtlMs: int, now: int, op: Op<T>)
    requires smallSize <= largeSize && Included(small, large, smallSize, largeSize)
    ensures var (a, ra) := Apply(small, smallSize, defaultTtlMs, now, op);
            var (b, rb) := Apply(large, largeSize, defaultTtlMs, now, op);
            Included(a, b, smallSize, largeSize) && NoWorse(ra, rb)
  {
    ApplyKeepsShape(small, smallSize, defaultTtlMs, now, op);
    ApplyKeepsShape(large, largeSize, defaultTtlMs, now, op);
    if op.Purge? {
      SubPurged(small, large, now, KeysOf(small), KeysOf(large));
      PurgedFacts(small, now, KeysOf(small));
      PurgedFacts(large, now, KeysOf(large));
    } else if !op.Clear? {
      SubLookup(small, large, op.key);
      SubWithout(small, large, op.key);
      WithoutFacts(small, op.key);
      WithoutFacts(large, op.key);
      if Lookup(small, op.key).None? { WithoutAbsent(small, op.key); }
      if Lookup(large, op.key).None? { WithoutAbsent(large, op.key); }
      if op.Set? {
        SetIncluded(small, large, smallSize, largeSize, Slot(op.key, NewEntry(op.value, op.ttlMs, defaultTtlMs, now)));
      }
    }
  }

  lemma WithoutAbsent<T>(list: seq<Slot<T>>, key: string)
    requires DistinctKeys(list) && Lookup(list, key).None?
    ensures Without(list, key) == list
  {
    if i :| 0 <= i < |list| && list[i].key == key { LookupAt(list, i); } else { LookupMissing(list, key); }
  }

  /** The one case that can evict: a new key pushes out at most the last entry of each list. */
  lemma SetIncluded<T>(small: seq<Slot<T>>, large: seq<Slot<T>>, smallSize: int, largeSize: int, slot: Slot<T>)
    requires smallSize <= largeSize && Included(small, large, smallSize, largeSize)
    requires Sub(small, Without(large, slot.key)) || Lookup(small, slot.key).Some?
    requires Lookup(small, slot.key).Some? ==> Lookup(large, slot.key).Some?
    requires |Without(large, slot.key)| == if Lookup(large, slot.key).Some? then |large| - 1 else |large|
    requires Lookup(large, slot.key).None? ==> Without(large, slot.key) == large
    ensures var a := Evicted([slot] + small, smallSize);
            var b := if Lookup(large, slot.key).Some? then [slot] + Without(large, slot.key)
              else Evicted([slot] + large, largeSize);
            Lookup(small, slot.key).None? ==> Sub(a, b) && |b| - |a| <= Cap(largeSize) - Cap(smallSize)
  {
    if Lookup(small, slot.key).None? {
      var x, y := [slot] + small, [slot] + Without(large, slot.key);
      assert x[1..] == small && y[1..] == Without(large, slot.key);
      assert Sub(x, y);
      EvictedIsPrefix(x, smallSize);
      EvictedIsPrefix([slot] + large, largeSize);
      SubShorter(x, y);
      SubDropLast(x, y);
    }
  }

  // ----- runs -----

  datatype Timed<T> = Timed(now: int, op: Op<T>)

  function Run<T>(list: seq<Slot<T>>, maxSize: int, defaultTtlMs: int,
                  ops: seq<Timed<T>>): (r: (seq<Slot<T>>, seq<Reply<T>>))
    ensures |r.1| == |ops|
  {
    if ops == [] then (list, [])
    else
      var last := ops[|ops| - 1];
      var (before, replies) := Run(list, maxSize, defaultTtlMs, ops[..|ops| - 1]);
      var (after, reply) := Apply(before, maxSize, defaultTtlMs, last.now, last.op);
      (after, replies + [reply])
  }

  function Hits<T>(replies: seq<Reply<T>>): nat {
    if replies == [] then 0
    else
      Hits(replies[..|replies| - 1])
      + if replies[|replies| - 1].Value? && replies[|replies| - 1].found.Some? then 1 else 0
  }

  /**
   Inclusion: fed the same operations at the same times from empty, a cache with a smaller
   limit always holds a subsequence of what the larger one holds, the larger one never
   misses where the smaller one hits, and so it counts at least as many hits.
   */
  lemma {:induction false} LargerCacheIncludesSmaller<T>(smallSize: int, largeSize: int, defaultTtlMs: int,
                                                         ops: seq<Timed<T>>)
    requires smallSize <= largeSize
    ensures var (a, ra) := Run([], smallSize, defaultTtlMs, ops);
            var (b, rb) := Run([], largeSize, defaultTtlMs, ops);
            && Included(a, b, smallSize, largeSize)
            && (forall i | 0 <= i < |ops| :: NoWorse(ra[i], rb[i]))
            && Hits(ra) <= Hits(rb)
  {
    if ops != [] {
      var front, last := ops[..|ops| - 1], ops[|ops| - 1];
      LargerCacheIncludesSmaller(smallSize, largeSize, defaultTtlMs, front);
      var (a0, ra0) := Run([], smallSize, defaultTtlMs, front);
      var (b0, rb0) := Run([], largeSize, defaultTtlMs, front);
      InclusionStep(a0, b0, smallSize, largeSize, defaultTtlMs, last.now, last.op);
      var (a, ra) := Run([], smallSize, defaultTtlMs, ops);
      var (b, rb) := Run([], largeSize, defaultTtlMs, ops);
      assert ra[..|ra| - 1] == ra0 && rb[..|rb| - 1] == rb0;
      assert NoWorse(ra[|ops| - 1], rb[|ops| - 1]);
    }
  }

  // ----- what the recency order and a hit mean -----

  ghost predicate NondecreasingTimes<T>(ops: seq<Timed<T>>) {
    forall i, j | 0 <= i < j < |ops| :: ops[i].now <= ops[j].now
  }

  /** Ordered by last use, latest first, and not used after `now`. */
  ghost predicate OrderedByUse<T>(list: seq<Slot<T>>, now: int) {
    && (forall i, j | 0 <= i < j < |list| :: list[i].entry.lastAccessedAt >= list[j].entry.lastAccessedAt)
    && (forall i | 0 <= i < |list| :: list[i].entry.lastAccessedAt <= now)
  }

  lemma {:induction false} SublistStaysOrdered<T>(part: seq<Slot<T>>, list: seq<Slot<T>>, now: int)
    requires Sub(part, list) && OrderedByUse(list, now)
    ensures OrderedByUse(part, now)
  {
    if part != [] {
      if part[0] == list[0] {
        SublistStaysOrdered(part[1..], list[1..], now);
        SubLength(part[1..], list[1..]);
        forall i | 0 < i < |part| ensures part[i].entry.lastAccessedAt <= part[0].entry.lastAccessedAt {
          assert part[i] == part[1..][i - 1];
          assert part[i] in list[1..];
        }
        assert forall i, j | 0 < i < j < |part| :: part[i] == part[1..][i - 1] && part[j] == part[1..][j - 1];
      } else {
        SublistStaysOrdered(part, list[1..], now);
      }
    }
  }

  lemma {:induction false} WithoutIsSub<T>(list: seq<Slot<T>>, key: string)
    ensures Sub(Without(list, key), list)
  {
    if list != [] {
      WithoutIsSub(list[1..], key);
      if list[0].key == key { SubWider(Without(list, key), list); }
    }
  }

  lemma {:induction false} PurgedIsSub<T>(list: seq<Slot<T>>, now: int, keys: set<string>)
    ensures Sub(Purged(list, now, keys), list)
  {
    if list != [] {
      PurgedIsSub(list[1..], now, keys);
      if list[0].key in keys && Expired(list[0].entry, now) { SubWider(Purged(list, now, keys), list); }
    }
  }

  /**
   With a clock that never goes back, the list is ordered by last use in every reachable
   state; so the last entry, the only one an insertion evicts, is a least recently used one.
   */
  lemma {:induction false} ListIsOrderedByUse<T>(maxSize: int, defaultTtlMs: int, ops: seq<Timed<T>>, now: int)
    requires NondecreasingTimes(ops) && forall i | 0 <= i < |ops| :: ops[i].now <= now
    ensures OrderedByUse(Run([], maxSize, defaultTtlMs, ops).0, now)
  {
    if ops != [] {
      var front, last := ops[..|ops| - 1], ops[|ops| - 1];
      ListIsOrderedByUse(maxSize, defaultTtlMs, front, last.now);
      var list := Run([], maxSize, defaultTtlMs, front).0;
      ApplyKeepsOrder(list, maxSize, defaultTtlMs, last.now, last.op);
    }
  }

  lemma ApplyKeepsOrder<T>(list: seq<Slot<T>>, maxSize: int, defaultTtlMs: int, now: int, op: Op<T>)
    requires OrderedByUse(list, now)
    ensures OrderedByUse(Apply(list, maxSize, defaultTtlMs, now, op).0, now)
  {
    if op.Purge? {
      PurgedIsSub(list, now, KeysOf(list));
      SublistStaysOrdered(Purged(list, now, KeysOf(list)), list, now);
    } else if !op.Clear? {
      var w := Without(list, op.key);
      WithoutIsSub(list, op.key);
      SublistStaysOrdered(w, list, now);
      hide OrderedByUse, Without, Sub;
      match op
      case Get(key) =>
        if Lookup(list, key).Some? { UsedNowGoesFirst(Slot(key, Touched(Lookup(list, key).value, now)), w, now, 1); }
      case Set(key, value, ttlMs) =>
        var slot := Slot(key, NewEntry(value, ttlMs, defaultTtlMs, now));
        EvictedIsPrefix([slot] + list, maxSize);
        UsedNowGoesFirst(slot, w, now, 1 + |w|);
        UsedNowGoesFirst(slot, list, now, Cap(maxSize));
        assert ([slot] + w)[..1 + |w|] == [slot] + w;
      case _ =>
    }
  }

  lemma UsedNowGoesFirst<T>(slot: Slot<T>, list: seq<Slot<T>>, now: int, k: nat)
    requires OrderedByUse(list, now) && slot.entry.lastAccessedAt == now
    ensures OrderedByUse([slot] + list, now)
    ensures k <= |list| ==> OrderedByUse(([slot] + list)[..k], now)
  {
  }

  /** The value last written under the key and its expiry time, unless it was deleted or cleared since. */
  function LastWrite<T>(ops: seq<Timed<T>>, defaultTtlMs: int, key: string): Option<(T, int)> {
    if ops == [] then None
    else
      var last := ops[|ops| - 1];
      var earlier := LastWrite(ops[..|ops| - 1], defaultTtlMs, key);
      match last.op
      case Set(k, value, ttlMs) => if k == key then
        Some((value, NewEntry(value, ttlMs, defaultTtlMs, last.now).expiresAt)) else earlier
      case Delete(k) => if k == key then None else earlier
      case Clear => None
      case _ => earlier
  }

  /** Nothing stale is ever held: each entry is the last write to its key. */
  lemma {:induction false} EntriesAreLastWrites<T>(maxSize: int, defaultTtlMs: int, ops: seq<Timed<T>>, i: nat)
    requires i < |Run([], maxSize, defaultTtlMs, ops).0|
    ensures var s := Run([], maxSize, defaultTtlMs, ops).0[i];
            LastWrite(ops, defaultTtlMs, s.key) == Some((s.entry.value, s.entry.expiresAt))
    ensures DistinctKeys(Run([], maxSize, defaultTtlMs, ops).0)
  {
    var front, last := ops[..|ops| - 1], ops[|ops| - 1];
    var list, after := Run([], maxSize, defaultTtlMs, front).0, Run([], maxSize, defaultTtlMs, ops).0;
    RunKeepsShape<T>(maxSize, defaultTtlMs, front);
    RunKeepsShape<T>(maxSize, defaultTtlMs, ops);
    forall j | 0 <= j < |list|
      ensures LastWrite(front, defaultTtlMs, list[j].key) == Some((list[j].entry.value, list[j].entry.expiresAt))
    {
      EntriesAreLastWrites(maxSize, defaultTtlMs, front, j);
    }
    AfterComesFromBefore(list, maxSize, defaultTtlMs, last, after[i]);
  }

  lemma {:induction false} RunKeepsShape<T>(maxSize: int, defaultTtlMs: int, ops: seq<Timed<T>>)
    ensures var list := Run<T>([], maxSize, defaultTtlMs, ops).0; DistinctKeys(list) && |list| <= Cap(maxSize)
  {
    if ops != [] {
      var front, last := ops[..|ops| - 1], ops[|ops| - 1];
      RunKeepsShape<T>(maxSize, defaultTtlMs, front);
      ApplyKeepsShape(Run<T>([], maxSize, defaultTtlMs, front).0, maxSize, defaultTtlMs, last.now, last.op);
    }
  }

  /** An entry after an operation was there before under the same key, possibly touched, or is the one just set. */
  lemma AfterComesFromBefore<T>(list: seq<Slot<T>>, maxSize: int, defaultTtlMs: int, last: Timed<T>, s: Slot<T>)
    requires DistinctKeys(list)
    requires s in Apply(list, maxSize, defaultTtlMs, last.now, last.op).0
    ensures !last.op.Clear? && (last.op.Delete? ==> s.key != last.op.key)
    ensures if last.op.Set? && last.op.key == s.key then
            s.entry == NewEntry(last.op.value, last.op.ttlMs, defaultTtlMs, last.now)
            else exists j :: 0 <= j < |list| && list[j].key == s.key
                             && s.entry == if last.op.Get? && last.op.key == s.key then Touched(list[j].entry, last.now)
                                           else list[j].entry
  {
    var op := last.op;
    if op.Purge? {
      PurgedFacts(list, last.now, KeysOf(list));
    } else if !op.Clear? {
      var w := Without(list, op.key);
      WithoutFacts(list, op.key);
      WithoutIsSub(list, op.key);
      SubLength(w, list);
      forall i | 0 <= i < |w| ensures w[i].key != op.key { assert w[i].key in KeysOf(w); }
      if Lookup(list, op.key).Some? { FoundIsListed(list, op.key); }
      if op.Set? {
        var slot := Slot(op.key, NewEntry(op.value, op.ttlMs, defaultTtlMs, last.now));
        EvictedIsPrefix([slot] + list, maxSize);
        assert forall i | 0 <= i < |list| :: list[i].key in KeysOf(list);
      }
    }
  }

  lemma FoundIsListed<T>(list: seq<Slot<T>>, key: string)
    requires DistinctKeys(list) && Lookup(list, key).Some?
    ensures exists j :: 0 <= j < |list| && list[j] == Slot(key, Lookup(list, key).value)
  {
    if i :| 0 <= i < |list| && list[i].key == key { LookupAt(list, i); } else { LookupMissing(list, key); }
  }
}
