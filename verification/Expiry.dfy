/**
 When the LRU+TTL cache finds something: after any run, a key is found exactly while its last
 write is alive, provided the limit leaves room for all keys that were written.
 */
module Expiry {
  import opened Basics
  import opened Recency

  /** The `i`-th operation wrote the key, and since then nothing wrote, deleted or cleared it. */
  ghost predicate IsLastWrite<T>(ops: seq<Timed<T>>, i: nat, key: string) {
    && i < |ops| && ops[i].op.Set? && ops[i].op.key == key
    && forall j | i < j < |ops| ::
         !ops[j].op.Clear? && ((ops[j].op.Set? || ops[j].op.Delete?) ==> ops[j].op.key != key)
  }

  /** The lifetime a write asks for, its own or the default one; zero or less means for ever. */
  function Lifetime<T>(op: Op<T>, defaultTtlMs: int): int
    requires op.Set?
  {
    match op.ttlMs case Some(ttl) => ttl case None => defaultTtlMs
  }

  /** An expiry time of 0 or less, which only a clock before the epoch can give, counts as none. */
  predicate Alive<T>(write: Timed<T>, defaultTtlMs: int, now: int)
    requires write.op.Set?
  {
    var ttl := Lifetime(write.op, defaultTtlMs);
    ttl <= 0 || now <= write.now + ttl || write.now + ttl <= 0
  }

  /** The key's last write is the `i`-th operation, it wrote the value, and it is alive. */
  ghost predicate Holds<T>(ops: seq<Timed<T>>, defaultTtlMs: int, now: int, key: string, i: nat, value: T) {
    IsLastWrite(ops, i, key) && ops[i].op.value == value && Alive(ops[i], defaultTtlMs, now)
  }

  function KeysWritten<T>(ops: seq<Timed<T>>): set<string> {
    set i | 0 <= i < |ops| && ops[i].op.Set? :: ops[i].op.key
  }

  /** The limit leaves room for every key ever written, and the clock does not go back. */
  ghost predicate RoomForAll<T>(ops: seq<Timed<T>>, maxSize: int, now: int) {
    NondecreasingTimes(ops) && (forall i | 0 <= i < |ops| :: ops[i].now <= now) && |KeysWritten(ops)| <= maxSize
  }

  // ----- what is held was written -----

  /** How often the key was looked up from the `i`-th operation on. */
  function LookupsSince<T>(ops: seq<Timed<T>>, i: nat, key: string): nat {
    if |ops| <= i then 0
    else LookupsSince(ops[..|ops| - 1], i, key) + if ops[|ops| - 1].op == Op.Get(key) then 1 else 0
  }

  /** The entry is that of the key's last write, with every lookup since counted. */
  ghost predicate WrittenAs<T>(ops: seq<Timed<T>>, defaultTtlMs: int, i: nat, s: Slot<T>) {
    && IsLastWrite(ops, i, s.key) && s.entry.value == ops[i].op.value && s.entry.createdAt == ops[i].now
    && s.entry.accessCount == LookupsSince(ops, i, s.key)
    && var ttl := Lifetime(ops[i].op, defaultTtlMs);
       s.entry.expiresAt == if ttl > 0 then ops[i].now + ttl else 0
  }

  lemma {:induction false} HeldWasWritten<T>(maxSize: int, defaultTtlMs: int, ops: seq<Timed<T>>, s: Slot<T>)
    returns (i: nat)
    requires s in Run([], maxSize, defaultTtlMs, ops).0
    ensures WrittenAs(ops, defaultTtlMs, i, s)
  {
    var front, last := ops[..|ops| - 1], ops[|ops| - 1];
    var list := Run([], maxSize, defaultTtlMs, front).0;
    RunKeepsShape<T>(maxSize, defaultTtlMs, front);
    AfterComesFromBefore(list, maxSize, defaultTtlMs, last, s);
    hide Apply, DistinctKeys, WrittenAs, NewEntry;
    if last.op.Set? && last.op.key == s.key {
      i := |ops| - 1;
      WrittenNow(defaultTtlMs, ops, s);
    } else {
      var j :| 0 <= j < |list| && list[j].key == s.key
               && s.entry == if last.op.Get? && last.op.key == s.key then Touched(list[j].entry, last.now)
                             else list[j].entry;
      i := HeldWasWritten(maxSize, defaultTtlMs, front, list[j]);
      StillWrittenAs(defaultTtlMs, ops, i, list[j], s);
    }
  }

  lemma WrittenNow<T>(defaultTtlMs: int, ops: seq<Timed<T>>, s: Slot<T>)
    requires ops != [] && ops[|ops| - 1].op.Set? && ops[|ops| - 1].op.key == s.key
    requires var last := ops[|ops| - 1]; s.entry == NewEntry(last.op.value, last.op.ttlMs, defaultTtlMs, last.now)
    ensures WrittenAs(ops, defaultTtlMs, |ops| - 1, s)
  {
    assert LookupsSince(ops[..|ops| - 1], |ops| - 1, s.key) == 0;
  }

  lemma StillWrittenAs<T>(defaultTtlMs: int, ops: seq<Timed<T>>, i: nat, before: Slot<T>, s: Slot<T>)
    requires ops != [] && WrittenAs(ops[..|ops| - 1], defaultTtlMs, i, before) && before.key == s.key
    requires var last := ops[|ops| - 1];
             && !last.op.Clear? && ((last.op.Set? || last.op.Delete?) ==> last.op.key != s.key)
             && s.entry == if last.op == Op.Get(s.key) then Touched(before.entry, last.now) else before.entry
    ensures WrittenAs(ops, defaultTtlMs, i, s)
  {
    assert ops[i] == ops[..|ops| - 1][i];
  }

  lemma OneLastWrite<T>(ops: seq<Timed<T>>, key: string, i: nat, j: nat)
    requires IsLastWrite(ops, i, key) && IsLastWrite(ops, j, key)
    ensures i == j
  {
  }

  // ----- what is alive is held -----

  /** What an operation leaves alone: an entry still alive, neither deleted nor cleared, with room for everything. */
  lemma AliveStays<T>(list: seq<Slot<T>>, maxSize: int, defaultTtlMs: int, last: Timed<T>, key: string)
    requires DistinctKeys(list) && key in KeysOf(list)
    requires forall i | 0 <= i < |list| && list[i].key == key ::
               list[i].entry.expiresAt <= 0 || last.now <= list[i].entry.expiresAt
    requires !last.op.Clear? && (last.op.Delete? ==> last.op.key != key)
    requires last.op.Set? ==> |KeysOf(list) + {last.op.key}| <= maxSize
    ensures key in KeysOf(Apply(list, maxSize, defaultTtlMs, last.now, last.op).0)
  {
    var op := last.op;
    if op.Purge? {
      AliveIsNotPurged(list, last.now, key);
    } else if op.Set? {
      SetIsHeld(list, maxSize, defaultTtlMs, last);
    } else {
      LookedUpStays(list, maxSize, defaultTtlMs, last, key);
    }
  }

  lemma LookedUpStays<T>(list: seq<Slot<T>>, maxSize: int, defaultTtlMs: int, last: Timed<T>, key: string)
    requires DistinctKeys(list) && key in KeysOf(list)
    requires forall i | 0 <= i < |list| && list[i].key == key ::
               list[i].entry.expiresAt <= 0 || last.now <= list[i].entry.expiresAt
    requires last.op.Get? || last.op.Has? || (last.op.Delete? && last.op.key != key)
    ensures key in KeysOf(Apply(list, maxSize, defaultTtlMs, last.now, last.op).0)
  {
    var k :| 0 <= k < |list| && list[k].key == key;
    LookupAt(list, k);
    assert !Expired(list[k].entry, last.now);
    WithoutFacts(list, last.op.key);
    hide *;
    LookedUp(list, maxSize, defaultTtlMs, last);
    FrontKeys(Without(list, last.op.key));
  }

  /** An operation on one key leaves the list, takes the key out or puts it in front; an unexpired one stays. */
  lemma LookedUp<T>(list: seq<Slot<T>>, maxSize: int, defaultTtlMs: int, last: Timed<T>)
    requires last.op.Get? || last.op.Has? || last.op.Delete?
    ensures var after, w := Apply(list, maxSize, defaultTtlMs, last.now, last.op).0, Without(list, last.op.key);
            var found := Lookup(list, last.op.key);
            && (after == list || after == w || exists e :: after == [Slot(last.op.key, e)] + w)
            && (!last.op.Delete? && found.Some? && !Expired(found.value, last.now) ==>
                  after == list || exists e :: after == [Slot(last.op.key, e)] + w)
  {
    hide Without, Lookup, Expired;
    if last.op.Get? && Lookup(list, last.op.key).Some? {
      var e := Touched(Lookup(list, last.op.key).value, last.now);
      assert Expired(Lookup(list, last.op.key).value, last.now)
        || Apply(list, maxSize, defaultTtlMs, last.now, last.op).0 == [Slot(last.op.key, e)]
           + Without(list, last.op.key);
    }
  }

  lemma AliveIsNotPurged<T>(list: seq<Slot<T>>, now: int, key: string)
    requires DistinctKeys(list) && key in KeysOf(list)
    requires forall i | 0 <= i < |list| && list[i].key == key ::
               list[i].entry.expiresAt <= 0 || now <= list[i].entry.expiresAt
    ensures key in KeysOf(Purged(list, now, KeysOf(list)))
  {
    var k :| 0 <= k < |list| && list[k].key == key;
    PurgedFacts(list, now, KeysOf(list));
    assert list[k] in list && !Expired(list[k].entry, now);
  }

  lemma FrontKeys<T>(list: seq<Slot<T>>)
    ensures forall slot: Slot<T> :: KeysOf([slot] + list) == KeysOf(list) + {slot.key}
  {
    forall slot: Slot<T> ensures KeysOf([slot] + list) == KeysOf(list) + {slot.key} {
      var both := [slot] + list;
      assert both[0].key in KeysOf(both);
      forall i | 0 <= i < |list| ensures list[i].key in KeysOf(both) { assert both[i + 1] == list[i]; }
    }
  }

  lemma SetIsHeld<T>(list: seq<Slot<T>>, maxSize: int, defaultTtlMs: int, last: Timed<T>)
    requires DistinctKeys(list) && last.op.Set? && |KeysOf(list) + {last.op.key}| <= maxSize
    ensures KeysOf(Apply(list, maxSize, defaultTtlMs, last.now, last.op).0) == KeysOf(list) + {last.op.key}
  {
    var op := last.op;
    var slot := Slot(op.key, NewEntry(op.value, op.ttlMs, defaultTtlMs, last.now));
    WithoutFacts(list, op.key);
    FrontKeys(Without(list, op.key));
    FrontKeys(list);
    KeyCount(list);
    EvictedIsPrefix([slot] + list, maxSize);
  }

  lemma HeldKeysWritten<T>(maxSize: int, defaultTtlMs: int, ops: seq<Timed<T>>)
    ensures KeysOf(Run([], maxSize, defaultTtlMs, ops).0) <= KeysWritten(ops)
  {
    var list := Run([], maxSize, defaultTtlMs, ops).0;
    forall k | 0 <= k < |list| ensures list[k].key in KeysWritten(ops) {
      var i := HeldWasWritten(maxSize, defaultTtlMs, ops, list[k]);
    }
  }

  /** There is room for the last operation's key in what is held before it. */
  lemma RoomForOne<T>(maxSize: int, defaultTtlMs: int, ops: seq<Timed<T>>, now: int)
    requires ops != [] && RoomForAll(ops, maxSize, now) && ops[|ops| - 1].op.Set?
    ensures |KeysOf(Run([], maxSize, defaultTtlMs, ops[..|ops| - 1]).0) + {ops[|ops| - 1].op.key}| <= maxSize
  {
    var front, last := ops[..|ops| - 1], ops[|ops| - 1];
    var held := KeysOf(Run([], maxSize, defaultTtlMs, front).0) + {last.op.key};
    HeldKeysWritten(maxSize, defaultTtlMs, front);
    assert held <= KeysWritten(ops) by {
      forall key | key in KeysWritten(front) ensures key in KeysWritten(ops) {
        var i :| 0 <= i < |front| && front[i].op.Set? && front[i].op.key == key;
        assert ops[i] == front[i];
      }
      assert ops[|ops| - 1].op.key in KeysWritten(ops);
    }
    hide Run, KeysOf, KeysWritten;
    SmallerSet(held, KeysWritten(ops));
  }

  lemma SmallerSet<K>(a: set<K>, b: set<K>)
    requires a <= b
    ensures |a| <= |b|
  {
    assert b == a + (b - a);
  }

  lemma {:induction false} AliveIsHeld<T>(maxSize: int, defaultTtlMs: int, ops: seq<Timed<T>>, now: int, key: string,
                                          i: nat)
    requires RoomForAll(ops, maxSize, now) && IsLastWrite(ops, i, key) && Alive(ops[i], defaultTtlMs, now)
    ensures key in KeysOf(Run([], maxSize, defaultTtlMs, ops).0)
  {
    var front, last := ops[..|ops| - 1], ops[|ops| - 1];
    var list := Run([], maxSize, defaultTtlMs, front).0;
    RunKeepsShape<T>(maxSize, defaultTtlMs, front);
    if last.op.Set? { RoomForOne(maxSize, defaultTtlMs, ops, now); }
    if i == |front| {
      SetIsHeld(list, maxSize, defaultTtlMs, last);
    } else {
      RoomBefore(ops, maxSize, now);
      assert front[i] == ops[i];
      AliveIsHeld(maxSize, defaultTtlMs, front, last.now, key, i);
      forall k | 0 <= k < |list| && list[k].key == key
        ensures list[k].entry.expiresAt <= 0 || last.now <= list[k].entry.expiresAt
      {
        var j := HeldWasWritten(maxSize, defaultTtlMs, front, list[k]);
        OneLastWrite(front, key, i, j);
      }
      hide KeysOf, Apply, IsLastWrite;
      AliveStays(list, maxSize, defaultTtlMs, last, key);
    }
  }

  lemma RoomBefore<T>(ops: seq<Timed<T>>, maxSize: int, now: int)
    requires ops != [] && RoomForAll(ops, maxSize, now)
    ensures RoomForAll(ops[..|ops| - 1], maxSize, ops[|ops| - 1].now) && ops[|ops| - 1].now <= now
  {
    var front := ops[..|ops| - 1];
    forall key | key in KeysWritten(front) ensures key in KeysWritten(ops) {
      var i :| 0 <= i < |front| && front[i].op.Set? && front[i].op.key == key;
      assert ops[i] == front[i];
    }
    SmallerSet(KeysWritten(front), KeysWritten(ops));
  }

  // ----- what is found -----

  /**
   The held entry of a key, alive at the time: with any limit it is that of a last write that is
   alive; with room for all keys there is one whenever the last write is alive.
   */
  lemma FoundExactly<T>(maxSize: int, defaultTtlMs: int, ops: seq<Timed<T>>, now: int, key: string)
    ensures var found := Lookup(Run([], maxSize, defaultTtlMs, ops).0, key);
            var hit := found.Some? && (found.value.expiresAt <= 0 || now <= found.value.expiresAt);
            && (hit ==> exists i :: Holds(ops, defaultTtlMs, now, key, i, found.value.value))
            && (RoomForAll(ops, maxSize, now) ==>
                  forall i, value :: Holds(ops, defaultTtlMs, now, key, i, value) ==>
                    hit && found.value.value == value)
  {
    var list := Run([], maxSize, defaultTtlMs, ops).0;
    RunKeepsShape<T>(maxSize, defaultTtlMs, ops);
    var found := Lookup(list, key);
    if found.Some? {
      FoundIsListed(list, key);
      var j := HeldWasWritten(maxSize, defaultTtlMs, ops, Slot(key, found.value));
      assert found.value.expiresAt <= 0 || now <= found.value.expiresAt
        ==> Holds(ops, defaultTtlMs, now, key, j, found.value.value);
      forall i, value | Holds(ops, defaultTtlMs, now, key, i, value) ensures i == j { OneLastWrite(ops, key, i, j); }
    }
    if RoomForAll(ops, maxSize, now) {
      forall i, value | Holds(ops, defaultTtlMs, now, key, i, value) ensures found.Some? {
        AliveIsHeld(maxSize, defaultTtlMs, ops, now, key, i);
        WithoutFacts(list, key);
      }
    }
  }

  /**
   A lookup after any run answers with the value of the key's last write while that is alive: never
   with anything else, and always with it when the limit leaves room for all keys.
   */
  lemma GetExactly<T>(maxSize: int, defaultTtlMs: int, ops: seq<Timed<T>>, now: int, key: string)
    ensures var reply := Run([], maxSize, defaultTtlMs, ops + [Timed(now, Op.Get(key))]).1[|ops|];
            && (forall value | reply == Value(Some(value)) ::
                  exists i :: Holds(ops, defaultTtlMs, now, key, i, value))
            && (RoomForAll(ops, maxSize, now) ==>
                  forall value :: reply == Value(Some(value)) <==>
                    exists i :: Holds(ops, defaultTtlMs, now, key, i, value))
  {
    RunNext(maxSize, defaultTtlMs, ops, Timed(now, Op.Get(key)));
    FoundExactly(maxSize, defaultTtlMs, ops, now, key);
    hide RoomForAll, Holds, Run;
  }

  lemma RunNext<T>(maxSize: int, defaultTtlMs: int, ops: seq<Timed<T>>, last: Timed<T>)
    ensures var before := Run([], maxSize, defaultTtlMs, ops).0;
            var after := Run([], maxSize, defaultTtlMs, ops + [last]);
            && after.0 == Apply(before, maxSize, defaultTtlMs, last.now, last.op).0
            && after.1[|ops|] == Apply(before, maxSize, defaultTtlMs, last.now, last.op).1
  {
    assert (ops + [last])[..|ops|] == ops;
  }

  /** The key's last write is alive. */
  ghost predicate KeyAlive<T>(ops: seq<Timed<T>>, defaultTtlMs: int, now: int, key: string) {
    exists i: nat :: IsLastWrite(ops, i, key) && Alive(ops[i], defaultTtlMs, now)
  }

  /** The same for `has`. */
  lemma HasExactly<T>(maxSize: int, defaultTtlMs: int, ops: seq<Timed<T>>, now: int, key: string)
    ensures var reply := Run([], maxSize, defaultTtlMs, ops + [Timed(now, Op.Has(key))]).1[|ops|];
            && (reply == Flag(true) ==> KeyAlive(ops, defaultTtlMs, now, key))
            && (RoomForAll(ops, maxSize, now) ==> (reply == Flag(true) <==> KeyAlive(ops, defaultTtlMs, now, key)))
  {
    RunNext(maxSize, defaultTtlMs, ops, Timed(now, Op.Has(key)));
    FoundExactly(maxSize, defaultTtlMs, ops, now, key);
    hide RoomForAll, Run;
    if KeyAlive(ops, defaultTtlMs, now, key) {
      var i: nat :| IsLastWrite(ops, i, key) && Alive(ops[i], defaultTtlMs, now);
      assert Holds(ops, defaultTtlMs, now, key, i, ops[i].op.value);
    }
    hide IsLastWrite, Alive;
  }

  /** A purge keeps exactly the keys whose held entry is alive, and counts the others. */
  lemma PurgeExactly<T>(maxSize: int, defaultTtlMs: int, ops: seq<Timed<T>>, now: int)
    ensures var before := Run([], maxSize, defaultTtlMs, ops).0;
            var (after, replies) := Run([], maxSize, defaultTtlMs, ops + [Timed(now, Purge)]);
            && (forall key :: key in KeysOf(after) <==> key in KeysOf(before) && KeyAlive(ops, defaultTtlMs, now, key))
            && replies[|ops|] == Count(|KeysOf(before) - KeysOf(after)|)
            && (RoomForAll(ops, maxSize, now) ==>
                  forall key :: key in KeysOf(after) <==> KeyAlive(ops, defaultTtlMs, now, key))
  {
    var before := Run<T>([], maxSize, defaultTtlMs, ops).0;
    var kept := Purged(before, now, KeysOf(before));
    RunNext<T>(maxSize, defaultTtlMs, ops, Timed(now, Purge));
    PurgeReplies(maxSize, defaultTtlMs, ops, now, before, kept);
    hide Run, Purged, KeysOf, KeyAlive, RoomForAll;
    forall key ensures key in KeysOf(kept) <==> key in KeysOf(before) && KeyAlive(ops, defaultTtlMs, now, key)
    {
      PurgeOfKey(maxSize, defaultTtlMs, ops, now, key, before);
    }
    forall key | RoomForAll(ops, maxSize, now) && KeyAlive(ops, defaultTtlMs, now, key) ensures key in KeysOf(before) {
      AliveKeyIsHeld(maxSize, defaultTtlMs, ops, now, key);
    }
  }

  lemma AliveKeyIsHeld<T>(maxSize: int, defaultTtlMs: int, ops: seq<Timed<T>>, now: int, key: string)
    requires RoomForAll(ops, maxSize, now) && KeyAlive(ops, defaultTtlMs, now, key)
    ensures key in KeysOf(Run([], maxSize, defaultTtlMs, ops).0)
  {
    var i: nat :| IsLastWrite(ops, i, key) && Alive(ops[i], defaultTtlMs, now);
    AliveIsHeld(maxSize, defaultTtlMs, ops, now, key, i);
  }

  lemma PurgeReplies<T>(maxSize: int, defaultTtlMs: int, ops: seq<Timed<T>>, now: int, before: seq<Slot<T>>,
                        kept: seq<Slot<T>>)
    requires before == Run([], maxSize, defaultTtlMs, ops).0 && kept == Purged(before, now, KeysOf(before))
    ensures Apply(before, maxSize, defaultTtlMs, now, Purge) == (kept, Count(|KeysOf(before) - KeysOf(kept)|))
  {
    RunKeepsShape<T>(maxSize, defaultTtlMs, ops);
    PurgedFacts(before, now, KeysOf(before));
    hide *;
    KeyCount(before);
    KeyCount(kept);
    ApplyPurge(before, maxSize, defaultTtlMs, now);
    PartKeys(before, kept);
    PurgedCount(before, kept);
  }

  lemma PartKeys<T>(list: seq<Slot<T>>, part: seq<Slot<T>>)
    requires forall s | s in part :: s in list
    ensures KeysOf(part) <= KeysOf(list)
  {
    forall i | 0 <= i < |part| ensures part[i].key in KeysOf(list) { assert part[i] in list; }
  }

  lemma PurgedCount<T>(before: seq<Slot<T>>, kept: seq<Slot<T>>)
    requires KeysOf(kept) <= KeysOf(before) && |KeysOf(before)| == |before| && |KeysOf(kept)| == |kept|
    ensures |kept| <= |before| && |KeysOf(before) - KeysOf(kept)| == |before| - |kept|
  {
    hide KeysOf;
    assert KeysOf(before) == KeysOf(kept) + (KeysOf(before) - KeysOf(kept));
  }

  lemma PurgeOfKey<T>(maxSize: int, defaultTtlMs: int, ops: seq<Timed<T>>, now: int, key: string, before: seq<Slot<T>>)
    requires before == Run([], maxSize, defaultTtlMs, ops).0
    ensures key in KeysOf(Purged(before, now, KeysOf(before))) <==>
              key in KeysOf(before) && KeyAlive(ops, defaultTtlMs, now, key)
  {
    RunKeepsShape<T>(maxSize, defaultTtlMs, ops);
    PurgedFacts(before, now, KeysOf(before));
    var kept := Purged(before, now, KeysOf(before));
    if k :| 0 <= k < |before| && before[k].key == key {
      AliveAsWritten(maxSize, defaultTtlMs, ops, now, before[k]);
      hide Run, Purged, KeyAlive;
      if Expired(before[k].entry, now) {
        OnlyOneSlot(before, kept, k, now);
      } else {
        assert before[k] in kept;
      }
    } else {
      hide Run, Purged, KeyAlive;
      forall i | 0 <= i < |kept| ensures kept[i].key != key { assert kept[i] in kept; assert kept[i] in before; }
    }
  }

  lemma OnlyOneSlot<T>(before: seq<Slot<T>>, kept: seq<Slot<T>>, k: nat, now: int)
    requires DistinctKeys(before) && k < |before| && Expired(before[k].entry, now)
    requires forall s | s in kept :: s in before && !Expired(s.entry, now)
    ensures before[k].key !in KeysOf(kept)
  {
    forall i | 0 <= i < |kept| ensures kept[i].key != before[k].key { assert kept[i] in kept; }
  }

  lemma AliveAsWritten<T>(maxSize: int, defaultTtlMs: int, ops: seq<Timed<T>>, now: int, s: Slot<T>)
    requires s in Run([], maxSize, defaultTtlMs, ops).0
    ensures KeyAlive(ops, defaultTtlMs, now, s.key) <==> s.entry.expiresAt <= 0 || now <= s.entry.expiresAt
  {
    var j := HeldWasWritten(maxSize, defaultTtlMs, ops, s);
    forall i | IsLastWrite(ops, i, s.key) ensures i == j { OneLastWrite(ops, s.key, i, j); }
  }

  /** A cache never holds more than its limit, and nothing with a limit of zero or less. */
  lemma {:induction false} WithinLimit<T>(maxSize: int, defaultTtlMs: int, ops: seq<Timed<T>>)
    ensures var held := |Run<T>([], maxSize, defaultTtlMs, ops).0|; held <= maxSize || held == 0
  {
    RunKeepsShape<T>(maxSize, defaultTtlMs, ops);
  }

  /**
   What lookups leave: a hit leaves every key where it was, but that `get` puts its own in front;
   a miss takes an entry that has run out with it.
   */
  lemma LookupsLeave<T>(maxSize: int, defaultTtlMs: int, ops: seq<Timed<T>>, now: int, key: string)
    ensures var before := Run([], maxSize, defaultTtlMs, ops).0;
            var (got, gets) := Run([], maxSize, defaultTtlMs, ops + [Timed(now, Op.Get(key))]);
            var (had, hass) := Run([], maxSize, defaultTtlMs, ops + [Timed(now, Op.Has(key))]);
            && (hass[|ops|] == Flag(true) <==> gets[|ops|] != Value(None))
            && (hass[|ops|] == Flag(true) ==>
                  had == before && got != [] && got[0].key == key && got[1..] == Without(before, key))
            && (hass[|ops|] != Flag(true) ==> had == got == Without(before, key))
  {
    RunNext(maxSize, defaultTtlMs, ops, Timed(now, Op.Get(key)));
    RunNext(maxSize, defaultTtlMs, ops, Timed(now, Op.Has(key)));
    RunKeepsShape<T>(maxSize, defaultTtlMs, ops);
    hide Run;
    var before := Run([], maxSize, defaultTtlMs, ops).0;
    if Lookup(before, key).None? { WithoutAbsent(before, key); }
    hide Without, Lookup;
  }

  /** A delete takes exactly its key out and tells whether it was held; a clear leaves nothing. */
  lemma DeleteExactly<T>(maxSize: int, defaultTtlMs: int, ops: seq<Timed<T>>, now: int, key: string)
    ensures var before := Run([], maxSize, defaultTtlMs, ops).0;
            var (after, replies) := Run([], maxSize, defaultTtlMs, ops + [Timed(now, Op.Delete(key))]);
            KeysOf(after) == KeysOf(before) - {key} && replies[|ops|] == Flag(key in KeysOf(before))
    ensures Run([], maxSize, defaultTtlMs, ops + [Timed(now, Op<T>.Clear)]).0 == []
  {
    RunNext(maxSize, defaultTtlMs, ops, Timed(now, Op.Delete(key)));
    RunNext(maxSize, defaultTtlMs, ops, Timed(now, Op<T>.Clear));
    RunKeepsShape<T>(maxSize, defaultTtlMs, ops);
    hide Run;
    WithoutFacts(Run([], maxSize, defaultTtlMs, ops).0, key);
  }
}
