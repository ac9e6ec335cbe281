/**
 The in-memory cache itself: a key map and a doubly linked list threaded through its nodes,
 refining the recency list of module `Recency`. The current time is passed in.
 */
module MemoryCache {
  import opened Basics
  import opened Recency

  class LRUNode<T> {
    const key: string
    var entry: Entry<T>
    var prev: LRUNode?<T>
    var next: LRUNode?<T>

    constructor (key: string, entry: Entry<T>)
      ensures this.key == key && this.entry == entry && prev == null && next == null
    {
      this.key, this.entry := key, entry;
      prev, next := null, null;
    }
  }

  class MemoryCache<T> {
    var nodes: map<string, LRUNode<T>>
    var head: LRUNode?<T>
    var tail: LRUNode?<T>
    const maxSize: int
    const defaultTtlMs: int
    var hits: nat
    var misses: nat
    var evictions: nat
    var expiredPurges: nat

    /** The nodes from `head` along `next`. */
    ghost var order: seq<LRUNode<T>>

    /** `head` and `next` visit `order`, `prev` and `tail` visit it backwards. */
    ghost predicate Linked()
      reads this`order, this`head, this`tail, order`prev, order`next
    {
      && (forall i, j | 0 <= i < j < |order| :: order[i] != order[j])
      && (if order == [] then head == null && tail == null
          else head == order[0] && tail == order[|order| - 1]
               && order[0].prev == null && order[|order| - 1].next == null)
      && (forall i {:trigger order[i].prev} | 1 <= i < |order| :: order[i].prev == order[i - 1])
      && (forall i {:trigger order[i].next} | 0 <= i < |order| - 1 :: order[i].next == order[i + 1])
    }

    ghost predicate Valid()
      reads this`nodes, this`order, this`head, this`tail, order`prev, order`next
    {
      Linked() && Mapped(nodes, order) && |order| <= Cap(maxSize)
    }

    /** The abstract value: keys with their entries, most recently used first. */
    ghost function Contents(): (list: seq<Slot<T>>)
      reads this`order, order`entry
      ensures |list| == |order| && forall i | 0 <= i < |list| :: list[i] == Slot(order[i].key, order[i].entry)
    {
      Slots(order)
    }

    constructor (maxSize: int, defaultTtlMs: int)
      ensures Valid() && Contents() == [] && order == []
      ensures this.maxSize == maxSize && this.defaultTtlMs == defaultTtlMs
      ensures hits == misses == evictions == expiredPurges == 0
    {
      this.maxSize, this.defaultTtlMs := maxSize, defaultTtlMs;
      nodes, head, tail, order := map[], null, null, [];
      hits, misses, evictions, expiredPurges := 0, 0, 0, 0;
    }

    // ----- the list operations -----

    method AddToHead(node: LRUNode<T>)
      requires Linked() && node !in order
      modifies this`head, this`tail, this`order, node`prev, node`next, order`prev
      ensures order == [node] + old(order) && Linked()
    {
      node.prev := null;
      node.next := head;
      if head != null {
        head.prev := node;
      }
      head := node;
      if tail == null {
        tail := node;
      }
      order := [node] + order;
    }

    method RemoveNode(node: LRUNode<T>, ghost i: nat)
      requires Linked() && i < |order| && order[i] == node
      modifies this`head, this`tail, this`order, order`prev, order`next
      ensures order == old(order)[..i] + old(order)[i + 1..] && Linked()
      ensures node !in order && node.prev == null && node.next == null
    {
      if node.prev != null {
        node.prev.next := node.next;
      } else {
        head := node.next;
      }
      if node.next != null {
        node.next.prev := node.prev;
      } else {
        tail := node.prev;
      }
      node.prev := null;
      node.next := null;
      order := order[..i] + order[i + 1..];
    }

    method MoveToHead(node: LRUNode<T>, ghost i: nat)
      requires Linked() && i < |order| && order[i] == node
      modifies this`head, this`tail, this`order, order`prev, order`next
      ensures order == [node] + old(order)[..i] + old(order)[i + 1..] && Linked()
    {
      RemoveNode(node, i);
      AddToHead(node);
    }

    // ----- the map against the list -----

    lemma ContentsFacts()
      requires Linked() && Mapped(nodes, order)
      ensures DistinctKeys(Contents()) && |nodes| == |order|
      ensures KeysOf(Contents()) == nodes.Keys
    {
      MappedKeys(nodes, order);
      var list := Contents();
      forall i, j | 0 <= i < j < |list| ensures list[i].key != list[j].key { assert order[i] != order[j]; }
      forall k | k in nodes ensures k in KeysOf(list) {
        var i :| 0 <= i < |order| && order[i] == nodes[k];
        assert list[i].key == k;
      }
      KeyCount(list);
      assert nodes.Keys == KeysOf(list);
      assert |nodes| == |nodes.Keys|;
    }

    lemma Found(key: string) returns (i: nat)
      requires Linked() && Mapped(nodes, order) && key in nodes
      ensures i < |order| && order[i] == nodes[key] && nodes[key].key == key
      ensures Lookup(Contents(), key) == Some(nodes[key].entry)
      ensures Without(Contents(), key) == Contents()[..i] + Contents()[i + 1..]
      ensures key in KeysOf(Contents())
    {
      i :| 0 <= i < |order| && order[i] == nodes[key];
      ContentsFacts();
      LookupAt(Contents(), i);
    }

    lemma NotFound(key: string)
      requires Mapped(nodes, order) && key !in nodes
      ensures Lookup(Contents(), key) == None && Without(Contents(), key) == Contents()
      ensures forall i | 0 <= i < |order| :: order[i].key != key
    {
      LookupMissing(Contents(), key);
    }

    // ----- the cache operations -----

    /** Takes a node out of the list and its key out of the map. */
    method Discard(node: LRUNode<T>)
      requires Linked() && Mapped(nodes, order) && node.key in nodes && nodes[node.key] == node
      modifies this`head, this`tail, this`order, this`nodes, order`prev, order`next
      ensures Linked() && Mapped(nodes, order) && (forall n | n in order :: n in old(order))
      ensures Contents() == Without(old(Contents()), node.key)
      ensures |order| == |old(order)| - 1
      ensures nodes == old(nodes) - {node.key}
    {
      hide Linked, Mapped, Lookup, Without;
      ghost var before, was := Contents(), order;
      ghost var i := Found(node.key);
      RemoveNode(node, i);
      DropKeepsMapped(nodes, was, i);
      nodes := nodes - {node.key};
      forall j | 0 <= j < |order| ensures order[j] in was && Contents()[j] == (before[..i] + before[i + 1..])[j] {
        assert order[j] == was[if j < i then j else j + 1];
      }
    }

    /** Gives a node a new entry and makes it the most recently used one. */
    method Refresh(node: LRUNode<T>, entry: Entry<T>)
      requires Valid() && node.key in nodes && nodes[node.key] == node
      modifies this`head, this`tail, this`order, order
      ensures Valid() && (forall n | n in order :: n in old(order))
      ensures Contents() == [Slot(node.key, entry)] + Without(old(Contents()), node.key)
      ensures |order| == |old(order)|
    {
      hide Linked, Mapped, Lookup, Without, KeysOf, Slots;
      ghost var before := Contents();
      ghost var i := Found(node.key);
      SetEntry(node, entry, i);
      Promote(node, i);
      Moved(before, i, Slot(node.key, entry));
    }

    method SetEntry(node: LRUNode<T>, entry: Entry<T>, ghost i: nat)
      requires Linked() && i < |order| && order[i] == node
      modifies node`entry
      ensures Contents() == old(Contents())[i := Slot(node.key, entry)]
    {
      hide Slots;
      assert forall j | 0 <= j < |order| && j != i :: order[j] != node;
      node.entry := entry;
    }

    method Promote(node: LRUNode<T>, ghost i: nat)
      requires Linked() && Mapped(nodes, order) && i < |order| && order[i] == node
      modifies this`head, this`tail, this`order, order`prev, order`next
      ensures Linked() && Mapped(nodes, order) && (forall n | n in order :: n in old(order))
      ensures |order| == |old(order)|
      ensures Contents() == [old(Contents())[i]] + old(Contents())[..i] + old(Contents())[i + 1..]
    {
      hide Linked, Mapped, Slots;
      ghost var before, was := Contents(), order;
      MoveKeepsMapped(nodes, order, i);
      MoveToHead(node, i);
      forall j | 0 < j < |order|
        ensures order[j] in was && Contents()[j] == ([before[i]] + before[..i] + before[i + 1..])[j] {
        assert order[j] == was[if j - 1 < i then j - 1 else j];
      }
    }

    /** Drops the entry of a key if it has expired. */
    method DiscardExpired(key: string, now: int) returns (gone: bool)
      requires Valid() && key in nodes
      modifies this`head, this`tail, this`order, this`nodes, order`prev, order`next
      ensures Valid() && (forall n | n in order :: n in old(order))
      ensures Lookup(old(Contents()), key).Some?
      ensures gone == Expired(Lookup(old(Contents()), key).value, now)
      ensures Contents() == if gone then Without(old(Contents()), key) else old(Contents())
      ensures |order| == |old(order)| - (if gone then 1 else 0)
      ensures !gone ==> nodes == old(nodes) && order == old(order)
      ensures nodes.Keys == old(nodes).Keys - (if gone then {key} else {})
    {
      hide Linked, Mapped, Lookup, Without, KeysOf, DistinctKeys, Slots, Expired;
      ghost var i := Found(key);
      gone := Expired(nodes[key].entry, now);
      if gone {
        Discard(nodes[key]);
      }
    }

    /** Counts an access and makes the key the most recently used one. */
    method Touch(key: string, now: int) returns (value: T)
      requires Valid() && key in nodes
      modifies this`head, this`tail, this`order, order
      ensures Valid() && (forall n | n in order :: n in old(order)) && |order| == |old(order)|
      ensures Lookup(old(Contents()), key).Some? && value == Lookup(old(Contents()), key).value.value
      ensures Contents() == [Slot(key, Touched(Lookup(old(Contents()), key).value, now))]
              + Without(old(Contents()), key)
    {
      hide Linked, Mapped, Lookup, Without, KeysOf, DistinctKeys, Slots;
      var node := nodes[key];
      ghost var i := Found(key);
      value := node.entry.value;
      Refresh(node, node.entry.(accessCount := node.entry.accessCount + 1, lastAccessedAt := now));
    }

    method Get(key: string, now: int) returns (value: Option<T>)
      requires Valid()
      modifies this, order
      ensures Valid() && (forall n | n in order :: n in old(order))
      ensures (Contents(), Value(value)) == Apply(old(Contents()), maxSize, defaultTtlMs, now, Op.Get(key))
      ensures hits == old(hits) + (if value.Some? then 1 else 0)
      ensures misses == old(misses) + (if value.None? then 1 else 0)
      ensures expiredPurges == old(expiredPurges) + |old(order)| - |order| && evictions == old(evictions)
    {
      hide Linked, Mapped, Lookup, Without, KeysOf, DistinctKeys, Apply, Slots;
      ghost var before := Contents();
      ApplyGet(before, maxSize, defaultTtlMs, now, key);
      if key !in nodes {
        NotFound(key);
        misses := misses + 1;
        return None;
      }
      var gone := DiscardExpired(key, now);
      if gone {
        misses := misses + 1;
        expiredPurges := expiredPurges + 1;
        return None;
      }
      assert forall i | 0 <= i < |order| :: order[i] in old(order);
      var found := Touch(key, now);
      value := Some(found);
      hits := hits + 1;
    }

    method Set(key: string, value: T, ttlMs: Option<int>, now: int)
      requires Valid()
      modifies this, order
      ensures Valid() && (forall n | n in order :: n in old(order) || fresh(n))
      ensures (Contents(), Done) == Apply(old(Contents()), maxSize, defaultTtlMs, now, Op.Set(key, value, ttlMs))
      ensures hits == old(hits) && misses == old(misses) && expiredPurges == old(expiredPurges)
      ensures evictions == old(evictions) + (if key in old(nodes) then 0 else |old(order)| + 1 - |order|)
    {
      hide Linked, Mapped, Lookup, Without, KeysOf, DistinctKeys, Apply, Slots, Evicted;
      ghost var before := Contents();
      ApplySet(before, maxSize, defaultTtlMs, now, key, value, ttlMs);
      var effectiveTtl := match ttlMs case Some(ttl) => ttl case None => defaultTtlMs;
      var entry := Entry(value, if effectiveTtl > 0 then now + effectiveTtl else 0, now, 0, now);
      if key in nodes {
        ghost var i := Found(key);
        Refresh(nodes[key], entry);
        return;
      }
      NotFound(key);
      InsertNew(key, entry);
    }

    method InsertNew(key: string, entry: Entry<T>)
      requires Valid() && key !in nodes
      modifies this`head, this`tail, this`order, this`nodes, this`evictions, order`prev, order`next
      ensures Valid() && (forall n | n in order :: n in old(order) || fresh(n))
      ensures Contents() == Evicted([Slot(key, entry)] + old(Contents()), maxSize)
      ensures evictions == old(evictions) + |old(order)| + 1 - |order|
    {
      hide Linked, Mapped, Lookup, Without, KeysOf, Slots, Evicted;
      ghost var before, was := Contents(), order;
      InsertFirst(key, entry);
      assert forall i | 0 < i < |order| :: order[i] == was[i - 1];
      EvictOverflow();
      EvictedIsPrefix([Slot(key, entry)] + before, maxSize);
    }

    /** A new node at the head of the list and in the map. */
    method InsertFirst(key: string, entry: Entry<T>)
      requires Linked() && Mapped(nodes, order) && key !in nodes
      modifies this`head, this`tail, this`order, this`nodes, order`prev
      ensures Linked() && Mapped(nodes, order)
      ensures Contents() == [Slot(key, entry)] + old(Contents())
      ensures fresh(order[0]) && order[1..] == old(order)
    {
      hide Linked, Mapped, Slots;
      ghost var was, before := order, Contents();
      var node := new LRUNode(key, entry);
      AddKeepsMapped(nodes, was, node);
      nodes := nodes[key := node];
      AddToHead(node);
      assert forall i | 0 < i < |order| :: order[i] == was[i - 1];
      assert forall i | 0 < i < |order| :: Contents()[i] == before[i - 1];
    }

    /** Drops the least recently used node while there are more than the limit allows. */
    method EvictOverflow()
      requires Linked() && Mapped(nodes, order)
      modifies this`head, this`tail, this`order, this`nodes, this`evictions, order`prev, order`next
      ensures Linked() && Mapped(nodes, order) && (forall n | n in order :: n in old(order))
      ensures Contents() == Evicted(old(Contents()), maxSize)
      ensures evictions == old(evictions) + |old(order)| - |order|
    {
      hide Linked, Mapped, Lookup, Without, KeysOf, Slots, Evicted, DistinctKeys, Contents;
      ghost var full := Contents();
      ContentsFacts();
      while |nodes| > maxSize
        invariant Linked() && Mapped(nodes, order) && |nodes| == |order| <= |full|
        invariant Evicted(Contents(), maxSize) == Evicted(full, maxSize)
        invariant (forall n | n in order :: n in old(order))
        invariant evictions == old(evictions) + |full| - |order|
        decreases |order|
      {
        assert forall i | 0 <= i < |order| :: order[i] in old(order);
        var gone := DiscardLast();
        if gone {
          evictions := evictions + 1;
        } else {
          break;
        }
      }
      EvictedIsPrefix(Contents(), maxSize);
    }

    /** Discards the tail, if there is one. */
    method DiscardLast() returns (gone: bool)
      requires Linked() && Mapped(nodes, order)
      modifies this`head, this`tail, this`order, this`nodes, order`prev, order`next
      ensures Linked() && Mapped(nodes, order) && (forall n | n in order :: n in old(order))
      ensures gone <==> old(order) != []
      ensures gone ==> Contents() == old(Contents())[..|old(order)| - 1] && |order| == |old(order)| - 1
      ensures !gone ==> order == old(order) && Contents() == []
      ensures |old(order)| > maxSize ==> Evicted(Contents(), maxSize) == Evicted(old(Contents()), maxSize)
      ensures |nodes| == |order|
    {
      hide Linked, Mapped, Lookup, Without, KeysOf, Slots, DistinctKeys, Evicted;
      ContentsFacts();
      LastNode();
      ghost var list := Contents();
      EvictedStep(list, maxSize);
      var lru := tail;
      if lru != null {
        LookupAt(list, |list| - 1);
        assert list[..|list| - 1] + list[|list|..] == list[..|list| - 1];
        Discard(lru);
        ContentsFacts();
      }
      gone := lru != null;
    }

    lemma LastNode()
      requires Linked() && Mapped(nodes, order)
      ensures tail == null <==> order == []
      ensures order != [] ==> tail == order[|order| - 1] && tail.key in nodes && nodes[tail.key] == tail
    {
    }

    method Delete(key: string) returns (removed: bool)
      requires Valid()
      modifies this, order
      ensures Valid() && (forall n | n in order :: n in old(order))
      ensures forall now :: (Contents(), Flag(removed)) == Apply(old(Contents()), maxSize, defaultTtlMs, now,
              Op.Delete(key))
      ensures hits == old(hits) && misses == old(misses) && expiredPurges == old(expiredPurges)
              && evictions == old(evictions)
    {
      hide Linked, Mapped, Lookup, Without, KeysOf, DistinctKeys, Slots;
      if key !in nodes {
        NotFound(key);
        return false;
      }
      ghost var i := Found(key);
      Discard(nodes[key]);
      removed := true;
    }

    method Has(key: string, now: int) returns (present: bool)
      requires Valid()
      modifies this, order
      ensures Valid() && (forall n | n in order :: n in old(order))
      ensures (Contents(), Flag(present)) == Apply(old(Contents()), maxSize, defaultTtlMs, now, Op.Has(key))
      ensures hits == old(hits) && misses == old(misses) && expiredPurges == old(expiredPurges)
              && evictions == old(evictions)
    {
      hide Linked, Mapped, Lookup, Without, KeysOf, DistinctKeys, Slots;
      if key !in nodes {
        NotFound(key);
        return false;
      }
      var gone := DiscardExpired(key, now);
      present := !gone;
    }

    method Clear()
      requires Valid()
      modifies this
      ensures Valid() && order == []
      ensures forall now :: (Contents(), Done) == Apply(old(Contents()), maxSize, defaultTtlMs, now, Op.Clear)
      ensures hits == old(hits) && misses == old(misses) && expiredPurges == old(expiredPurges)
              && evictions == old(evictions)
    {
      nodes := map[];
      head, tail, order := null, null, [];
    }

    /** Visits the map's keys in any order and drops the expired entries. */
    method PurgeExpired(now: int) returns (purged: nat)
      requires Valid()
      modifies this, order
      ensures Valid() && (forall n | n in order :: n in old(order))
      ensures (Contents(), Count(purged)) == Apply(old(Contents()), maxSize, defaultTtlMs, now, Purge)
      ensures expiredPurges == old(expiredPurges) + purged
      ensures hits == old(hits) && misses == old(misses) && evictions == old(evictions)
    {
      hide Linked, Mapped, Lookup, Without, KeysOf, DistinctKeys, Slots, Purged, Apply, Expired;
      ghost var list := Contents();
      ghost var all := KeysOf(list);
      ContentsFacts();
      ApplyPurge(list, maxSize, defaultTtlMs, now);
      PurgeNothing(list, now);
      purged := 0;
      var todo := nodes.Keys;
      assert all - todo == {};
      while todo != {}
        invariant Valid() && (forall n | n in order :: n in old(order))
        invariant todo <= nodes.Keys && todo <= all
        invariant Contents() == Purged(list, now, all - todo)
        invariant |order| + purged == |list|
        decreases todo
        modifies this`head, this`tail, this`order, this`nodes, order`prev, order`next
      {
        var key :| key in todo;
        assert forall i | 0 <= i < |order| :: order[i] in old(order);
        PurgeNextKey(list, now, all - todo, key);
        assert all - (todo - {key}) == (all - todo) + {key};
        todo := todo - {key};
        var gone := DiscardExpired(key, now);
        if gone {
          purged := purged + 1;
        }
      }
      assert all - {} == all;
      expiredPurges := expiredPurges + purged;
    }
  }

  // ----- the specification, case by case -----

  lemma ApplyGet<T>(list: seq<Slot<T>>, maxSize: int, defaultTtlMs: int, now: int, key: string)
    ensures Apply(list, maxSize, defaultTtlMs, now, Op.Get(key)) ==
      if Lookup(list, key).None? then (list, Value(None))
      else if Expired(Lookup(list, key).value, now) then (Without(list, key), Value(None))
      else ([Slot(key, Touched(Lookup(list, key).value, now))] + Without(list, key),
        Value(Some(Lookup(list, key).value.value)))
  {
  }

  lemma Moved<T>(before: seq<Slot<T>>, i: nat, slot: Slot<T>)
    requires i < |before|
    ensures var updated := before[i := slot];
            [updated[i]] + updated[..i] + updated[i + 1..] == [slot] + (before[..i] + before[i + 1..])
  {
  }

  lemma ApplySet<T>(list: seq<Slot<T>>, maxSize: int, defaultTtlMs: int, now: int, key: string, value: T,
                    ttlMs: Option<int>)
    ensures Apply(list, maxSize, defaultTtlMs, now, Op.Set(key, value, ttlMs)) ==
      var slot := Slot(key, NewEntry(value, ttlMs, defaultTtlMs, now));
      (if Lookup(list, key).Some? then [slot] + Without(list, key) else Evicted([slot] + list, maxSize), Done)
  {
  }

  lemma PurgeNextKey<T>(list: seq<Slot<T>>, now: int, keys: set<string>, key: string)
    requires DistinctKeys(list) && key in KeysOf(list) && key !in keys
    ensures var before := Purged(list, now, keys);
            && Lookup(before, key).Some?
            && Purged(list, now, keys + {key})
               == if Expired(Lookup(before, key).value, now) then Without(before, key) else before
  {
    var i :| 0 <= i < |list| && list[i].key == key;
    PurgeOneMore(list, now, keys, i);
  }

  lemma EvictedStep<T>(list: seq<Slot<T>>, maxSize: int)
    ensures list != [] && |list| > maxSize ==> Evicted(list, maxSize) == Evicted(list[..|list| - 1], maxSize)
    ensures list == [] ==> Evicted(list, maxSize) == list
  {
  }

  ghost function Slots<T>(order: seq<LRUNode<T>>): (list: seq<Slot<T>>)
    reads order`entry
    ensures |list| == |order| && forall i | 0 <= i < |list| :: list[i] == Slot(order[i].key, order[i].entry)
  {
    if order == [] then [] else Slots(order[..|order| - 1]) + [Slot(order[|order| - 1].key, order[|order| - 1].entry)]
  }

  /** The map holds exactly the listed nodes, each under its own key. */
  ghost predicate Mapped<T>(nodes: map<string, LRUNode<T>>, order: seq<LRUNode<T>>) {
    && (forall i | 0 <= i < |order| :: order[i].key in nodes && nodes[order[i].key] == order[i])
    && (forall k | k in nodes :: nodes[k] in order && nodes[k].key == k)
  }

  lemma MappedKeys<T>(nodes: map<string, LRUNode<T>>, order: seq<LRUNode<T>>)
    requires Mapped(nodes, order)
    ensures forall i, j | 0 <= i < j < |order| && order[i] != order[j] :: order[i].key != order[j].key
  {
  }

  lemma DropKeepsMapped<T>(nodes: map<string, LRUNode<T>>, order: seq<LRUNode<T>>, i: nat)
    requires Mapped(nodes, order) && i < |order|
    requires order[i] !in order[..i] + order[i + 1..]
    ensures Mapped(nodes - {order[i].key}, order[..i] + order[i + 1..])
  {
    var rest := order[..i] + order[i + 1..];
    forall j | 0 <= j < |rest|
      ensures rest[j] in order && rest[j] in rest
    {
      assert rest[j] == order[if j < i then j else j + 1];
    }
    forall k | k in nodes && k != order[i].key ensures nodes[k] in rest {
      var j :| 0 <= j < |order| && order[j] == nodes[k];
      assert rest[if j < i then j else j - 1] == nodes[k];
    }
  }

  lemma AddKeepsMapped<T>(nodes: map<string, LRUNode<T>>, order: seq<LRUNode<T>>, node: LRUNode<T>)
    requires Mapped(nodes, order) && node.key !in nodes
    ensures node !in order && Mapped(nodes[node.key := node], [node] + order)
  {
    var after, list := nodes[node.key := node], [node] + order;
    forall k | k in after ensures after[k] in list {
      if k != node.key { assert nodes[k] in order; }
    }
  }

  lemma MoveKeepsMapped<T>(nodes: map<string, LRUNode<T>>, order: seq<LRUNode<T>>, i: nat)
    requires Mapped(nodes, order) && i < |order|
    ensures Mapped(nodes, [order[i]] + order[..i] + order[i + 1..])
  {
    var moved := [order[i]] + order[..i] + order[i + 1..];
    forall j | 0 <= j < |moved| ensures moved[j] in order {
      assert moved[j] == order[if j == 0 then i else if j - 1 < i then j - 1 else j];
    }
    forall k | k in nodes ensures nodes[k] in moved {
      var j :| 0 <= j < |order| && order[j] == nodes[k];
      assert moved[if j == i then 0 else if j < i then j + 1 else j] == nodes[k];
    }
  }
}
