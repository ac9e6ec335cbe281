/**
 The write queue, the durable write log and the Redis server as objects. Each method is a
 piece of code that runs without interruption: up to an await, or from one await to the next.
 What they do to the objects is what the steps of `WritePipeline` do to a system; a whole
 flush and a whole recovery are also proved as one.
 */
module WriteQueue {
  import opened Basics
  import opened WritePipeline
  import opened WriteProgress

  /** The Redis side, shared by one process after another, and what is on its way to it. */
  class RedisServer {
    var store: Store
    var net: seq<Pipeline>

    constructor ()
      ensures store == Store([], map[]) && net == []
    {
      store, net := Store([], map[]), [];
    }

    /** The next command of a pipeline takes effect. */
    method Deliver(i: nat)
      requires i < |net|
      modifies this
      ensures var rest := old(net)[..i] + old(net)[i + 1..];
              match old(net[i])
              case Append(id, data) =>
                store.pending == old(store.pending) && store.hashes == old(store.hashes)[id := data]
                  && net == old(net)[i := Push(id)]
              case Push(id) =>
                store.pending == old(store.pending) + [id] && store.hashes == old(store.hashes) && net == rest
              case Ack(id) =>
                store.pending == Removed(old(store.pending), id) && store.hashes == old(store.hashes)
                  && net == old(net)[i := Forget(id)]
              case Forget(id) =>
                store.pending == old(store.pending) && store.hashes == old(store.hashes) - {id} && net == rest
              case Unlist(id) =>
                store.pending == Removed(old(store.pending), id) && store.hashes == old(store.hashes) && net == rest
    {
      match net[i] {
        case Append(id, data) =>
          store := store.(hashes := store.hashes[id := data]);
          net := net[i := Push(id)];
        case Push(id) =>
          store := store.(pending := store.pending + [id]);
          net := net[..i] + net[i + 1..];
        case Ack(id) =>
          store := store.(pending := Removed(store.pending, id));
          net := net[i := Forget(id)];
        case Forget(id) =>
          store := store.(hashes := store.hashes - {id});
          net := net[..i] + net[i + 1..];
        case Unlist(id) =>
          store := store.(pending := Removed(store.pending, id));
          net := net[..i] + net[i + 1..];
      }
    }

    /** The connection breaks before the rest of a pipeline gets through. */
    method Lose(i: nat)
      requires i < |net|
      modifies this`net
      ensures net == old(net)[..i] + old(net)[i + 1..]
    {
      net := net[..i] + net[i + 1..];
    }
  }

  /** A delivery on the server is the delivery of the step machine. */
  lemma DeliveredInPlace(s: System, i: nat)
    requires i < |s.net|
    ensures var p, rest := s.net[i], s.net[..i] + s.net[i + 1..];
            var t := DeliverStep(s, i);
            match p
            case Append(id, data) => t.store == HSet(s.store, id, data) && t.net == s.net[i := Push(id)]
            case Push(id) => t.store == RPush(s.store, id) && t.net == rest
            case Ack(id) => t.store == LRem(s.store, id) && t.net == s.net[i := Forget(id)]
            case Forget(id) => t.store == Del(s.store, id) && t.net == rest
            case Unlist(id) => t.store == LRem(s.store, id) && t.net == rest
  {
    assert s.net[..i] + [] + s.net[i + 1..] == s.net[..i] + s.net[i + 1..];
  }

  /** What reading the listed entries yields; `readable` tells which reads go through. */
  function Reads(ids: seq<nat>, hashes: map<nat, Data>, readable: nat -> bool): (r: seq<Option<Data>>)
    ensures |r| == |ids|
    ensures forall i | 0 <= i < |ids| :: r[i] == if readable(i) && ids[i] in hashes then Some(hashes[ids[i]]) else None
  {
    seq(|ids|, i requires 0 <= i < |ids| => if readable(i) && ids[i] in hashes then Some(hashes[ids[i]]) else None)
  }

  /** The removals that recovery sends, one for each listed id that it could not read. */
  function Unlists(ids: seq<nat>, readable: nat -> bool): seq<Pipeline> {
    if ids == [] then []
    else
      var n := |ids| - 1;
      Unlists(ids[..n], readable) + if readable(n) then [] else [Unlist(ids[n])]
  }

  /** The entries that `recover` returns, with their ids: read, and with a category. */
  function Found(ids: seq<nat>, read: seq<Option<Data>>): seq<(nat, Data)>
    requires |read| <= |ids|
  {
    if read == [] then []
    else
      var n := |read| - 1;
      var front := Found(ids, read[..n]);
      if read[n].Some? && read[n].value.category != "" then front + [(ids[n], read[n].value)] else front
  }

  class DurableWriteLog {
    const redis: RedisServer
    var connected: bool
    var handlers: set<string>

    constructor (redis: RedisServer)
      ensures this.redis == redis && connected && handlers == {}
    {
      this.redis := redis;
      connected, handlers := true, {};
    }

    method RegisterReplayHandler(category: string)
      modifies this
      ensures handlers == old(handlers) + {category} && connected == old(connected)
    {
      handlers := handlers + {category};
    }

    /** Hash first, then list. The caller does not wait; the id comes back once the pipeline is over. */
    method Append(id: nat, data: Data)
      modifies redis`net
      ensures redis.net == old(redis.net) + if connected then [Pipeline.Append(id, data)] else []
    {
      if connected {
        redis.net := redis.net + [Pipeline.Append(id, data)];
      }
    }

    /** List first, then hash. */
    method Acknowledge(entryId: Option<nat>)
      modifies redis`net
      ensures redis.net == old(redis.net) + if connected && entryId.Some? then [Ack(entryId.value)] else []
    {
      if !connected || entryId.None? { return; }
      redis.net := redis.net + [Ack(entryId.value)];
    }

    /** The entries on the list as one read of the store finds them. */
    method Recover(readable: nat -> bool) returns (entries: seq<(nat, Data)>)
      modifies redis`net
      ensures connected ==>
        var ids := redis.store.pending;
        && entries == Found(ids, Reads(ids, redis.store.hashes, readable))
        && redis.net == old(redis.net) + Unlists(ids, readable)
      ensures !connected ==> entries == [] && redis.net == old(redis.net)
    {
      if !connected { return []; }
      var entryIds := redis.store.pending;
      var results := Reads(entryIds, redis.store.hashes, readable);
      entries := [];
      for i := 0 to |entryIds|
        invariant entries == Found(entryIds, results[..i])
        invariant redis.net == old(redis.net) + Unlists(entryIds[..i], readable)
      {
        assert results[..i + 1][..i] == results[..i] && entryIds[..i + 1][..i] == entryIds[..i];
        if !readable(i) {
          redis.net := redis.net + [Unlist(entryIds[i])];
        } else {
          match results[i]
          case None =>
          case Some(data) =>
            if data.category != "" {
              entries := entries + [(entryIds[i], data)];
            }
        }
      }
      assert results[..|entryIds|] == results && entryIds[..|entryIds|] == entryIds;
    }
  }

  /** How many of the first operations succeed. */
  function SucceededCount(n: nat, ok: nat -> bool): nat {
    if n == 0 then 0 else SucceededCount(n - 1, ok) + if ok(n - 1) then 1 else 0
  }

  /** The acknowledgements that the succeeded operations of a batch send. */
  function Acks(batch: seq<Entry>, ok: nat -> bool): seq<Pipeline> {
    if batch == [] then []
    else
      var n := |batch| - 1;
      Acks(batch[..n], ok) + if ok(n) then AckOf(batch[n]) else []
  }

  /** The counters of an uninterrupted flush after its first `j` operations. */
  ghost predicate MidCounts(c: Config, t: Process, p: Process, n: nat, j: nat, ok: nat -> bool)
    requires j <= n <= |p.queue|
  {
    var (done, lost) := if t.frames == [] then (0, 0) else (t.frames[0].flushed, t.frames[0].failed);
    && t.flushed + done == p.flushed + SucceededCount(j, ok)
    && t.failed + lost == p.failed + j - SucceededCount(j, ok) - |Retried(c, p.queue[..j], ok)|
    && t.enqueued == p.enqueued && t.recovered == p.recovered && t.resolving == p.resolving && t.recovery == p.recovery
  }

  lemma CountsStart(c: Config, p: Process, ok: nat -> bool)
    requires OneFlush(p) && !p.flushing
    ensures MidCounts(c, Started(c, p), p, BatchSize(c, |p.queue|), 0, ok)
  {
  }

  lemma CountsNext(c: Config, t: Process, p: Process, n: nat, j: nat, ok: nat -> bool)
    requires j < n <= |p.queue| && MidFlush(c, t, p.queue, n, j, ok) && MidCounts(c, t, p, n, j, ok)
    ensures MidCounts(c, Settled(c, t, 0, ok(j)), p, n, j + 1, ok)
  {
    assert p.queue[..j + 1][..j] == p.queue[..j];
    assert t.frames[0].batch[0] == p.queue[j];
  }

  /** The process `t` of an uninterrupted flush from `p` after its first `j` operations, and what it has sent. */
  ghost predicate HalfDone(c: Config, p: Process, t: Process, sent: seq<Pipeline>, connected: bool, j: nat,
                           ok: nat -> bool) {
    var n := BatchSize(c, |p.queue|);
    && j <= n <= |p.queue| && MidFlush(c, t, p.queue, n, j, ok) && MidCounts(c, t, p, n, j, ok)
    && sent == if connected then Acks(p.queue[..j], ok) else []
  }

  lemma HalfDoneStart(c: Config, p: Process, connected: bool, ok: nat -> bool)
    requires OneFlush(p) && !p.flushing
    ensures HalfDone(c, p, Started(c, p), [], connected, 0, ok)
  {
    MidFlushStart(c, p, ok);
    CountsStart(c, p, ok);
    assert p.queue[..0] == [];
  }

  lemma HalfDoneCases(c: Config, p: Process, t: Process, sent: seq<Pipeline>, connected: bool, j: nat, ok: nat -> bool)
    requires HalfDone(c, p, t, sent, connected, j, ok)
    ensures j <= BatchSize(c, |p.queue|) && (t.flushing <==> j < BatchSize(c, |p.queue|))
    ensures t.flushing ==> |t.frames| == 1 && t.frames[0].batch != []
  {
  }

  lemma HalfDoneNext(c: Config, p: Process, t: Process, sent: seq<Pipeline>, connected: bool, j: nat, ok: nat -> bool)
    requires HalfDone(c, p, t, sent, connected, j, ok) && t.flushing && |t.frames| == 1 && t.frames[0].batch != []
    ensures HalfDone(c, p, Settled(c, t, 0, ok(j)),
            sent + (if ok(j) && connected then AckOf(t.frames[0].batch[0]) else []), connected, j + 1, ok)
  {
    var n := BatchSize(c, |p.queue|);
    assert t.frames[0].batch[0] == p.queue[j];
    hide MidFlush, MidCounts, Settled;
    MidFlushNext(c, t, p.queue, n, j, ok);
    CountsNext(c, t, p, n, j, ok);
    AcksNext(p.queue, j, ok);
  }

  lemma HalfDoneEnds(c: Config, p: Process, t: Process, sent: seq<Pipeline>, connected: bool, j: nat, ok: nat -> bool)
    requires HalfDone(c, p, t, sent, connected, j, ok) && !t.flushing
    ensures var n := BatchSize(c, |p.queue|);
            && t.queue == AfterFlush(c, p.queue, ok) && OneFlush(t)
            && t.flushed == p.flushed + SucceededCount(n, ok)
            && t.failed == p.failed + n - SucceededCount(n, ok) - |Retried(c, p.queue[..n], ok)|
            && SucceededCount(n, ok) + |Retried(c, p.queue[..n], ok)| <= n
            && t.flushed + t.failed + |t.queue| == p.flushed + p.failed + |p.queue|
            && sent == if connected then Acks(p.queue[..n], ok) else []
  {
    SettledAtMost(c, p.queue[..BatchSize(c, |p.queue|)], ok);
  }

  class WriteQueue {
    var queue: seq<Entry>
    var flushing: bool
    var frames: seq<Frame>         // the flush calls that wait for an operation
    var nextSerial: nat
    var enqueued: nat
    var flushed: nat
    var failed: nat
    ghost var resolving: set<nat>  // the writes whose append call has not returned
    ghost var recovered: nat
    const maxBatchSize: int
    const maxRetries: int
    const log: DurableWriteLog

    ghost function Cfg(): Config
      reads log
    {
      Config(maxBatchSize, maxRetries, log.handlers)
    }

    ghost function View(): Process
      reads this
    {
      Process(queue, flushing, frames, resolving, Idle, enqueued, recovered, flushed, failed)
    }

    constructor (maxBatchSize: int, maxRetries: int, log: DurableWriteLog)
      ensures View() == FRESH_PROCESS && nextSerial == 0
      ensures this.maxBatchSize == maxBatchSize && this.maxRetries == maxRetries && this.log == log
    {
      this.maxBatchSize, this.maxRetries, this.log := maxBatchSize, maxRetries, log;
      queue, flushing, frames := [], false, [];
      nextSerial, enqueued, flushed, failed := 0, 0, 0, 0;
      resolving, recovered := {}, 0;
    }

    /** Queues a write and starts its append; a full batch starts a flush. */
    method Enqueue(write: nat, data: Data)
      modifies this, log.redis`net
      ensures var taken := TakenIn(old(View()), old(nextSerial), write, data.category, log.connected);
              View() == if |taken.queue| >= maxBatchSize then Started(Cfg(), taken) else taken
      ensures nextSerial == old(nextSerial) + 1
      ensures log.redis.net == old(log.redis.net) + if log.connected then [Pipeline.Append(write, data)] else []
    {
      log.Append(write, data);
      if log.connected {
        resolving := resolving + {write};
      }
      queue := queue + [Entry(nextSerial, write, data.category, 0, None)];
      nextSerial, enqueued := nextSerial + 1, enqueued + 1;
      if |queue| >= maxBatchSize {
        BeginFlush();
      }
    }

    /** The callback of a log append: the entry gets its id in the queue or in the batch being run. */
    method AppendResolved(write: nat, walId: Option<nat>)
      requires walId.Some? ==> walId.value == write
      modifies this`queue, this`frames, this`resolving
      ensures View() == if walId.Some? then Resolved(old(View()), write)
              else old(View()).(resolving := old(resolving) - {write})
    {
      if walId.Some? {
        queue := WithWalId(queue, walId.value);
        frames := FramesWithWalId(frames, walId.value);
      }
      resolving := resolving - {write};
    }

    /** A flush up to its first operation; nothing while another one is running or when the queue is empty. */
    method BeginFlush()
      modifies this`queue, this`flushing, this`frames
      ensures View() == Started(Cfg(), old(View()))
    {
      if flushing || |queue| == 0 {
        return;
      }
      flushing := true;
      var n := BatchSize(Config(maxBatchSize, maxRetries, {}), |queue|);
      var batch := queue[..n];
      queue := queue[n..];
      if |batch| == 0 {
        flushing := false;
        assert queue == old(queue);
        return;
      }
      frames := frames + [Frame(batch, 0, 0)];
    }

    /** A flush from the end of one operation to the start of the next, or to its own end. */
    method Settle(k: nat, ok: bool)
      requires k < |frames| && frames[k].batch != []
      modifies this`queue, this`flushing, this`frames, this`flushed, this`failed, log.redis`net
      ensures View() == Settled(Cfg(), old(View()), k, ok)
      ensures log.redis.net == old(log.redis.net) + if ok && log.connected then AckOf(old(frames[k].batch[0])) else []
    {
      var frame := frames[k];
      var entry := frame.batch[0];
      frame := frame.(batch := frame.batch[1..]);
      if ok {
        frame := frame.(flushed := frame.flushed + 1);
        if entry.walId.Some? {
          log.Acknowledge(entry.walId);
        }
      } else {
        entry := entry.(retryCount := entry.retryCount + 1);
        if entry.retryCount <= maxRetries {
          queue := queue + [entry];
        } else {
          frame := frame.(failed := frame.failed + 1);
        }
      }
      frames := frames[k := frame];
      if |frame.batch| == 0 {
        flushed, failed := flushed + frame.flushed, failed + frame.failed;
        flushing := false;
        frames := frames[..k] + frames[k + 1..];
      }
    }

    /** A whole flush that nothing interrupts; `ok` tells which operations succeed. */
    method Flush(ok: nat -> bool) returns (done: nat, lost: nat)
      requires OneFlush(View())
      modifies this`queue, this`flushing, this`frames, this`flushed, this`failed, log.redis`net
      ensures OneFlush(View()) && flushing == old(flushing)
      ensures old(flushing) ==> done == lost == 0 && View() == old(View()) && log.redis.net == old(log.redis.net)
      ensures !old(flushing) ==>
        var n := BatchSize(Cfg(), |old(queue)|);
        && queue == AfterFlush(Cfg(), old(queue), ok)
        && done == SucceededCount(n, ok) && done + lost + |Retried(Cfg(), old(queue)[..n], ok)| == n
        && flushed == old(flushed) + done && failed == old(failed) + lost
        && log.redis.net == old(log.redis.net) + if log.connected then Acks(old(queue)[..n], ok) else []
      ensures flushed + failed + |queue| == old(flushed + failed + |queue|)
    {
      if flushing {
        return 0, 0;
      }
      hide Retried, Acks, SucceededCount, HalfDone, AfterFlush, Settled, Started;
      ghost var c, p := Cfg(), View();
      HalfDoneStart(c, p, log.connected, ok);
      var flushed0, failed0 := flushed, failed;
      BeginFlush();
      RunBatch(p, ok);
      ghost var sent := log.redis.net[|old(log.redis.net)|..];
      HalfDoneEnds(c, p, View(), sent, log.connected, BatchSize(c, |p.queue|), ok);
      done, lost := flushed - flushed0, failed - failed0;
    }

    /** The loop of a flush over its batch. */
    method RunBatch(ghost p: Process, ok: nat -> bool)
      requires HalfDone(Cfg(), p, View(), [], log.connected, 0, ok)
      modifies this`queue, this`flushing, this`frames, this`flushed, this`failed, log.redis`net
      ensures !flushing && |log.redis.net| >= |old(log.redis.net)|
      ensures var sent := log.redis.net[|old(log.redis.net)|..];
              && log.redis.net == old(log.redis.net) + sent
              && HalfDone(Cfg(), p, View(), sent, log.connected, BatchSize(Cfg(), |p.queue|), ok)
    {
      hide HalfDone, Settled, AckOf;
      ghost var sent: seq<Pipeline> := [];
      var i := 0;
      HalfDoneCases(Cfg(), p, View(), sent, log.connected, i, ok);
      while flushing
        invariant HalfDone(Cfg(), p, View(), sent, log.connected, i, ok)
        invariant log.redis.net == old(log.redis.net) + sent
        invariant i <= BatchSize(Cfg(), |p.queue|) && (flushing <==> i < BatchSize(Cfg(), |p.queue|))
        invariant flushing ==> |frames| == 1 && frames[0].batch != []
        decreases BatchSize(Cfg(), |p.queue|) - i
      {
        HalfDoneNext(Cfg(), p, View(), sent, log.connected, i, ok);
        sent := sent + if ok(i) && log.connected then AckOf(frames[0].batch[0]) else [];
        Settle(0, ok(i));
        i := i + 1;
        HalfDoneCases(Cfg(), p, View(), sent, log.connected, i, ok);
      }
    }

    /** Puts the pending writes of the log back into the queue. */
    method RecoverFromWal(readable: nat -> bool) returns (count: nat)
      modifies this`queue, this`nextSerial, this`recovered, log.redis`net
      ensures log.connected ==>
        var ids := log.redis.store.pending;
        && queue == old(queue) + Requeued(Cfg(), ids, Reads(ids, log.redis.store.hashes, readable), old(nextSerial))
        && log.redis.net == old(log.redis.net) + Unlists(ids, readable)
      ensures !log.connected ==> queue == old(queue) && log.redis.net == old(log.redis.net)
      ensures count == |queue| - |old(queue)| && nextSerial == old(nextSerial) + count
              && recovered == old(recovered) + count
    {
      hide Requeued, Found, Unlists;
      ghost var ids, read := log.redis.store.pending, Reads(log.redis.store.pending, log.redis.store.hashes, readable);
      var pending := log.Recover(readable);
      count := 0;
      ghost var q0, s0, c := queue, nextSerial, Cfg();
      for i := 0 to |pending|
        invariant queue == q0 + Handled(c, pending[..i], s0)
        invariant count == |queue| - |q0| && nextSerial == s0 + count
        modifies this`queue, this`nextSerial
      {
        assert pending[..i + 1][..i] == pending[..i];
        var (id, data) := pending[i];
        if data.category in log.handlers {
          queue := queue + [Entry(nextSerial, id, data.category, 0, Some(id))];
          nextSerial := nextSerial + 1;
          count := count + 1;
        }
      }
      assert pending[..|pending|] == pending;
      recovered := recovered + count;
      if log.connected { HandledIsRequeued(c, ids, read, s0); }
    }
  }

  lemma AcksNext(queue: seq<Entry>, i: nat, ok: nat -> bool)
    requires i < |queue|
    ensures Acks(queue[..i + 1], ok) == Acks(queue[..i], ok) + if ok(i) then AckOf(queue[i]) else []
  {
    assert queue[..i + 1][..i] == queue[..i];
  }

  lemma {:induction false} SettledAtMost(c: Config, batch: seq<Entry>, ok: nat -> bool)
    ensures SucceededCount(|batch|, ok) + |Retried(c, batch, ok)| <= |batch|
  {
    if batch != [] { SettledAtMost(c, batch[..|batch| - 1], ok); }
  }

  /** The found entries that have a handler, as queue entries. */
  function Handled(c: Config, found: seq<(nat, Data)>, serial: nat): seq<Entry> {
    if found == [] then []
    else
      var n := |found| - 1;
      var front := Handled(c, found[..n], serial);
      if found[n].1.category in c.handlers then
        front + [Entry(serial + |front|, found[n].0, found[n].1.category, 0, Some(found[n].0))] else front
  }

  lemma {:induction false} HandledIsRequeued(c: Config, ids: seq<nat>, read: seq<Option<Data>>, serial: nat)
    requires |read| <= |ids|
    ensures Handled(c, Found(ids, read), serial) == Requeued(c, ids, read, serial)
  {
    if read != [] {
      var front := Found(ids, read[..|read| - 1]);
      HandledIsRequeued(c, ids, read[..|read| - 1], serial);
      assert Found(ids, read) == front || Found(ids, read)[..|front|] == front;
    }
  }

  // ----- a recovery in one go -----

  function ReadingSteps(n: nat, readable: nat -> bool): seq<Step> {
    if n == 0 then [] else ReadingSteps(n - 1, readable) + [RecoverRead(readable(n - 1))]
  }

  /** The machine after listing `ids` and reading the first `n` of them with nothing in between. */
  ghost predicate HasReadOn(s: System, t: System, ids: seq<nat>, n: nat, readable: nat -> bool)
    requires n <= |ids|
  {
    && t.process == s.process.(recovery := Reading(ids, Reads(ids[..n], s.store.hashes, readable)))
    && t.net == s.net + Unlists(ids[..n], readable) && t.store == s.store && t.nextSerial == s.nextSerial
  }

  lemma ReadsOn(s: System, t: System, ids: seq<nat>, n: nat, readable: nat -> bool)
    requires n < |ids| && HasReadOn(s, t, ids, n, readable)
    ensures HasReadOn(s, RecoverReadStep(t, readable(n)), ids, n + 1, readable)
  {
    assert ids[..n + 1][..n] == ids[..n];
    assert Reads(ids[..n + 1], s.store.hashes, readable) == Reads(ids[..n], s.store.hashes, readable)
      + [if readable(n) && ids[n] in s.store.hashes then Some(s.store.hashes[ids[n]]) else None];
  }

  lemma {:induction false} ReadingRun(c: Config, s: System, n: nat, readable: nat -> bool)
    requires s.process.recovery == Idle && n <= |s.store.pending|
    ensures HasReadOn(s, RunFrom(c, s, [RecoverList] + ReadingSteps(n, readable)), s.store.pending, n, readable)
  {
    hide *;
    if n == 0 {
      ListedRun(c, s, readable);
    } else {
      var front := [RecoverList] + ReadingSteps(n - 1, readable);
      NextReadingStep(n, readable);
      ReadingRun(c, s, n - 1, readable);
      OneMoreRead(c, s, front, readable(n - 1));
      ReadsOn(s, RunFrom(c, s, front), s.store.pending, n - 1, readable);
    }
  }

  lemma NextReadingStep(n: nat, readable: nat -> bool)
    requires n > 0
    ensures [RecoverList] + ReadingSteps(n, readable)
            == [RecoverList] + ReadingSteps(n - 1, readable) + [RecoverRead(readable(n - 1))]
  {
  }

  lemma ListedRun(c: Config, s: System, readable: nat -> bool)
    requires s.process.recovery == Idle
    ensures HasReadOn(s, RunFrom(c, s, [RecoverList] + ReadingSteps(0, readable)), s.store.pending, 0, readable)
  {
    var steps := [RecoverList] + ReadingSteps(0, readable);
    assert steps[..0] == [] && steps == [RecoverList];
    assert RunFrom(c, s, []) == s;
    assert s.net + [] == s.net;
  }

  lemma OneMoreRead(c: Config, s: System, front: seq<Step>, readable: bool)
    ensures RunFrom(c, s, front + [RecoverRead(readable)]) == RecoverReadStep(RunFrom(c, s, front), readable)
  {
    assert (front + [RecoverRead(readable)])[..|front|] == front;
    hide RecoverReadStep;
  }

  /**
   A recovery that nothing interrupts, read by read and with any of them failing, does what
   `RecoverFromWal` does at once: the same entries put back, and the same removals sent.
   */
  lemma RecoveredInOneGo(c: Config, s: System, readable: nat -> bool)
    requires s.process.recovery == Idle
    ensures var ids := s.store.pending;
            var t := RunFrom(c, s, [RecoverList] + ReadingSteps(|ids|, readable) + [RecoverFinish]);
            var back := Requeued(c, ids, Reads(ids, s.store.hashes, readable), s.nextSerial);
            && t.process == s.process.(queue := s.process.queue + back, recovered := s.process.recovered + |back|)
            && t.net == s.net + Unlists(ids, readable)
            && t.store == s.store && t.nextSerial == s.nextSerial + |back|
  {
    hide *;
    var ids := s.store.pending;
    var reading := [RecoverList] + ReadingSteps(|ids|, readable);
    ReadingRun(c, s, |ids|, readable);
    LastFinishes(c, s, reading);
    FinishedReading(c, s, RunFrom(c, s, reading), readable);
  }

  lemma LastFinishes(c: Config, s: System, front: seq<Step>)
    ensures RunFrom(c, s, front + [RecoverFinish]) == RecoverFinishStep(c, RunFrom(c, s, front))
  {
    assert (front + [RecoverFinish])[..|front|] == front;
    hide RecoverFinishStep;
  }

  lemma FinishedReading(c: Config, s: System, u: System, readable: nat -> bool)
    requires s.process.recovery == Idle && HasReadOn(s, u, s.store.pending, |s.store.pending|, readable)
    ensures var ids := s.store.pending;
            var t := RecoverFinishStep(c, u);
            var back := Requeued(c, ids, Reads(ids, s.store.hashes, readable), s.nextSerial);
            && t.process == s.process.(queue := s.process.queue + back, recovered := s.process.recovered + |back|)
            && t.net == s.net + Unlists(ids, readable)
            && t.store == s.store && t.nextSerial == s.nextSerial + |back|
  {
    var ids := s.store.pending;
    assert ids[..|ids|] == ids;
    hide Requeued, Unlists, NewTries;
  }
}
