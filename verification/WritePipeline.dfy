/**
 The write queue and its write-ahead log as one state machine: every step is a piece of code
 that runs without an await in between, a single Redis command taking effect, a lost
 connection, or a crash of the process.
 */
module WritePipeline {
  import opened Basics

  /** What the log stores for one write. */
  datatype Data = Data(category: string, payload: string)

  /** `serial` is the identity of the entry object in its process, `write` the identity of the write behind it. */
  datatype Entry = Entry(serial: nat, write: nat, category: string, retryCount: nat, walId: Option<nat>)

  /** Survives crashes: the pending list and the entry hashes. */
  datatype Store = Store(pending: seq<nat>, hashes: map<nat, Data>)

  /** A pipeline on its way to Redis, by the commands it still has to run. */
  datatype Pipeline =
    | Append(id: nat, data: Data)  // HSET, then RPUSH
    | Push(id: nat)                // RPUSH
    | Ack(id: nat)                 // LREM, then DEL
    | Forget(id: nat)              // DEL
    | Unlist(id: nat)              // the LREM that recovery sends for an unreadable entry

  /** A running `flush` call: the entries it still has to run and its own counters. */
  datatype Frame = Frame(batch: seq<Entry>, flushed: nat, failed: nat)

  /** A running recovery: the ids it listed and what it has read for them so far. */
  datatype Recovery = Idle | Reading(ids: seq<nat>, read: seq<Option<Data>>)

  datatype Config = Config(maxBatchSize: int, maxRetries: int, handlers: set<string>)

  /** Lost in a crash. */
  datatype Process = Process(queue: seq<Entry>, flushing: bool, frames: seq<Frame>, resolving: set<nat>,
                             recovery: Recovery, enqueued: nat, recovered: nat, flushed: nat, failed: nat)

  /**
   What has happened so far; no step looks at it. `misread` are the positions on its list that
   the running recovery could not read, `putBack` the writes that finished recoveries re-queued.
   */
  datatype History = History(submitted: map<nat, Data>, appended: set<nat>, succeeded: set<nat>, acknowledged: set<nat>,
                             unreadable: set<nat>, unlisted: set<nat>, misread: set<nat>, putBack: set<nat>,
                             tries: map<nat, nat>, exhausted: map<nat, nat>, flushes: nat)

  datatype System = System(store: Store, net: seq<Pipeline>, process: Process, nextWrite: nat, nextSerial: nat,
    history: History)

  const FRESH_PROCESS: Process := Process([], false, [], {}, Idle, 0, 0, 0, 0)

  const START: System :=
    System(Store([], map[]), [], FRESH_PROCESS, 0, 0, History(map[], {}, {}, {}, {}, {}, {}, {}, map[], map[], 0))

  datatype Step =
    | Enqueue(data: Data, logReady: bool)
    | Flush
    | Settle(frame: nat, ok: bool)
    | Resolve(id: nat)
    | Deliver(pipeline: nat)
    | Lose(pipeline: nat)
    | RecoverList
    | RecoverRead(readable: bool)
    | RecoverFinish
    | RecoverAbort
    | Crash

  // ----- Redis commands -----

  function Removed(list: seq<nat>, id: nat): seq<nat> {
    if list == [] then []
    else
      var front := Removed(list[..|list| - 1], id);
      if list[|list| - 1] == id then front else front + [list[|list| - 1]]
  }

  function HSet(s: Store, id: nat, data: Data): Store {
    s.(hashes := s.hashes[id := data])
  }

  function RPush(s: Store, id: nat): Store {
    s.(pending := s.pending + [id])
  }

  function LRem(s: Store, id: nat): Store {
    s.(pending := Removed(s.pending, id))
  }

  function Del(s: Store, id: nat): Store {
    s.(hashes := s.hashes - {id})
  }

  /** The next command of a pipeline takes effect; what is left of the pipeline. */
  function Delivered(s: Store, p: Pipeline): (Store, seq<Pipeline>) {
    match p
    case Append(id, data) => (HSet(s, id, data), [Push(id)])
    case Push(id) => (RPush(s, id), [])
    case Ack(id) => (LRem(s, id), [Forget(id)])
    case Forget(id) => (Del(s, id), [])
    case Unlist(id) => (LRem(s, id), [])
  }

  // ----- the queue -----

  /** `splice(0, maxBatchSize)`: nothing for a limit of zero or less. */
  function BatchSize(c: Config, length: nat): nat {
    Max(0, Min(c.maxBatchSize, length))
  }

  /** What starting a flush does to the process. */
  function Started(c: Config, p: Process): Process {
    var n := BatchSize(c, |p.queue|);
    if p.flushing || n == 0 then p
    else p.(flushing := true, queue := p.queue[n..], frames := p.frames + [Frame(p.queue[..n], 0, 0)])
  }

  /** An effective flush takes at least one entry. */
  function StartFlush(c: Config, s: System): System {
    var p := s.process;
    s.(process := Started(c, p),
       history := s.history.(flushes :=
         s.history.flushes + if p.flushing || BatchSize(c, |p.queue|) == 0 then 0 else 1))
  }

  function TakenIn(p: Process, serial: nat, write: nat, category: string, logReady: bool): Process {
    p.(queue := p.queue + [Entry(serial, write, category, 0, None)], enqueued := p.enqueued + 1,
       resolving := if logReady then p.resolving + {write} else p.resolving)
  }

  function Queued(s: System, data: Data, logReady: bool): System {
    var w := s.nextWrite;
    s.(nextWrite := w + 1, nextSerial := s.nextSerial + 1,
       net := if logReady then s.net + [Append(w, data)] else s.net,
       process := TakenIn(s.process, s.nextSerial, w, data.category, logReady),
       history := s.history.(submitted := s.history.submitted[w := data],
                             tries := s.history.tries[s.nextSerial := 0]))
  }

  /** The append is sent without waiting for it; a full batch is flushed at once. */
  function EnqueueStep(c: Config, s: System, data: Data, logReady: bool): System {
    var queued := Queued(s, data, logReady);
    if |queued.process.queue| >= c.maxBatchSize then StartFlush(c, queued) else queued
  }

  /** The frame that ran out of entries adds its counters and ends the flush. */
  function EndFrame(p: Process, k: nat): Process
    requires k < |p.frames|
  {
    var f := p.frames[k];
    if f.batch != [] then p
    else p.(flushed := p.flushed + f.flushed, failed := p.failed + f.failed, flushing := false,
            frames := p.frames[..k] + p.frames[k + 1..])
  }

  /** What one settled operation of a batch does to the process. */
  function Settled(c: Config, p: Process, k: nat, ok: bool): Process
    requires k < |p.frames| && p.frames[k].batch != []
  {
    var f := p.frames[k];
    var e, rest := f.batch[0], f.batch[1..];
    if ok then EndFrame(p.(frames := p.frames[k := Frame(rest, f.flushed + 1, f.failed)]), k)
    else if e.retryCount + 1 <= c.maxRetries then
      EndFrame(p.(queue := p.queue + [Retry(e)], frames := p.frames[k := Frame(rest, f.flushed, f.failed)]), k)
    else EndFrame(p.(frames := p.frames[k := Frame(rest, f.flushed, f.failed + 1)]), k)
  }

  function Retry(e: Entry): Entry {
    e.(retryCount := e.retryCount + 1)
  }

  /** The pipeline that a successful operation sends, if its entry is in the log. */
  function AckOf(e: Entry): seq<Pipeline> {
    if e.walId.Some? then [Ack(e.walId.value)] else []
  }

  /** One operation of a batch settles. */
  function SettleStep(c: Config, s: System, k: nat, ok: bool): System {
    var p, h := s.process, s.history;
    if k >= |p.frames| || p.frames[k].batch == [] then s
    else
      var e := p.frames[k].batch[0];
      var t := s.(process := Settled(c, p, k, ok));
      if ok then t.(net := s.net + AckOf(e), history := h.(succeeded := h.succeeded + {e.write}))
      else
        t.(history := h.(tries := h.tries[e.serial := if e.serial in h.tries then h.tries[e.serial] + 1 else 1],
                         exhausted := if e.retryCount + 1 <= c.maxRetries then h.exhausted
                           else h.exhausted[e.serial := e.write]))
  }

  function WithWalId(entries: seq<Entry>, id: nat): (r: seq<Entry>)
    ensures |r| == |entries|
    ensures forall i | 0 <= i < |entries| ::
            r[i] == if entries[i].write == id then entries[i].(walId := Some(id)) else entries[i]
  {
    seq(|entries|, i requires 0 <= i < |entries| => if entries[i].write == id then entries[i].(walId := Some(id))
      else entries[i])
  }

  function FramesWithWalId(frames: seq<Frame>, id: nat): (r: seq<Frame>)
    ensures |r| == |frames|
    ensures forall i | 0 <= i < |frames| :: r[i] == frames[i].(batch := WithWalId(frames[i].batch, id))
  {
    seq(|frames|, i requires 0 <= i < |frames| => frames[i].(batch := WithWalId(frames[i].batch, id)))
  }

  predicate Appending(net: seq<Pipeline>, id: nat) {
    exists i | 0 <= i < |net| :: (net[i].Append? || net[i].Push?) && net[i].id == id
  }

  /** The entry object gets its id wherever it is, in the queue or in a batch being run. */
  function Resolved(p: Process, id: nat): Process {
    p.(queue := WithWalId(p.queue, id), frames := FramesWithWalId(p.frames, id), resolving := p.resolving - {id})
  }

  /** The append call of a write returns its id, once its pipeline is over. */
  function ResolveStep(s: System, id: nat): System {
    if id !in s.process.resolving || Appending(s.net, id) then s else s.(process := Resolved(s.process, id))
  }

  function DeliverStep(s: System, i: nat): System {
    if i >= |s.net| then s
    else
      var p := s.net[i];
      var (store, rest) := Delivered(s.store, p);
      s.(store := store, net := s.net[..i] + rest + s.net[i + 1..],
         history := s.history.(appended := if p.Push? then s.history.appended + {p.id} else s.history.appended,
                               acknowledged := if p.Ack? then s.history.acknowledged + {p.id}
                                 else s.history.acknowledged,
                               unlisted := if p.Unlist? then s.history.unlisted + {p.id} else s.history.unlisted))
  }

  // ----- recovery -----

  /** The entries that a finished reading puts back, in list order: readable, with a category and a handler for it. */
  function Requeued(c: Config, ids: seq<nat>, read: seq<Option<Data>>, serial: nat): (r: seq<Entry>)
    requires |read| <= |ids|
  {
    if read == [] then []
    else
      var n := |read| - 1;
      var front := Requeued(c, ids, read[..n], serial);
      match read[n]
      case None => front
      case Some(data) =>
        if data.category != "" && data.category in c.handlers then
          front + [Entry(serial + |front|, ids[n], data.category, 0, Some(ids[n]))]
        else front
  }

  function RecoverListStep(s: System): System {
    if s.process.recovery.Reading? then s
    else s.(process := s.process.(recovery := Reading(s.store.pending, [])), history := s.history.(misread := {}))
  }

  function RecoverReadStep(s: System, readable: bool): System {
    var p := s.process;
    match p.recovery
    case Idle => s
    case Reading(ids, read) =>
      if |read| >= |ids| then s
      else
        var id := ids[|read|];
        if readable then
          s.(process := p.(recovery := Reading(ids,
            read + [if id in s.store.hashes then Some(s.store.hashes[id]) else None])))
        else
          s.(process := p.(recovery := Reading(ids, read + [None])), net := s.net + [Unlist(id)],
             history := s.history.(unreadable := s.history.unreadable + {id}, misread := s.history.misread + {|read|}))
  }

  function NewTries(entries: seq<Entry>, tries: map<nat, nat>): map<nat, nat> {
    if entries == [] then tries else NewTries(entries[..|entries| - 1], tries)[entries[|entries| - 1].serial := 0]
  }

  function WritesOf(entries: seq<Entry>): set<nat> {
    set i | 0 <= i < |entries| :: entries[i].write
  }

  function RecoverFinishStep(c: Config, s: System): System {
    var p := s.process;
    match p.recovery
    case Idle => s
    case Reading(ids, read) =>
      if |read| != |ids| then s
      else
        var back := Requeued(c, ids, read, s.nextSerial);
        s.(process := p.(queue := p.queue + back, recovery := Idle, recovered := p.recovered + |back|),
           nextSerial := s.nextSerial + |back|,
           history := s.history.(tries := NewTries(back, s.history.tries),
                                 putBack := s.history.putBack + WritesOf(back)))
  }

  function Next(c: Config, s: System, step: Step): System {
    match step
    case Enqueue(data, logReady) => EnqueueStep(c, s, data, logReady)
    case Flush => StartFlush(c, s)
    case Settle(k, ok) => SettleStep(c, s, k, ok)
    case Resolve(id) => ResolveStep(s, id)
    case Deliver(i) => DeliverStep(s, i)
    case Lose(i) => if i < |s.net| then s.(net := s.net[..i] + s.net[i + 1..]) else s
    case RecoverList => RecoverListStep(s)
    case RecoverRead(readable) => RecoverReadStep(s, readable)
    case RecoverFinish => RecoverFinishStep(c, s)
    case RecoverAbort => s.(process := s.process.(recovery := Idle))
    case Crash => s.(process := FRESH_PROCESS)
  }

  function Run(c: Config, steps: seq<Step>): System {
    if steps == [] then START else Next(c, Run(c, steps[..|steps| - 1]), steps[|steps| - 1])
  }

  function RunFrom(c: Config, s: System, steps: seq<Step>): System {
    if steps == [] then s else Next(c, RunFrom(c, s, steps[..|steps| - 1]), steps[|steps| - 1])
  }

  lemma {:induction false} RunContinues(c: Config, s: System, a: seq<Step>, b: seq<Step>)
    ensures RunFrom(c, RunFrom(c, s, a), b) == RunFrom(c, s, a + b)
    ensures RunFrom(c, START, a) == Run(c, a)
    decreases |a| + |b|
  {
    hide Next;
    if b != [] {
      RunContinues(c, s, a, b[..|b| - 1]);
      assert (a + b)[..|a + b| - 1] == a + b[..|b| - 1];
    } else {
      assert a + b == a;
      if a != [] { RunContinues(c, s, a[..|a| - 1], []); }
    }
  }
}
