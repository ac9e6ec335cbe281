/**
 What every step of the write pipeline keeps, and what follows for whole runs with crashes,
 lost commands and interleaved enqueues.
 */
module WriteSafety {
  import opened Basics
  import opened WritePipeline

  // ----- the log -----

  /** The append of this write is over: nothing on its way will still push it. */
  ghost predicate Landed(s: System, id: nat) {
    id < s.nextWrite && !Appending(s.net, id)
  }

  ghost predicate PipelineOk(s: System, p: Pipeline) {
    match p
    case Append(id, data) =>
      id < s.nextWrite && id in s.history.submitted && s.history.submitted[id] == data && id !in s.history.appended
        && id !in s.store.pending
    case Push(id) =>
      id < s.nextWrite && id !in s.history.appended && id !in s.store.pending
      && id in s.store.hashes && id in s.history.submitted && s.store.hashes[id] == s.history.submitted[id]
    case Ack(id) => id in s.history.succeeded && Landed(s, id)
    case Forget(id) => id in s.history.succeeded && id !in s.store.pending && Landed(s, id)
    case Unlist(id) => id in s.history.unreadable && Landed(s, id)
  }

  ghost predicate OneAppendEach(net: seq<Pipeline>) {
    forall i, j | 0 <= i < j < |net| && (net[i].Append? || net[i].Push?) && (net[j].Append? || net[j].Push?) ::
      net[i].id != net[j].id
  }

  /** Every id on the pending list has its entry hash, with the data that was submitted. */
  ghost predicate ListedAreStored(s: System) {
    forall id | id in s.store.pending ::
      id in s.store.hashes && id in s.history.submitted && s.store.hashes[id] == s.history.submitted[id]
      && id in s.history.appended && Landed(s, id)
  }

  /** A write whose append completed is pending or has succeeded, unless a recovery took it off the list. */
  ghost predicate NothingLost(s: System) {
    forall id | id in s.history.appended ::
      id < s.nextWrite && (id in s.store.pending || id in s.history.succeeded || id in s.history.unlisted)
  }

  /** What a recovery took off the list was unreadable to it and never comes back. */
  ghost predicate UnlistedStayOff(s: System) {
    forall id | id in s.history.unlisted :: id in s.history.unreadable && id !in s.store.pending && Landed(s, id)
  }

  ghost predicate EntryOk(s: System, e: Entry) {
    e.walId.Some? ==> e.walId.value == e.write && Landed(s, e.write)
  }

  ghost predicate EntriesOk(s: System) {
    && (forall i | 0 <= i < |s.process.queue| :: EntryOk(s, s.process.queue[i]))
    && (forall k, i | 0 <= k < |s.process.frames| && 0 <= i < |s.process.frames[k].batch| ::
        EntryOk(s, s.process.frames[k].batch[i]))
    && (forall id | id in s.process.resolving :: id < s.nextWrite)
  }

  /**
   What a recovery has read is what was submitted, and what it found missing, other than by a failed
   read, is off the list.
   */
  ghost predicate RecoveryOk(s: System) {
    match s.process.recovery
    case Idle => true
    case Reading(ids, read) =>
      && |read| <= |ids| && Distinct(ids)
      && (forall i | 0 <= i < |ids| :: Landed(s, ids[i]))
      && (forall i | 0 <= i < |read| ::
            if read[i].Some? then ids[i] in s.history.submitted && read[i].value == s.history.submitted[ids[i]]
            else ids[i] !in s.store.pending || i in s.history.misread)
  }

  ghost predicate NetOk(s: System) {
    && (forall i | 0 <= i < |s.net| :: PipelineOk(s, s.net[i]))
    && OneAppendEach(s.net)
  }

  ghost predicate StoreOk(s: System) {
    && ListedAreStored(s)
    && Distinct(s.store.pending)
    && NothingLost(s)
    && UnlistedStayOff(s)
    && s.history.acknowledged <= s.history.succeeded
    && (forall id | id in s.history.submitted :: id < s.nextWrite)
    && (forall id | id in s.store.hashes :: id in s.history.submitted && s.store.hashes[id] == s.history.submitted[id])
  }

  ghost predicate LogInv(s: System) {
    NetOk(s) && StoreOk(s) && EntriesOk(s) && RecoveryOk(s)
  }

  // ----- stability -----

  /** What every step keeps of the facts that entries and recoveries rely on. */
  ghost predicate Grows(s: System, t: System) {
    && s.nextWrite <= t.nextWrite
    && (forall id | Landed(s, id) :: Landed(t, id))
    && (forall id | Landed(s, id) && id !in s.store.pending :: id !in t.store.pending)
    && (forall id | id in s.history.submitted ::
        id in t.history.submitted && t.history.submitted[id] == s.history.submitted[id])
    && s.history.unreadable <= t.history.unreadable && s.history.succeeded <= t.history.succeeded
  }

  lemma RecoveryStays(s: System, t: System)
    requires RecoveryOk(s) && Grows(s, t) && t.process.recovery == s.process.recovery
             && t.history.misread == s.history.misread
    ensures RecoveryOk(t)
  {
  }

  lemma EntryStays(s: System, t: System, e: Entry)
    requires EntryOk(s, e) && Grows(s, t)
    ensures EntryOk(t, e)
  {
  }

  lemma EntriesStay(s: System, t: System)
    requires EntriesOk(s) && Grows(s, t)
    requires t.process.queue == s.process.queue && t.process.frames == s.process.frames
             && t.process.resolving == s.process.resolving
    ensures EntriesOk(t)
  {
  }

  lemma {:induction false} RemovedFacts(list: seq<nat>, id: nat)
    ensures forall x :: x in Removed(list, id) <==> x in list && x != id
    ensures Distinct(list) ==> Distinct(Removed(list, id))
  {
    if list != [] {
      var front, last := list[..|list| - 1], list[|list| - 1];
      RemovedFacts(front, id);
      assert list == front + [last];
      if Distinct(list) {
        var r := Removed(front, id);
        forall i | 0 <= i < |r| ensures r[i] != last { assert r[i] in r; assert r[i] in front; }
      }
    }
  }

  /** One pipeline runs a command: what is left takes its place. */
  ghost predicate Replaced(net: seq<Pipeline>, i: nat, rest: seq<Pipeline>, after: seq<Pipeline>) {
    i < |net| && after == net[..i] + rest + net[i + 1..]
  }

  lemma ReplacedMembers(net: seq<Pipeline>, i: nat, rest: seq<Pipeline>, after: seq<Pipeline>)
    requires Replaced(net, i, rest, after) && |rest| <= 1
    requires rest != [] && (rest[0].Append? || rest[0].Push?)
             ==> (net[i].Append? || net[i].Push?) && net[i].id == rest[0].id
    ensures forall j | 0 <= j < |after| :: after[j] in net || after[j] in rest
    ensures forall id | Appending(after, id) :: Appending(net, id)
    ensures OneAppendEach(net) ==> OneAppendEach(after)
    ensures OneAppendEach(net) && rest == [] && (net[i].Append? || net[i].Push?) ==> !Appending(after, net[i].id)
    ensures OneAppendEach(net) && (net[i].Append? || net[i].Push?) ==>
              forall j | 0 <= j < |after| && (after[j].Append? || after[j].Push?) && after[j].id == net[i].id ::
                rest != [] && after[j] == rest[0]
  {
    forall j | 0 <= j < |after|
      ensures after[j] == if j < i then net[j] else if rest != [] && j == i then rest[0] else net[j + 1 - |rest|]
    {
    }
    forall id | Appending(after, id) ensures Appending(net, id) {
      var j :| 0 <= j < |after| && (after[j].Append? || after[j].Push?) && after[j].id == id;
      if rest != [] && j == i { assert net[i].id == id; }
    }
  }

  lemma PushedNet(net: seq<Pipeline>, p: Pipeline)
    ensures forall id :: Appending(net + [p], id) <==> Appending(net, id) || ((p.Append? || p.Push?) && p.id == id)
  {
    forall id ensures Appending(net + [p], id) <==> Appending(net, id) || ((p.Append? || p.Push?) && p.id == id) {
      if Appending(net, id) {
        var i :| 0 <= i < |net| && (net[i].Append? || net[i].Push?) && net[i].id == id;
        assert (net + [p])[i] == net[i];
      }
      if (p.Append? || p.Push?) && p.id == id { assert (net + [p])[|net|] == p; }
    }
  }

  // ----- the steps that touch the log -----

  lemma DeliverKeepsLog(s: System, i: nat)
    requires LogInv(s) && i < |s.net|
    ensures LogInv(DeliverStep(s, i))
  {
    var t, p := DeliverStep(s, i), s.net[i];
    var rest := Delivered(s.store, p).1;
    assert PipelineOk(s, p);
    assert Replaced(s.net, i, rest, t.net);
    ReplacedMembers(s.net, i, rest, t.net);
    RemovedFacts(s.store.pending, p.id);
    assert Grows(s, t);
    RecoveryStays(s, t);
    EntriesStay(s, t);
    DeliverNet(s, i);
    DeliverStore(s, i);
  }

  lemma DeliverNet(s: System, i: nat)
    requires LogInv(s) && i < |s.net|
    ensures NetOk(DeliverStep(s, i))
  {
    var t, p := DeliverStep(s, i), s.net[i];
    var rest := Delivered(s.store, p).1;
    assert PipelineOk(s, p);
    ReplacedMembers(s.net, i, rest, t.net);
    RemovedFacts(s.store.pending, p.id);
    forall j | 0 <= j < |t.net| ensures PipelineOk(t, t.net[j]) {
      if t.net[j] in s.net {
        assert PipelineOk(s, t.net[j]);
      }
    }
  }

  lemma DeliverStore(s: System, i: nat)
    requires LogInv(s) && i < |s.net|
    ensures StoreOk(DeliverStep(s, i))
  {
    var t, p := DeliverStep(s, i), s.net[i];
    assert PipelineOk(s, p);
    ReplacedMembers(s.net, i, Delivered(s.store, p).1, t.net);
    RemovedFacts(s.store.pending, p.id);
  }

  lemma LoseKeepsLog(s: System, i: nat)
    requires LogInv(s) && i < |s.net|
    ensures LogInv(s.(net := s.net[..i] + s.net[i + 1..]))
  {
    var t := s.(net := s.net[..i] + s.net[i + 1..]);
    assert t.net == s.net[..i] + [] + s.net[i + 1..];
    ReplacedMembers(s.net, i, [], t.net);
    assert Grows(s, t);
    RecoveryStays(s, t);
    EntriesStay(s, t);
    forall j | 0 <= j < |t.net| ensures PipelineOk(t, t.net[j]) {
      assert PipelineOk(s, t.net[j]);
    }
  }

  /** The flush start only moves entries from the queue into a frame. */
  lemma FlushKeepsLog(c: Config, s: System)
    requires LogInv(s)
    ensures LogInv(StartFlush(c, s))
  {
    var t := StartFlush(c, s);
    assert Grows(s, t);
    RecoveryStays(s, t);
    forall j | 0 <= j < |t.net| ensures PipelineOk(t, t.net[j]) {
      assert PipelineOk(s, t.net[j]);
    }
    forall e | e in s.process.queue ensures EntryOk(t, e) {
      var i :| 0 <= i < |s.process.queue| && s.process.queue[i] == e;
      assert EntryOk(s, s.process.queue[i]);
    }
    forall k, i | 0 <= k < |t.process.frames| && 0 <= i < |t.process.frames[k].batch|
      ensures EntryOk(t, t.process.frames[k].batch[i]) {
      if k < |s.process.frames| {
        assert EntryOk(s, s.process.frames[k].batch[i]);
      } else {
        assert t.process.frames[k].batch[i] in s.process.queue;
      }
    }
    assert forall i | 0 <= i < |t.process.queue| :: t.process.queue[i] in s.process.queue;
  }

  lemma EnqueueKeepsLog(c: Config, s: System, data: Data, logReady: bool)
    requires LogInv(s)
    ensures LogInv(EnqueueStep(c, s, data, logReady))
  {
    var t := Queued(s, data, logReady);
    PushedNet(s.net, Append(s.nextWrite, data));
    assert Grows(s, t);
    RecoveryStays(s, t);
    QueuedNet(s, data, logReady);
    forall k, i | 0 <= k < |t.process.frames| && 0 <= i < |t.process.frames[k].batch|
      ensures EntryOk(t, t.process.frames[k].batch[i]) {
      EntryStays(s, t, s.process.frames[k].batch[i]);
    }
    forall i | 0 <= i < |t.process.queue| ensures EntryOk(t, t.process.queue[i]) {
      if i < |s.process.queue| { EntryStays(s, t, s.process.queue[i]); }
    }
    FlushKeepsLog(c, t);
  }

  lemma QueuedNet(s: System, data: Data, logReady: bool)
    requires LogInv(s) && Grows(s, Queued(s, data, logReady))
    ensures NetOk(Queued(s, data, logReady)) && StoreOk(Queued(s, data, logReady))
  {
    var t := Queued(s, data, logReady);
    forall j | 0 <= j < |s.net| ensures PipelineOk(t, s.net[j]) {
      assert PipelineOk(s, s.net[j]);
    }
    assert forall i | 0 <= i < |s.net| :: s.net[i].id < s.nextWrite by {
      forall i | 0 <= i < |s.net| ensures s.net[i].id < s.nextWrite { assert PipelineOk(s, s.net[i]); }
    }
  }

  lemma ResolveKeepsLog(s: System, id: nat)
    requires LogInv(s)
    ensures LogInv(ResolveStep(s, id))
  {
    var t := ResolveStep(s, id);
    assert Grows(s, t);
    RecoveryStays(s, t);
    forall j | 0 <= j < |t.net| ensures PipelineOk(t, t.net[j]) {
      assert PipelineOk(s, t.net[j]);
    }
    forall k, i | 0 <= k < |t.process.frames| && 0 <= i < |t.process.frames[k].batch|
      ensures EntryOk(t, t.process.frames[k].batch[i]) {
      EntryStays(s, t, s.process.frames[k].batch[i]);
    }
    forall i | 0 <= i < |t.process.queue| ensures EntryOk(t, t.process.queue[i]) {
      EntryStays(s, t, s.process.queue[i]);
    }
  }

  lemma SettleKeepsLog(c: Config, s: System, k: nat, ok: bool)
    requires LogInv(s)
    ensures LogInv(SettleStep(c, s, k, ok))
  {
    var p := s.process;
    if k < |p.frames| && p.frames[k].batch != [] {
      var t, e := SettleStep(c, s, k, ok), p.frames[k].batch[0];
      assert EntryOk(s, e);
      if e.walId.Some? { PushedNet(s.net, Ack(e.walId.value)); }
      assert Grows(s, t);
      RecoveryStays(s, t);
      SettleNet(c, s, k, ok);
      SettleEntries(c, s, t, k, ok);
    }
  }

  lemma SettleNet(c: Config, s: System, k: nat, ok: bool)
    requires LogInv(s) && k < |s.process.frames| && s.process.frames[k].batch != []
    requires Grows(s, SettleStep(c, s, k, ok))
    ensures NetOk(SettleStep(c, s, k, ok)) && StoreOk(SettleStep(c, s, k, ok))
  {
    var t, e := SettleStep(c, s, k, ok), s.process.frames[k].batch[0];
    assert EntryOk(s, e);
    forall j | 0 <= j < |t.net| ensures PipelineOk(t, t.net[j]) {
      if j < |s.net| { assert PipelineOk(s, s.net[j]); }
    }
  }

  lemma SettleEntries(c: Config, s: System, t: System, k: nat, ok: bool)
    requires EntriesOk(s) && k < |s.process.frames| && s.process.frames[k].batch != []
    requires t == SettleStep(c, s, k, ok) && Grows(s, t)
    ensures EntriesOk(t)
  {
    var p := s.process;
    var e := p.frames[k].batch[0];
    EntryStays(s, t, e);
    forall i | 0 <= i < |t.process.queue| ensures EntryOk(t, t.process.queue[i]) {
      if i < |p.queue| { EntryStays(s, t, p.queue[i]); }
    }
    forall f | f in t.process.frames ensures forall i | 0 <= i < |f.batch| :: EntryOk(t, f.batch[i]) {
      SettledFrames(c, s, k, ok, f);
      var j :| 0 <= j < |p.frames|
        && (f.batch == p.frames[j].batch || (p.frames[j].batch != [] && f.batch == p.frames[j].batch[1..]));
      forall i | 0 <= i < |f.batch| ensures EntryOk(t, f.batch[i]) {
        EntryStays(s, t, if f.batch == p.frames[j].batch then p.frames[j].batch[i] else p.frames[j].batch[i + 1]);
      }
    }
  }

  lemma SettledFrames(c: Config, s: System, k: nat, ok: bool, f: Frame)
    requires k < |s.process.frames| && s.process.frames[k].batch != []
    requires f in SettleStep(c, s, k, ok).process.frames
    ensures exists j :: 0 <= j < |s.process.frames| &&
              (f.batch == s.process.frames[j].batch
                || (s.process.frames[j].batch != [] && f.batch == s.process.frames[j].batch[1..]))
  {
    var frames, after := s.process.frames, SettleStep(c, s, k, ok).process.frames;
    var i :| 0 <= i < |after| && after[i] == f;
    if |after| == |frames| {
      assert f.batch == if i == k then frames[i].batch[1..] else frames[i].batch;
    } else {
      assert f.batch == frames[if i < k then i else i + 1].batch;
    }
  }

  lemma RecoverReadKeepsLog(s: System, readable: bool)
    requires LogInv(s)
    ensures LogInv(RecoverReadStep(s, readable))
  {
    var t := RecoverReadStep(s, readable);
    if t != s {
      var id := s.process.recovery.ids[|s.process.recovery.read|];
      PushedNet(s.net, Unlist(id));
      assert Landed(s, id);
      assert Grows(s, t);
      EntriesStay(s, t);
      forall j | 0 <= j < |t.net| ensures PipelineOk(t, t.net[j]) {
        if j < |s.net| { assert PipelineOk(s, s.net[j]); }
      }
      RecoveryReads(s, t, readable);
    }
  }

  lemma RecoveryReads(s: System, t: System, readable: bool)
    requires LogInv(s) && t == RecoverReadStep(s, readable) && t != s && Grows(s, t)
    ensures RecoveryOk(t)
  {
    var ids, read := s.process.recovery.ids, s.process.recovery.read;
    var id := ids[|read|];
    assert id in s.store.pending ==> id in s.store.hashes;
  }

  lemma {:induction false} RequeuedOk(c: Config, s: System, ids: seq<nat>, read: seq<Option<Data>>, serial: nat)
    requires |read| <= |ids| && forall i | 0 <= i < |ids| :: Landed(s, ids[i])
    ensures forall i | 0 <= i < |Requeued(c, ids, read, serial)| :: EntryOk(s, Requeued(c, ids, read, serial)[i])
  {
    if read != [] { RequeuedOk(c, s, ids, read[..|read| - 1], serial); }
  }

  lemma RecoverFinishKeepsLog(c: Config, s: System)
    requires LogInv(s)
    ensures LogInv(RecoverFinishStep(c, s))
  {
    var t := RecoverFinishStep(c, s);
    if t != s {
      var ids, read := s.process.recovery.ids, s.process.recovery.read;
      RequeuedOk(c, s, ids, read, s.nextSerial);
      assert Grows(s, t);
      forall j | 0 <= j < |t.net| ensures PipelineOk(t, t.net[j]) { assert PipelineOk(s, s.net[j]); }
      forall k, i | 0 <= k < |t.process.frames| && 0 <= i < |t.process.frames[k].batch|
        ensures EntryOk(t, t.process.frames[k].batch[i]) {
        EntryStays(s, t, s.process.frames[k].batch[i]);
      }
      forall i | 0 <= i < |t.process.queue| ensures EntryOk(t, t.process.queue[i]) {
        EntryStays(s, t, t.process.queue[i]);
      }
    }
  }

  lemma OtherKeepsLog(s: System, t: System)
    requires LogInv(s)
    requires t == s.(process := FRESH_PROCESS) || t == RecoverListStep(s)
             || t == s.(process := s.process.(recovery := Idle))
    ensures LogInv(t)
  {
    assert Grows(s, t);
    forall j | 0 <= j < |t.net| ensures PipelineOk(t, t.net[j]) { assert PipelineOk(s, s.net[j]); }
    if t.process != FRESH_PROCESS { EntriesStay(s, t); }
  }

  lemma StepKeepsLog(c: Config, s: System, step: Step)
    requires LogInv(s)
    ensures LogInv(Next(c, s, step))
  {
    match step
    case Enqueue(data, logReady) => EnqueueKeepsLog(c, s, data, logReady);
    case Flush => FlushKeepsLog(c, s);
    case Settle(k, ok) => SettleKeepsLog(c, s, k, ok);
    case Resolve(id) => ResolveKeepsLog(s, id);
    case Deliver(i) => if i < |s.net| { DeliverKeepsLog(s, i); }
    case Lose(i) => if i < |s.net| { LoseKeepsLog(s, i); }
    case RecoverList => OtherKeepsLog(s, RecoverListStep(s));
    case RecoverRead(readable) => RecoverReadKeepsLog(s, readable);
    case RecoverFinish => RecoverFinishKeepsLog(c, s);
    case RecoverAbort => OtherKeepsLog(s, s.(process := s.process.(recovery := Idle)));
    case Crash => OtherKeepsLog(s, s.(process := FRESH_PROCESS));
  }

  lemma {:induction false} RunKeepsLog(c: Config, steps: seq<Step>)
    ensures LogInv(Run(c, steps))
  {
    hide LogInv;
    if steps == [] {
      assert LogInv(START) by { StartLog(); }
    } else {
      RunKeepsLog(c, steps[..|steps| - 1]);
      StepKeepsLog(c, Run(c, steps[..|steps| - 1]), steps[|steps| - 1]);
    }
  }

  lemma StartLog()
    ensures LogInv(START)
  {
  }

  // ----- what holds over whole runs -----

  /**
   With a crash or a lost command between any two commands, a listed id always has its entry hash,
   holding what was submitted.
   */
  lemma PendingAlwaysHasHash(c: Config, steps: seq<Step>, id: nat)
    requires id in Run(c, steps).store.pending
    ensures var s := Run(c, steps);
            id in s.store.hashes && id in s.history.submitted && s.store.hashes[id] == s.history.submitted[id]
  {
    RunKeepsLog(c, steps);
  }

  /**
   When exactly a write is lost: one whose append completed and that has not succeeded is
   pending unless a recovery that could not read its entry took it off the list. Only
   succeeded writes are ever acknowledged.
   */
  lemma NoCompletedAppendIsLost(c: Config, steps: seq<Step>)
    ensures var s := Run(c, steps);
            && (forall id | id in s.history.appended && id !in s.history.succeeded ::
                id in s.store.pending <==> id !in s.history.unlisted)
            && s.history.acknowledged <= s.history.succeeded && s.history.unlisted <= s.history.unreadable
  {
    RunKeepsLog(c, steps);
  }

  /** The step that loses a write: a pipeline to take an unreadable id off the list gets through. */
  ghost predicate TakesOff(s: System, step: Step, id: nat) {
    step.Deliver? && step.pipeline < |s.net| && s.net[step.pipeline] == Unlist(id)
  }

  /** Loss happens in no other step, and always in this one. */
  lemma LostInOneStep(c: Config, steps: seq<Step>, step: Step, id: nat)
    requires var s := Run(c, steps); id in s.history.appended && id in s.store.pending
    requires id !in Next(c, Run(c, steps), step).history.succeeded
    ensures id !in Next(c, Run(c, steps), step).store.pending <==> TakesOff(Run(c, steps), step, id)
  {
    var s := Run(c, steps);
    RunKeepsLog(c, steps);
    StepKeepsLog(c, s, step);
    hide Run, NetOk, EntriesOk, RecoveryOk;
    if step.Deliver? { DeliveredTakesOff(s, step.pipeline); }
    hide LogInv, StoreOk;
    OnlyDeliveriesTakeOff(c, s, step);
  }

  lemma DeliveredTakesOff(s: System, i: nat)
    ensures DeliverStep(s, i).history.unlisted == s.history.unlisted
            + if i < |s.net| && s.net[i].Unlist? then {s.net[i].id} else {}
  {
  }

  lemma OnlyDeliveriesTakeOff(c: Config, s: System, step: Step)
    ensures !step.Deliver?
            ==> Next(c, s, step).store == s.store && Next(c, s, step).history.unlisted == s.history.unlisted
    ensures Next(c, s, step).history.appended >= s.history.appended
  {
  }

  lemma {:induction false} ReadableRunsHaveNoneUnreadable(c: Config, steps: seq<Step>)
    requires forall i | 0 <= i < |steps| :: steps[i] != RecoverRead(false)
    ensures Run(c, steps).history.unreadable == {}
  {
    if steps != [] {
      ReadableRunsHaveNoneUnreadable(c, steps[..|steps| - 1]);
      OnlyFailedReadsCount(c, Run(c, steps[..|steps| - 1]), steps[|steps| - 1]);
      hide Next;
    }
  }

  lemma OnlyFailedReadsCount(c: Config, s: System, step: Step)
    requires step != RecoverRead(false)
    ensures Next(c, s, step).history.unreadable == s.history.unreadable
  {
  }

  lemma RunPush(c: Config, steps: seq<Step>, step: Step)
    ensures Run(c, steps + [step]) == Next(c, Run(c, steps), step)
  {
    assert (steps + [step])[..|steps|] == steps;
  }

  lemma OneLoggedWrite(c: Config, data: Data)
    ensures var s := Run(c, [Enqueue(data, true), Deliver(0), Deliver(0)]);
            s.store.pending == [0] && s.net == [] && s.history.appended == {0} && s.history.succeeded == {}
  {
    var s1 := Next(c, START, Enqueue(data, true));
    assert s1.net == [Append(0, data)] && s1.history.succeeded == {} && s1.history.appended == {}
           && s1.store == START.store;
    var s2 := Next(c, s1, Deliver(0));
    assert s2.net == [Push(0)] && s2.history.succeeded == {} && s2.history.appended == {} && s2.store.pending == [];
    RunPush(c, [], Enqueue(data, true));
    assert [] + [Enqueue(data, true)] == [Enqueue(data, true)];
    RunPush(c, [Enqueue(data, true)], Deliver(0));
    assert [Enqueue(data, true)] + [Deliver(0)] == [Enqueue(data, true), Deliver(0)];
    RunPush(c, [Enqueue(data, true), Deliver(0)], Deliver(0));
    assert [Enqueue(data, true), Deliver(0)] + [Deliver(0)] == [Enqueue(data, true), Deliver(0), Deliver(0)];
  }

  lemma UnlistedByRecovery(c: Config, s: System)
    requires s.store.pending == [0] && s.net == [] && s.process == FRESH_PROCESS
    ensures var t := Next(c, Next(c, Next(c, s, RecoverList), RecoverRead(false)), Deliver(0));
            t.store.pending == [] && t.history.appended == s.history.appended
              && t.history.succeeded == s.history.succeeded
  {
    var s2 := Next(c, Next(c, s, RecoverList), RecoverRead(false));
    assert s2.net == [Unlist(0)];
    assert Removed([0], 0) == [] by { assert [0][..0] == []; }
  }

  /** A write is lost after the run. */
  ghost predicate Loses(c: Config, steps: seq<Step>, id: nat) {
    var s := Run(c, steps);
    id in s.history.appended && id !in s.store.pending && id !in s.history.succeeded
  }

  /**
   Under every configuration some run loses a write: recovery takes an entry it could not read off the
   pending list.
   */
  lemma UnreadableEntryIsLost(c: Config, data: Data)
    ensures Loses(c, [Enqueue(data, true), Deliver(0), Deliver(0)] + [Crash] + [RecoverList] + [RecoverRead(false)]
            + [Deliver(0)], 0)
  {
    var steps := [Enqueue(data, true), Deliver(0), Deliver(0)];
    OneLoggedWrite(c, data);
    hide Run;
    RunPush(c, steps, Crash);
    UnlistedByRecovery(c, Run(c, steps + [Crash]));
    RunPush(c, steps + [Crash], RecoverList);
    RunPush(c, steps + [Crash] + [RecoverList], RecoverRead(false));
    RunPush(c, steps + [Crash] + [RecoverList] + [RecoverRead(false)], Deliver(0));
  }

  /** Reads may fail or not, as the flag says. */
  ghost predicate ReadsAllowed(steps: seq<Step>, mayFail: bool) {
    mayFail || forall i | 0 <= i < |steps| :: steps[i] != RecoverRead(false)
  }

  /** The log loses no write in any run exactly when recoveries can read every entry they ask for. */
  lemma NothingLostWhenReadable(c: Config, mayFail: bool)
    ensures (forall steps, id | ReadsAllowed(steps, mayFail) :: !Loses(c, steps, id)) <==> !mayFail
  {
    if mayFail {
      var data := Data("", "");
      UnreadableEntryIsLost(c, data);
      assert ReadsAllowed([Enqueue(data, true), Deliver(0), Deliver(0)] + [Crash] + [RecoverList]
             + [RecoverRead(false)] + [Deliver(0)], mayFail);
    } else {
      forall steps, id | ReadsAllowed(steps, mayFail) ensures !Loses(c, steps, id) {
        NoCompletedAppendIsLost(c, steps);
        ReadableRunsHaveNoneUnreadable(c, steps);
      }
    }
  }

  // ----- recovery -----

  /** The entries for all listed writes that have a category and a handler for it, in list order. */
  function Recoverable(c: Config, ids: seq<nat>, submitted: map<nat, Data>, serial: nat): seq<Entry> {
    if ids == [] then []
    else
      var front, id := Recoverable(c, ids[..|ids| - 1], submitted, serial), ids[|ids| - 1];
      if id in submitted && submitted[id].category != "" && submitted[id].category in c.handlers then
        front + [Entry(serial + |front|, id, submitted[id].category, 0, Some(id))]
      else front
  }

  lemma {:induction false} AllReadIsRecoverable(c: Config, ids: seq<nat>, read: seq<Option<Data>>,
                                                submitted: map<nat, Data>, serial: nat)
    requires |read| == |ids|
    requires forall i | 0 <= i < |ids| :: ids[i] in submitted && read[i] == Some(submitted[ids[i]])
    ensures Requeued(c, ids, read, serial) == Recoverable(c, ids, submitted, serial)
  {
    if ids != [] {
      AllReadIsRecoverable(c, ids[..|ids| - 1], read[..|ids| - 1], submitted, serial);
      RequeuedPrefix(c, ids, read[..|ids| - 1], serial);
    }
  }

  /** Only the ids that have been read matter. */
  lemma {:induction false} RequeuedPrefix(c: Config, ids: seq<nat>, read: seq<Option<Data>>, serial: nat)
    requires |read| <= |ids|
    ensures Requeued(c, ids, read, serial) == Requeued(c, ids[..|read|], read, serial)
    decreases |read|
  {
    if read != [] {
      var n := |read| - 1;
      RequeuedPrefix(c, ids, read[..n], serial);
      RequeuedPrefix(c, ids[..n + 1], read[..n], serial);
      assert ids[..n + 1][..n] == ids[..n];
    }
  }

  /** The next `n` listed entries are read. */
  function Readings(n: nat): (steps: seq<Step>)
    ensures |steps| == n
  {
    if n == 0 then [] else Readings(n - 1) + [RecoverRead(true)]
  }

  /**
   From a state that has just listed the pending ids, the first `n` of them have been read and nothing
   else has happened.
   */
  ghost predicate HasRead(s: System, t: System, n: nat) {
    var ids := s.store.pending;
    && n <= |ids|
    && t == s.(process := s.process.(recovery := t.process.recovery))
    && t.process.recovery.Reading? && t.process.recovery.ids == ids && |t.process.recovery.read| == n
    && forall i | 0 <= i < n ::
         ids[i] in s.history.submitted && t.process.recovery.read[i] == Some(s.history.submitted[ids[i]])
  }

  lemma {:induction false} ReadingsRead(c: Config, s: System, n: nat)
    requires ListedAreStored(s) && n <= |s.store.pending| && s.process.recovery == Reading(s.store.pending, [])
    ensures HasRead(s, RunFrom(c, s, Readings(n)), n)
  {
    hide *;
    NextReading(c, s, n);
    if n == 0 {
      NothingRead(s);
    } else {
      ReadingsRead(c, s, n - 1);
      OneReading(c, s, RunFrom(c, s, Readings(n - 1)), n - 1);
    }
  }

  lemma NextReading(c: Config, s: System, n: nat)
    ensures if n == 0 then RunFrom(c, s, Readings(n)) == s
            else RunFrom(c, s, Readings(n)) == Next(c, RunFrom(c, s, Readings(n - 1)), RecoverRead(true))
  {
    hide Next;
    if n > 0 { assert Readings(n)[..n - 1] == Readings(n - 1); }
  }

  lemma NothingRead(s: System)
    requires s.process.recovery == Reading(s.store.pending, [])
    ensures HasRead(s, s, 0)
  {
  }

  lemma OneReading(c: Config, s: System, t: System, n: nat)
    requires ListedAreStored(s) && HasRead(s, t, n) && n < |s.store.pending|
    ensures HasRead(s, Next(c, t, RecoverRead(true)), n + 1)
  {
    assert s.store.pending[n] in s.store.pending;
  }

  /** A recovery from start to end with nothing in between. */
  function WholeRecovery(n: nat): seq<Step> {
    [RecoverList] + Readings(n) + [RecoverFinish]
  }

  lemma WholeRecoveryFrom(c: Config, s: System)
    requires LogInv(s) && s.process.recovery.Idle?
    ensures var back := Recoverable(c, s.store.pending, s.history.submitted, s.nextSerial);
            var t := RunFrom(c, s, WholeRecovery(|s.store.pending|));
            && t.process == s.process.(queue := s.process.queue + back, recovered := s.process.recovered + |back|)
            && t.store == s.store && t.net == s.net && t.history.submitted == s.history.submitted
  {
    var n, listed := |s.store.pending|, RecoverListStep(s);
    assert ListedAreStored(listed);
    hide LogInv, Recoverable, ListedAreStored;
    ReadingsRead(c, listed, n);
    WholeRecoverySteps(c, s, n);
    var t := RunFrom(c, listed, Readings(n));
    AllReadIsRecoverable(c, s.store.pending, t.process.recovery.read, s.history.submitted, s.nextSerial);
    hide RunFrom, Requeued, Readings;
  }

  /**
   A recovery that is not interrupted re-enqueues exactly the pending writes that have a
   category and a handler, behind what is queued already and in list order.
   */
  lemma RecoveryRequeuesPending(c: Config, steps: seq<Step>)
    requires Run(c, steps).process.recovery.Idle?
    ensures var s := Run(c, steps);
            var t := RunFrom(c, s, WholeRecovery(|s.store.pending|));
            && t.process.queue == s.process.queue + Recoverable(c, s.store.pending, s.history.submitted, s.nextSerial)
            && t.process.recovery.Idle? && t.store == s.store && t.net == s.net
  {
    RunKeepsLog(c, steps);
    hide LogInv, Run, RunFrom;
    WholeRecoveryFrom(c, Run(c, steps));
  }

  lemma WholeRecoverySteps(c: Config, s: System, n: nat)
    ensures RunFrom(c, s, WholeRecovery(n)) == Next(c, RunFrom(c, Next(c, s, RecoverList), Readings(n)), RecoverFinish)
  {
    assert WholeRecovery(n)[..n + 1] == [RecoverList] + Readings(n);
    RunContinues(c, s, [RecoverList], Readings(n));
    assert [RecoverList][..0] == [];
    assert RunFrom(c, s, []) == s;
    hide Next;
  }

  /** The entry at position `i` of the list is one that a recovery puts back when it reads it. */
  predicate IsHandled(c: Config, data: Option<Data>) {
    data.Some? && data.value.category != "" && data.value.category in c.handlers
  }

  /** How many of the first `i` entries read are put back. */
  function HandledBefore(c: Config, read: seq<Option<Data>>, i: nat): nat
    requires i <= |read|
  {
    if i == 0 then 0 else HandledBefore(c, read, i - 1) + if IsHandled(c, read[i - 1]) then 1 else 0
  }

  lemma {:induction false} RequeuedAt(c: Config, ids: seq<nat>, read: seq<Option<Data>>, serial: nat, i: nat)
    requires |read| <= |ids| && i < |read| && IsHandled(c, read[i])
    ensures |Requeued(c, ids, read, serial)| == HandledBefore(c, read, |read|)
    ensures HandledBefore(c, read, i) < |Requeued(c, ids, read, serial)|
    ensures var e := Requeued(c, ids, read, serial)[HandledBefore(c, read, i)];
            e.write == ids[i] && e.walId == Some(ids[i])
  {
    var front := read[..|read| - 1];
    RequeuedCount(c, ids, front, serial);
    HandledOfFront(c, read, |front|);
    if i < |front| {
      RequeuedAt(c, ids, front, serial, i);
      HandledOfFront(c, read, i);
    }
  }

  lemma {:induction false} RequeuedCount(c: Config, ids: seq<nat>, read: seq<Option<Data>>, serial: nat)
    requires |read| <= |ids|
    ensures |Requeued(c, ids, read, serial)| == HandledBefore(c, read, |read|)
  {
    if read != [] {
      RequeuedCount(c, ids, read[..|read| - 1], serial);
      HandledOfFront(c, read, |read| - 1);
    }
  }

  lemma {:induction false} HandledOfFront(c: Config, read: seq<Option<Data>>, i: nat)
    requires i < |read|
    ensures HandledBefore(c, read[..|read| - 1], i) == HandledBefore(c, read, i)
  {
    if i > 0 { HandledOfFront(c, read, i - 1); }
  }

  lemma {:induction false} HandledGrows(c: Config, read: seq<Option<Data>>, i: nat, k: nat)
    requires i < k <= |read| && IsHandled(c, read[i])
    ensures HandledBefore(c, read, i) < HandledBefore(c, read, k)
  {
    if i < k - 1 { HandledGrows(c, read, i, k - 1); }
  }

  /**
   A write that the recovery which is about to finish puts back: still pending, not misread by this
   recovery, and handled.
   */
  ghost predicate ComesBack(c: Config, s: System, i: nat) {
    && s.process.recovery.Reading? && i < |s.process.recovery.ids|
    && var id := s.process.recovery.ids[i];
    && id in s.store.pending && i !in s.history.misread
    && id in s.history.submitted && IsHandled(c, Some(s.history.submitted[id]))
  }

  /**
   However it is interleaved with anything, earlier recoveries that failed to read included:
   when a recovery finishes, every write it listed that is still pending, that it could read
   itself, and that has a category and a handler is re-enqueued, and in list order.
   */
  lemma InterleavedRecovery(c: Config, steps: seq<Step>)
    requires var r := Run(c, steps).process.recovery; r.Reading? && |r.read| == |r.ids|
    ensures var s := Run(c, steps);
            var ids, read, base := s.process.recovery.ids, s.process.recovery.read, |s.process.queue|;
            var queue := RecoverFinishStep(c, s).process.queue;
            && (forall i: nat | ComesBack(c, s, i) ::
                  var j := base + HandledBefore(c, read, i);
                  base <= j < |queue| && queue[j].write == ids[i] && queue[j].walId == Some(ids[i]))
            && (forall i: nat, k: nat | ComesBack(c, s, i) && ComesBack(c, s, k) && i < k ::
                  HandledBefore(c, read, i) < HandledBefore(c, read, k))
  {
    RunKeepsLog(c, steps);
    var s := Run(c, steps);
    var r := s.process.recovery;
    forall i: nat | ComesBack(c, s, i) ensures IsHandled(c, r.read[i]) { assert r.read[i].Some?; }
    hide Run, LogInv, NetOk, StoreOk, EntriesOk, RecoveryOk, ComesBack, IsHandled, Requeued, HandledBefore;
    forall i: nat | ComesBack(c, s, i)
      ensures i < |r.read| && HandledBefore(c, r.read, i) < |Requeued(c, r.ids, r.read, s.nextSerial)|
      ensures var e := Requeued(c, r.ids, r.read, s.nextSerial)[HandledBefore(c, r.read, i)];
              e.write == r.ids[i] && e.walId == Some(r.ids[i])
    {
      ComesBackListed(c, s, i);
      RequeuedAt(c, r.ids, r.read, s.nextSerial, i);
    }
    forall i: nat, k: nat | ComesBack(c, s, i) && ComesBack(c, s, k) && i < k
      ensures HandledBefore(c, r.read, i) < HandledBefore(c, r.read, k)
    {
      ComesBackListed(c, s, k);
      HandledGrows(c, r.read, i, k);
    }
  }

  lemma ComesBackListed(c: Config, s: System, i: nat)
    requires ComesBack(c, s, i)
    ensures s.process.recovery.Reading? && i < |s.process.recovery.ids|
  {
  }
}
