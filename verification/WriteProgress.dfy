/**
 Bookkeeping and progress of the write queue: conservation of entries under interleaving,
 retries, the order in which entries are attempted, and draining by repeated flushes.
 */
module WriteProgress {
  import opened Basics
  import opened WritePipeline
  import opened WriteSafety

  // ----- conservation and retries -----

  /** The entries a running flush still has to run. */
  function InFlight(p: Process): seq<Entry> {
    if p.frames == [] then [] else p.frames[0].batch
  }

  function Live(p: Process): seq<Entry> {
    InFlight(p) + p.queue
  }

  function Attempts(c: Config): nat {
    Max(0, c.maxRetries) + 1
  }

  /** At most one flush runs, and exactly while the flag is set. */
  ghost predicate OneFlush(p: Process) {
    |p.frames| <= 1 && (p.flushing <==> |p.frames| == 1) && forall k | 0 <= k < |p.frames| :: p.frames[k].batch != []
  }

  /** Everything taken in is flushed, failed, queued or in the batch being run. */
  ghost predicate Conserved(p: Process) {
    p.enqueued + p.recovered == p.flushed + p.failed + |p.queue|
      + if p.frames == [] then 0 else |p.frames[0].batch| + p.frames[0].flushed + p.frames[0].failed
  }

  ghost predicate DistinctSerials(list: seq<Entry>) {
    forall i, j | 0 <= i < j < |list| :: list[i].serial != list[j].serial
  }

  /** The retry count of a live entry is its number of failed attempts, and it has attempts left. */
  ghost predicate Counted(c: Config, e: Entry, nextSerial: nat, h: History) {
    e.serial < nextSerial && e.serial in h.tries && h.tries[e.serial] == e.retryCount < Attempts(c)
      && e.serial !in h.exhausted
  }

  ghost predicate AllCounted(c: Config, live: seq<Entry>, nextSerial: nat, h: History) {
    forall i | 0 <= i < |live| :: Counted(c, live[i], nextSerial, h)
  }

  /** An entry that counts as failed had its last attempt. */
  ghost predicate ExhaustedOk(c: Config, nextSerial: nat, h: History) {
    forall n | n in h.exhausted :: n < nextSerial && n in h.tries && h.tries[n] == Attempts(c)
  }

  ghost predicate TriesOk(c: Config, live: seq<Entry>, nextSerial: nat, h: History) {
    DistinctSerials(live) && AllCounted(c, live, nextSerial, h) && ExhaustedOk(c, nextSerial, h)
  }

  ghost predicate QueueInv(c: Config, s: System) {
    OneFlush(s.process) && Conserved(s.process) && TriesOk(c, Live(s.process), s.nextSerial, s.history)
  }

  lemma StartFlushKeepsQueue(c: Config, s: System)
    requires QueueInv(c, s)
    ensures QueueInv(c, StartFlush(c, s))
  {
    var t := StartFlush(c, s);
    assert Live(t.process) == Live(s.process);
  }

  lemma EnqueueKeepsQueue(c: Config, s: System, data: Data, logReady: bool)
    requires QueueInv(c, s)
    ensures QueueInv(c, EnqueueStep(c, s, data, logReady))
  {
    var t := Queued(s, data, logReady);
    var entry := t.process.queue[|s.process.queue|];
    assert Live(t.process) == Live(s.process) + [entry];
    StartFlushKeepsQueue(c, t);
  }

  lemma SettleKeepsQueue(c: Config, s: System, k: nat, ok: bool)
    requires QueueInv(c, s)
    ensures QueueInv(c, SettleStep(c, s, k, ok))
  {
    if k < |s.process.frames| && s.process.frames[k].batch != [] {
      SettledFrame(c, s, ok);
      SettledTries(c, s, ok);
      hide TriesOk, OneFlush, Conserved, SettleStep;
    }
  }

  lemma SettledTries(c: Config, s: System, ok: bool)
    requires |s.process.frames| == 1 && s.process.frames[0].batch != []
    requires TriesOk(c, Live(s.process), s.nextSerial, s.history)
    ensures var t := SettleStep(c, s, 0, ok);
            TriesOk(c, Live(t.process), t.nextSerial, t.history)
  {
    hide TriesOk, SettleStep, Live;
    SettledHistory(c, s, ok);
    SettledLive(c, s, ok);
    HeadHasTries(c, Live(s.process), s.nextSerial, s.history);
    TriesAfter(c, Live(s.process), s.nextSerial, s.history, SettleStep(c, s, 0, ok).history, ok);
  }

  lemma HeadHasTries(c: Config, live: seq<Entry>, nextSerial: nat, h: History)
    requires live != [] && TriesOk(c, live, nextSerial, h)
    ensures live[0].serial in h.tries
  {
  }

  lemma TriesAfter(c: Config, live: seq<Entry>, nextSerial: nat, h: History, h': History, ok: bool)
    requires live != [] && TriesOk(c, live, nextSerial, h) && live[0].serial in h.tries
    requires h'.tries == if ok then h.tries else h.tries[live[0].serial := h.tries[live[0].serial] + 1]
    requires h'.exhausted == if ok || live[0].retryCount + 1 <= c.maxRetries then h.exhausted
                             else h.exhausted[live[0].serial := live[0].write]
    ensures var again := if !ok && live[0].retryCount + 1 <= c.maxRetries then
            [live[0].(retryCount := live[0].retryCount + 1)] else [];
            TriesOk(c, live[1..] + again, nextSerial, h')
  {
    if ok {
      DroppedTries(c, live, nextSerial, h, h', false);
    } else if live[0].retryCount + 1 <= c.maxRetries {
      RetriedTries(c, live, nextSerial, h, h');
    } else {
      DroppedTries(c, live, nextSerial, h, h', true);
    }
    hide TriesOk;
  }

  lemma SettledFrame(c: Config, s: System, ok: bool)
    requires |s.process.frames| == 1 && s.process.frames[0].batch != []
    requires OneFlush(s.process) && Conserved(s.process)
    ensures var t := SettleStep(c, s, 0, ok);
            OneFlush(t.process) && Conserved(t.process)
  {
    var p := s.process;
    assert p.frames == [p.frames[0]];
  }

  lemma SettledHistory(c: Config, s: System, ok: bool)
    requires |s.process.frames| == 1 && s.process.frames[0].batch != []
    ensures var t, e, h := SettleStep(c, s, 0, ok), s.process.frames[0].batch[0], s.history;
            && t.nextSerial == s.nextSerial && t.nextWrite == s.nextWrite && t.history.putBack == h.putBack
            && t.history.exhausted
               == (if ok || e.retryCount + 1 <= c.maxRetries then h.exhausted else h.exhausted[e.serial := e.write])
            && t.history.tries == (if ok then h.tries
               else if e.serial in h.tries then h.tries[e.serial := h.tries[e.serial] + 1] else h.tries[e.serial := 1])
            && t.history.succeeded == (if ok then h.succeeded + {e.write} else h.succeeded)
  {
  }

  lemma SettledLive(c: Config, s: System, ok: bool)
    requires |s.process.frames| == 1 && s.process.frames[0].batch != []
    ensures var live, e := Live(s.process), s.process.frames[0].batch[0];
            && live != [] && live[0] == e
            && Live(SettleStep(c, s, 0, ok).process)
               == live[1..] + (if !ok && e.retryCount + 1 <= c.maxRetries then [e.(retryCount := e.retryCount + 1)]
                 else [])
  {
    var p, t := s.process, SettleStep(c, s, 0, ok);
    var f := p.frames[0];
    assert Live(p)[0] == f.batch[0] && Live(p)[1..] == f.batch[1..] + p.queue;
    assert t.process.frames == if f.batch[1..] == [] then [] else [t.process.frames[0]];
    assert InFlight(t.process) == f.batch[1..];
  }

  lemma DroppedTries(c: Config, live: seq<Entry>, nextSerial: nat, h: History, h': History, exhausted: bool)
    requires live != [] && TriesOk(c, live, nextSerial, h)
    requires if exhausted then live[0].retryCount + 1 > c.maxRetries
             && h'.tries == h.tries[live[0].serial := h.tries[live[0].serial] + 1]
                               && h'.exhausted == h.exhausted[live[0].serial := live[0].write]
             else h'.tries == h.tries && h'.exhausted == h.exhausted
    ensures TriesOk(c, live[1..] + [], nextSerial, h')
  {
  }

  lemma RetriedTries(c: Config, live: seq<Entry>, nextSerial: nat, h: History, h': History)
    requires live != [] && TriesOk(c, live, nextSerial, h) && live[0].retryCount + 1 <= c.maxRetries
    requires h'.tries == h.tries[live[0].serial := h.tries[live[0].serial] + 1] && h'.exhausted == h.exhausted
    ensures TriesOk(c, live[1..] + [live[0].(retryCount := live[0].retryCount + 1)], nextSerial, h')
  {
  }

  lemma ResolveKeepsQueue(c: Config, s: System, id: nat)
    requires QueueInv(c, s)
    ensures QueueInv(c, ResolveStep(s, id))
  {
    var t := ResolveStep(s, id);
    var a, b := Live(s.process), Live(t.process);
    assert |a| == |b| && forall i | 0 <= i < |a| :: b[i].serial == a[i].serial && b[i].retryCount == a[i].retryCount;
  }

  lemma {:induction false} RequeuedSerials(c: Config, ids: seq<nat>, read: seq<Option<Data>>, serial: nat)
    requires |read| <= |ids|
    ensures forall i | 0 <= i < |Requeued(c, ids, read, serial)| ::
              Requeued(c, ids, read, serial)[i].serial == serial + i
                && Requeued(c, ids, read, serial)[i].retryCount == 0
  {
    if read != [] {
      var front := Requeued(c, ids, read[..|read| - 1], serial);
      RequeuedSerials(c, ids, read[..|read| - 1], serial);
      var back := Requeued(c, ids, read, serial);
      assert back == front || (|back| == |front| + 1 && back[..|front|] == front);
    }
  }

  lemma {:induction false} NewTriesFacts(entries: seq<Entry>, tries: map<nat, nat>, serial: nat)
    requires forall i | 0 <= i < |entries| :: entries[i].serial == serial + i
    ensures forall n | n in tries && n < serial ::
            n in NewTries(entries, tries) && NewTries(entries, tries)[n] == tries[n]
    ensures forall i | 0 <= i < |entries| ::
            entries[i].serial in NewTries(entries, tries) && NewTries(entries, tries)[entries[i].serial] == 0
  {
    if entries != [] { NewTriesFacts(entries[..|entries| - 1], tries, serial); }
  }

  lemma RecoveredTries(c: Config, live: seq<Entry>, back: seq<Entry>, nextSerial: nat, h: History, h': History)
    requires TriesOk(c, live, nextSerial, h)
    requires forall i | 0 <= i < |back| :: back[i].serial == nextSerial + i && back[i].retryCount == 0
    requires h'.exhausted == h.exhausted && h'.tries == NewTries(back, h.tries)
    ensures TriesOk(c, live + back, nextSerial + |back|, h')
  {
    NewTriesFacts(back, h.tries, nextSerial);
    assert ExhaustedOk(c, nextSerial + |back|, h') && ExhaustedBelow(h, nextSerial);
    hide NewTries, DistinctSerials, ExhaustedOk;
    LiveStayCounted(c, live, nextSerial, |back|, h, h');
    NewAreCounted(c, back, nextSerial, h, h');
    hide Counted;
    AppendedDistinct(live, back, nextSerial);
  }

  lemma LiveStayCounted(c: Config, live: seq<Entry>, nextSerial: nat, more: nat, h: History, h': History)
    requires AllCounted(c, live, nextSerial, h) && h'.exhausted == h.exhausted
    requires forall n | n in h.tries && n < nextSerial :: n in h'.tries && h'.tries[n] == h.tries[n]
    ensures AllCounted(c, live, nextSerial + more, h') && forall i | 0 <= i < |live| :: live[i].serial < nextSerial
  {
    forall i | 0 <= i < |live| ensures Counted(c, live[i], nextSerial + more, h') && live[i].serial < nextSerial {
      assert Counted(c, live[i], nextSerial, h);
    }
  }

  lemma NewAreCounted(c: Config, back: seq<Entry>, nextSerial: nat, h: History, h': History)
    requires ExhaustedBelow(h, nextSerial) && h'.exhausted == h.exhausted
    requires forall i | 0 <= i < |back| :: back[i].serial == nextSerial + i && back[i].retryCount == 0
    requires forall i | 0 <= i < |back| :: back[i].serial in h'.tries && h'.tries[back[i].serial] == 0
    ensures AllCounted(c, back, nextSerial + |back|, h')
  {
  }

  ghost predicate ExhaustedBelow(h: History, nextSerial: nat) {
    forall n | n in h.exhausted :: n < nextSerial
  }

  lemma AppendedDistinct(live: seq<Entry>, back: seq<Entry>, nextSerial: nat)
    requires DistinctSerials(live) && forall i | 0 <= i < |live| :: live[i].serial < nextSerial
    requires forall i | 0 <= i < |back| :: back[i].serial == nextSerial + i
    ensures DistinctSerials(live + back)
  {
  }

  lemma RecoverFinishKeepsQueue(c: Config, s: System)
    requires QueueInv(c, s)
    ensures QueueInv(c, RecoverFinishStep(c, s))
  {
    if s.process.recovery.Reading? && |s.process.recovery.read| == |s.process.recovery.ids| {
      var back := Requeued(c, s.process.recovery.ids, s.process.recovery.read, s.nextSerial);
      RequeuedSerials(c, s.process.recovery.ids, s.process.recovery.read, s.nextSerial);
      hide Requeued;
      BackKeepsQueue(c, s, RecoverFinishStep(c, s), back);
    }
  }

  lemma BackProcess(p: Process, q: Process, back: seq<Entry>)
    requires q == p.(queue := p.queue + back, recovery := Idle, recovered := p.recovered + |back|)
    ensures Live(q) == Live(p) + back
    ensures (OneFlush(p) ==> OneFlush(q)) && (Conserved(p) ==> Conserved(q))
  {
  }

  lemma BackKeepsQueue(c: Config, s: System, t: System, back: seq<Entry>)
    requires QueueInv(c, s)
    requires forall i | 0 <= i < |back| :: back[i].serial == s.nextSerial + i && back[i].retryCount == 0
    requires t.process == s.process.(queue := s.process.queue + back, recovery := Idle,
             recovered := s.process.recovered + |back|)
    requires t.nextSerial == s.nextSerial + |back| && t.history.tries == NewTries(back, s.history.tries)
    requires t.history.exhausted == s.history.exhausted
    ensures QueueInv(c, t)
  {
    hide OneFlush, Conserved, Live, TriesOk, NewTries;
    BackProcess(s.process, t.process, back);
    RecoveredTries(c, Live(s.process), back, s.nextSerial, s.history, t.history);
  }

  lemma StepKeepsQueue(c: Config, s: System, step: Step)
    requires QueueInv(c, s)
    ensures QueueInv(c, Next(c, s, step))
  {
    hide QueueInv, StartFlush, EnqueueStep, SettleStep, ResolveStep, RecoverFinishStep;
    match step
    case Enqueue(data, logReady) => EnqueueKeepsQueue(c, s, data, logReady);
    case Flush => StartFlushKeepsQueue(c, s);
    case Settle(k, ok) => SettleKeepsQueue(c, s, k, ok);
    case Resolve(id) => ResolveKeepsQueue(c, s, id);
    case RecoverFinish => RecoverFinishKeepsQueue(c, s);
    case _ => OtherKeepsQueue(c, s, Next(c, s, step));
  }

  lemma OtherKeepsQueue(c: Config, s: System, t: System)
    requires QueueInv(c, s) && t.nextSerial == s.nextSerial
    requires t.history.tries == s.history.tries && t.history.exhausted == s.history.exhausted
    requires t.process == FRESH_PROCESS || t.process == s.process.(recovery := t.process.recovery)
    ensures QueueInv(c, t)
  {
  }

  /**
   In every reachable state at most one flush runs; everything enqueued or recovered is
   flushed, failed, queued or in the running batch; and an entry counts as failed exactly
   after its last allowed attempt failed.
   */
  lemma {:induction false} RunKeepsQueue(c: Config, steps: seq<Step>)
    ensures QueueInv(c, Run(c, steps))
  {
    hide QueueInv;
    if steps == [] {
      assert QueueInv(c, START) by { StartQueue(c); }
    } else {
      RunKeepsQueue(c, steps[..|steps| - 1]);
      StepKeepsQueue(c, Run(c, steps[..|steps| - 1]), steps[|steps| - 1]);
    }
  }

  lemma StartQueue(c: Config)
    ensures QueueInv(c, START)
  {
  }

  /** Between flushes nothing is unaccounted for. */
  lemma QuiescentConservation(c: Config, steps: seq<Step>)
    requires !Run(c, steps).process.flushing
    ensures var p := Run(c, steps).process;
            p.enqueued + p.recovered == p.flushed + p.failed + |p.queue|
  {
    RunKeepsQueue(c, steps);
  }

  lemma FailedAfterAllAttempts(c: Config, steps: seq<Step>, serial: nat)
    requires serial in Run(c, steps).history.exhausted
    ensures var h := Run(c, steps).history;
            serial in h.tries && h.tries[serial] == Max(0, c.maxRetries) + 1
  {
    RunKeepsQueue(c, steps);
  }

  /** What has been flushed and has failed, with what the running flush has counted so far. */
  function Flushed(p: Process): nat {
    p.flushed + if p.frames == [] then 0 else p.frames[0].flushed
  }

  function Failed(p: Process): nat {
    p.failed + if p.frames == [] then 0 else p.frames[0].failed
  }

  /** The step ends the operation of the first entry of a running batch. */
  ghost predicate Ends(s: System, step: Step) {
    step.Settle? && step.frame < |s.process.frames| && s.process.frames[step.frame].batch != []
  }

  /**
   What the counters count: submissions, successes, failed last attempts and entries put back by
   recoveries, each at its own step and nothing else.
   */
  lemma CountersTell(c: Config, steps: seq<Step>, step: Step)
    requires !step.Crash?
    ensures var s := Run(c, steps);
            var p, t := s.process, Next(c, s, step).process;
            && t.enqueued == p.enqueued + (if step.Enqueue? then 1 else 0)
            && Flushed(t) == Flushed(p) + (if Ends(s, step) && step.ok then 1 else 0)
            && Failed(t) == Failed(p)
               + (if Ends(s, step) && !step.ok
                 && p.frames[step.frame].batch[0].retryCount >= c.maxRetries then 1 else 0)
            && t.recovered == p.recovered + (if step.RecoverFinish? then |t.queue| - |p.queue| else 0)
  {
    RunKeepsQueue(c, steps);
    assert OneFlush(Run(c, steps).process);
    hide Run, QueueInv;
    StepCounts(c, Run(c, steps), step);
  }

  lemma StepCounts(c: Config, s: System, step: Step)
    requires OneFlush(s.process) && !step.Crash?
    ensures var p, t := s.process, Next(c, s, step).process;
            && t.enqueued == p.enqueued + (if step.Enqueue? then 1 else 0)
            && Flushed(t) == Flushed(p) + (if Ends(s, step) && step.ok then 1 else 0)
            && Failed(t) == Failed(p)
               + (if Ends(s, step) && !step.ok
                 && p.frames[step.frame].batch[0].retryCount >= c.maxRetries then 1 else 0)
            && t.recovered == p.recovered + (if step.RecoverFinish? then |t.queue| - |p.queue| else 0)
  {
    match step
    case Enqueue(data, logReady) => StartCounts(c, Queued(s, data, logReady));
    case Flush => StartCounts(c, s);
    case Settle(k, ok) => if Ends(s, step) { SettleCounts(c, s.process, ok); }
    case _ => SameCounts(c, s, step);
  }

  lemma StartCounts(c: Config, s: System)
    requires OneFlush(s.process)
    ensures var p, t := s.process, StartFlush(c, s).process;
            Flushed(t) == Flushed(p) && Failed(t) == Failed(p) && t.enqueued == p.enqueued && t.recovered == p.recovered
  {
  }

  lemma SettleCounts(c: Config, p: Process, ok: bool)
    requires |p.frames| == 1 && p.frames[0].batch != []
    ensures var t := Settled(c, p, 0, ok);
            && t.enqueued == p.enqueued && t.recovered == p.recovered
            && Flushed(t) == Flushed(p) + (if ok then 1 else 0)
            && Failed(t) == Failed(p) + (if !ok && p.frames[0].batch[0].retryCount >= c.maxRetries then 1 else 0)
  {
  }

  lemma SameCounts(c: Config, s: System, step: Step)
    requires !step.Enqueue? && !step.Flush? && !step.Settle? && !step.Crash?
    ensures var p, t := s.process, Next(c, s, step).process;
            && Flushed(t) == Flushed(p) && Failed(t) == Failed(p) && t.enqueued == p.enqueued
            && t.recovered == p.recovered + (if step.RecoverFinish? then |t.queue| - |p.queue| else 0)
  {
    hide Requeued;
  }

  /**
   When an enqueue starts a flush: exactly when none is running and the batch is full; its batch
   are then the oldest entries, as many as a batch holds, in order.
   */
  lemma FullBatchIsFlushed(c: Config, steps: seq<Step>, data: Data, logReady: bool)
    requires !Run(c, steps).process.flushing
    ensures var s := Run(c, steps);
            var t, all := Next(c, s, Enqueue(data, logReady)).process, |s.process.queue| + 1;
            && (t.flushing <==> c.maxBatchSize >= 1 && all >= c.maxBatchSize)
            && (t.flushing ==> t.frames[0].batch + t.queue == s.process.queue + [NewestOf(s, data)]
                               && |t.frames[0].batch| == c.maxBatchSize)
            && (!t.flushing ==> t.queue == s.process.queue + [NewestOf(s, data)])
  {
    RunKeepsQueue(c, steps);
    assert OneFlush(Run(c, steps).process);
    hide Run, QueueInv;
  }

  function NewestOf(s: System, data: Data): Entry {
    Entry(s.nextSerial, s.nextWrite, data.category, 0, None)
  }

  // ----- who is attempted when -----

  /**
   Entry `serial` was at position `p` when `base` effective flushes had started: it has moved
   up by one batch for each further one, or has been taken into a batch.
   */
  ghost predicate MovedUp(c: Config, s: System, serial: nat, p: nat, base: nat)
    requires c.maxBatchSize >= 1
  {
    var moved := (s.history.flushes - base) * c.maxBatchSize;
    && s.history.flushes >= base
    && (moved <= p ==> p - moved < |s.process.queue| && s.process.queue[p - moved].serial == serial)
  }

  /** The entry is in the batch of the flush that started last. */
  ghost predicate TakenUp(p: Process, serial: nat) {
    p.frames != [] && var batch := p.frames[|p.frames| - 1].batch;
       exists i :: 0 <= i < |batch| && batch[i].serial == serial
  }

  lemma MovedUpStep(c: Config, s: System, step: Step, serial: nat, p: nat, base: nat)
    requires c.maxBatchSize >= 1 && !step.Crash?
    requires MovedUp(c, s, serial, p, base)
    ensures MovedUp(c, Next(c, s, step), serial, p, base)
    ensures var t, n := Next(c, s, step), s.history.flushes - base;
            n * c.maxBatchSize <= p < (n + 1) * c.maxBatchSize && t.history.flushes > s.history.flushes ==>
              TakenUp(t.process, serial)
  {
    match step
    case Enqueue(data, logReady) =>
      var q := Queued(s, data, logReady);
      assert MovedUp(c, q, serial, p, base);
      if |q.process.queue| >= c.maxBatchSize { StartMovesUp(c, q, serial, p, base); }
    case Flush => StartMovesUp(c, s, serial, p, base);
    case _ =>
  }

  lemma StartMovesUp(c: Config, s: System, serial: nat, p: nat, base: nat)
    requires c.maxBatchSize >= 1 && MovedUp(c, s, serial, p, base)
    ensures MovedUp(c, StartFlush(c, s), serial, p, base)
    ensures var t, n := StartFlush(c, s), s.history.flushes - base;
            n * c.maxBatchSize <= p < (n + 1) * c.maxBatchSize && t.history.flushes > s.history.flushes ==>
              TakenUp(t.process, serial)
  {
    var t, n := StartFlush(c, s), s.history.flushes - base;
    assert (n + 1) * c.maxBatchSize == n * c.maxBatchSize + c.maxBatchSize;
    if t.history.flushes > s.history.flushes {
      var size := BatchSize(c, |s.process.queue|);
      var at := p - n * c.maxBatchSize;
      if 0 <= at < c.maxBatchSize {
        var f := t.process.frames[|t.process.frames| - 1];
        assert f.batch == s.process.queue[..size] && at < size;
        assert f.batch[at].serial == serial;
        assert TakenUp(t.process, serial);
      }
    }
  }

  lemma StartsMoving(c: Config, s: System, p: nat)
    requires c.maxBatchSize >= 1 && p < |s.process.queue|
    ensures MovedUp(c, s, s.process.queue[p].serial, p, s.history.flushes)
  {
  }

  /**
   An entry at position `p` waits for exactly p / maxBatchSize effective flushes, whatever is
   enqueued, recovered or retried behind it: until then it only moves up, and the next
   effective flush takes it into its batch.
   */
  lemma {:induction false} AttemptedInTurn(c: Config, s: System, steps: seq<Step>, p: nat)
    requires c.maxBatchSize >= 1 && p < |s.process.queue|
    requires forall i | 0 <= i < |steps| :: !steps[i].Crash?
    ensures MovedUp(c, RunFrom(c, s, steps), s.process.queue[p].serial, p, s.history.flushes)
    ensures forall step: Step | !step.Crash? ::
              var before, after := RunFrom(c, s, steps), Next(c, RunFrom(c, s, steps), step);
              before.history.flushes - s.history.flushes == p / c.maxBatchSize
                && after.history.flushes > before.history.flushes ==>
                TakenUp(after.process, s.process.queue[p].serial)
  {
    hide Next, MovedUp, TakenUp;
    var serial, base := s.process.queue[p].serial, s.history.flushes;
    assert MovedUp(c, s, serial, p, base) by { StartsMoving(c, s, p); }
    if steps != [] {
      AttemptedInTurn(c, s, steps[..|steps| - 1], p);
      MovedUpStep(c, RunFrom(c, s, steps[..|steps| - 1]), steps[|steps| - 1], serial, p, base);
    }
    var before, n := RunFrom(c, s, steps), p / c.maxBatchSize;
    assert n * c.maxBatchSize <= p < (n + 1) * c.maxBatchSize by { QuotientBounds(p, c.maxBatchSize); }
    forall step: Step | !step.Crash?
      ensures before.history.flushes - base == n && Next(c, before, step).history.flushes > before.history.flushes ==>
                TakenUp(Next(c, before, step).process, serial)
    {
      MovedUpStep(c, before, step, serial, p, base);
    }
  }

  lemma QuotientBounds(p: nat, b: int)
    requires b >= 1
    ensures p / b * b <= p < (p / b + 1) * b
  {
    assert p == p / b * b + p % b;
    assert (p / b + 1) * b == p / b * b + b;
  }

  // ----- draining -----

  /** The entries of a batch that go back into the queue; `ok` tells which operations succeed. */
  function Retried(c: Config, batch: seq<Entry>, ok: nat -> bool): seq<Entry> {
    if batch == [] then []
    else
      var n := |batch| - 1;
      Retried(c, batch[..n], ok) + if !ok(n) && batch[n].retryCount + 1 <= c.maxRetries then [Retry(batch[n])] else []
  }

  /** The queue after one flush that nothing interrupts. */
  function AfterFlush(c: Config, queue: seq<Entry>, ok: nat -> bool): seq<Entry> {
    var n := BatchSize(c, |queue|);
    queue[n..] + Retried(c, queue[..n], ok)
  }

  function AfterFlushes(c: Config, queue: seq<Entry>, n: nat, oks: nat -> nat -> bool): seq<Entry> {
    if n == 0 then queue else AfterFlush(c, AfterFlushes(c, queue, n - 1, oks), oks(n - 1))
  }

  /** The attempts that are left, over all entries. */
  function Weight(c: Config, queue: seq<Entry>): int {
    if queue == [] then 0 else Weight(c, queue[..|queue| - 1]) + Attempts(c) - queue[|queue| - 1].retryCount
  }

  ghost predicate AttemptsLeft(c: Config, queue: seq<Entry>) {
    forall i | 0 <= i < |queue| :: queue[i].retryCount < Attempts(c)
  }

  lemma {:induction false} WeightConcat(c: Config, a: seq<Entry>, b: seq<Entry>)
    ensures Weight(c, a + b) == Weight(c, a) + Weight(c, b)
  {
    if b == [] {
      assert a + b == a;
    } else {
      WeightConcat(c, a, b[..|b| - 1]);
      assert (a + b)[..|a + b| - 1] == a + b[..|b| - 1];
    }
  }

  lemma {:induction false} WeightAtLeastLength(c: Config, queue: seq<Entry>)
    requires AttemptsLeft(c, queue)
    ensures Weight(c, queue) >= |queue|
  {
    if queue != [] { WeightAtLeastLength(c, queue[..|queue| - 1]); }
  }

  lemma WeightPush(c: Config, queue: seq<Entry>, e: Entry)
    ensures Weight(c, queue + [e]) == Weight(c, queue) + Attempts(c) - e.retryCount
  {
    assert (queue + [e])[..|queue|] == queue;
  }

  lemma {:induction false} RetriedAttemptsLeft(c: Config, batch: seq<Entry>, ok: nat -> bool)
    requires AttemptsLeft(c, batch)
    ensures AttemptsLeft(c, Retried(c, batch, ok))
  {
    if batch != [] { RetriedAttemptsLeft(c, batch[..|batch| - 1], ok); }
  }

  /** Every attempt, successful or not, uses up part of the weight. */
  lemma {:induction false} RetriedWeighsLess(c: Config, batch: seq<Entry>, ok: nat -> bool)
    requires AttemptsLeft(c, batch)
    ensures Weight(c, Retried(c, batch, ok)) <= Weight(c, batch) - |batch|
  {
    if batch != [] {
      var n := |batch| - 1;
      RetriedWeighsLess(c, batch[..n], ok);
      OneRetryWeighsLess(c, batch[..n], batch[n], Retried(c, batch[..n], ok),
        !ok(n) && batch[n].retryCount + 1 <= c.maxRetries);
      assert batch == batch[..n] + [batch[n]];
    }
  }

  lemma OneRetryWeighsLess(c: Config, batch: seq<Entry>, e: Entry, front: seq<Entry>, again: bool)
    requires Weight(c, front) <= Weight(c, batch) - |batch| && e.retryCount < Attempts(c)
    ensures Weight(c, front + (if again then [Retry(e)] else [])) <= Weight(c, batch + [e]) - |batch + [e]|
  {
    WeightPush(c, batch, e);
    WeightPush(c, front, Retry(e));
    assert front + [] == front;
    hide Weight;
  }

  lemma FlushWeighsLess(c: Config, queue: seq<Entry>, ok: nat -> bool)
    requires AttemptsLeft(c, queue)
    ensures AttemptsLeft(c, AfterFlush(c, queue, ok))
    ensures Weight(c, AfterFlush(c, queue, ok)) <= Weight(c, queue) - BatchSize(c, |queue|)
  {
    var n := BatchSize(c, |queue|);
    RetriedAttemptsLeft(c, queue[..n], ok);
    PartsWeighLess(c, queue[..n], queue[n..], Retried(c, queue[..n], ok), ok);
    assert queue[..n] + queue[n..] == queue;
  }

  lemma PartsWeighLess(c: Config, batch: seq<Entry>, rest: seq<Entry>, again: seq<Entry>, ok: nat -> bool)
    requires AttemptsLeft(c, batch) && again == Retried(c, batch, ok)
    ensures Weight(c, rest + again) <= Weight(c, batch + rest) - |batch|
  {
    hide Weight, Retried;
    RetriedWeighsLess(c, batch, ok);
    WeightConcat(c, batch, rest);
    WeightConcat(c, rest, again);
  }

  /** As many flushes as there are attempts left empty the queue. */
  lemma {:induction false} QueueDrains(c: Config, queue: seq<Entry>, n: nat, oks: nat -> nat -> bool)
    requires c.maxBatchSize >= 1 && AttemptsLeft(c, queue)
    ensures AttemptsLeft(c, AfterFlushes(c, queue, n, oks))
    ensures AfterFlushes(c, queue, n, oks) == [] || Weight(c, AfterFlushes(c, queue, n, oks)) <= Weight(c, queue) - n
    ensures n >= Weight(c, queue) ==> AfterFlushes(c, queue, n, oks) == []
  {
    if n > 0 {
      QueueDrains(c, queue, n - 1, oks);
      FlushWeighsLess(c, AfterFlushes(c, queue, n - 1, oks), oks(n - 1));
    }
    WeightAtLeastLength(c, AfterFlushes(c, queue, n, oks));
  }

  lemma {:induction false} ZeroBatchKeepsAll(c: Config, queue: seq<Entry>, n: nat, oks: nat -> nat -> bool)
    requires c.maxBatchSize <= 0
    ensures AfterFlushes(c, queue, n, oks) == queue
  {
    if n > 0 { ZeroBatchKeepsAll(c, queue, n - 1, oks); }
  }

  // ----- the uninterrupted flush is a run of the machine -----

  function Settles(n: nat, ok: nat -> bool): seq<Step> {
    if n == 0 then [] else Settles(n - 1, ok) + [Settle(0, ok(n - 1))]
  }

  /** The process after the first `j` operations of an uninterrupted flush of `q`, in batches of `n`. */
  ghost predicate MidFlush(c: Config, t: Process, q: seq<Entry>, n: nat, j: nat, ok: nat -> bool)
    requires j <= n <= |q|
  {
    && t.queue == q[n..] + Retried(c, q[..j], ok)
    && t.flushing == (j < n)
    && (if j < n then |t.frames| == 1 && t.frames[0].batch == q[j..n] else t.frames == [])
  }

  lemma MidFlushStart(c: Config, p: Process, ok: nat -> bool)
    requires OneFlush(p) && !p.flushing
    ensures MidFlush(c, Started(c, p), p.queue, BatchSize(c, |p.queue|), 0, ok)
  {
  }

  lemma MidFlushNext(c: Config, p: Process, q: seq<Entry>, n: nat, j: nat, ok: nat -> bool)
    requires j < n <= |q| && MidFlush(c, p, q, n, j, ok)
    ensures MidFlush(c, Settled(c, p, 0, ok(j)), q, n, j + 1, ok)
  {
    assert q[..j + 1][..j] == q[..j] && q[j..n][1..] == q[j + 1..n];
    SettleFirst(c, p, ok(j));
    var again := if !ok(j) && q[j].retryCount + 1 <= c.maxRetries then [Retry(q[j])] else [];
    assert q[n..] + Retried(c, q[..j], ok) + again == q[n..] + (Retried(c, q[..j], ok) + again);
    hide Settled;
  }

  lemma SettleOneMore(c: Config, s: System, j: nat, ok: nat -> bool)
    ensures RunFrom(c, s, Settles(j + 1, ok)) == SettleStep(c, RunFrom(c, s, Settles(j, ok)), 0, ok(j))
  {
    SettlesLength(j, ok);
    assert Settles(j + 1, ok)[..j] == Settles(j, ok);
    hide SettleStep;
  }

  lemma SettleNone(c: Config, s: System, ok: nat -> bool)
    ensures RunFrom(c, s, Settles(0, ok)) == s
  {
  }

  lemma {:induction false} MidFlushRun(c: Config, s: System, j: nat, ok: nat -> bool)
    requires OneFlush(s.process) && !s.process.flushing && j <= BatchSize(c, |s.process.queue|)
    ensures MidFlush(c, RunFrom(c, StartFlush(c, s), Settles(j, ok)).process, s.process.queue,
            BatchSize(c, |s.process.queue|), j, ok)
  {
    hide MidFlush, StartFlush, SettleStep, RunFrom, Settles;
    var n := BatchSize(c, |s.process.queue|);
    if j == 0 {
      SettleNone(c, StartFlush(c, s), ok);
      StartedProcess(c, s);
      MidFlushStart(c, s.process, ok);
    } else {
      MidFlushRun(c, s, j - 1, ok);
      SettleOneMore(c, StartFlush(c, s), j - 1, ok);
      assert n <= |s.process.queue|;
      var u := RunFrom(c, StartFlush(c, s), Settles(j - 1, ok));
      SettledProcess(c, u, s.process.queue, n, j - 1, ok);
      MidFlushNext(c, u.process, s.process.queue, n, j - 1, ok);
    }
  }

  lemma {:induction false} SettlesLength(n: nat, ok: nat -> bool)
    ensures |Settles(n, ok)| == n
  {
    if n > 0 { SettlesLength(n - 1, ok); }
  }

  lemma SettleFirst(c: Config, p: Process, ok: bool)
    requires |p.frames| == 1 && p.frames[0].batch != []
    ensures var t, e, rest := Settled(c, p, 0, ok), p.frames[0].batch[0], p.frames[0].batch[1..];
            && t.queue == p.queue + (if !ok && e.retryCount + 1 <= c.maxRetries then [Retry(e)] else [])
            && (if rest == [] then t.frames == [] && !t.flushing
                else |t.frames| == 1 && t.frames[0].batch == rest && t.flushing == p.flushing)
  {
  }

  lemma StartedProcess(c: Config, s: System)
    ensures StartFlush(c, s).process == Started(c, s.process)
  {
  }

  lemma SettledProcess(c: Config, s: System, q: seq<Entry>, n: nat, j: nat, ok: nat -> bool)
    requires j < n <= |q| && MidFlush(c, s.process, q, n, j, ok)
    ensures SettleStep(c, s, 0, ok(j)).process == Settled(c, s.process, 0, ok(j))
  {
  }

  /** So the queue after a flush and the settling of its whole batch is the one computed in one go. */
  lemma UninterruptedFlush(c: Config, s: System, ok: nat -> bool)
    requires OneFlush(s.process) && !s.process.flushing
    ensures var t := RunFrom(c, Next(c, s, Flush), Settles(BatchSize(c, |s.process.queue|), ok)).process;
            t.queue == AfterFlush(c, s.process.queue, ok) && !t.flushing && t.frames == []
  {
    MidFlushRun(c, s, BatchSize(c, |s.process.queue|), ok);
  }

  /** Whole flushes one after another, with nothing in between; `oks` tells which operations of which flush succeed. */
  function Rounds(c: Config, queue: seq<Entry>, n: nat, oks: nat -> nat -> bool): seq<Step> {
    if n == 0 then []
    else
      Rounds(c, queue, n - 1, oks)
      + ([Flush] + Settles(BatchSize(c, |AfterFlushes(c, queue, n - 1, oks)|), oks(n - 1)))
  }

  lemma WholeFlush(c: Config, s: System, ok: nat -> bool)
    requires OneFlush(s.process) && !s.process.flushing
    ensures var t := RunFrom(c, s, [Flush] + Settles(BatchSize(c, |s.process.queue|), ok)).process;
            t.queue == AfterFlush(c, s.process.queue, ok) && !t.flushing && t.frames == []
  {
    UninterruptedFlush(c, s, ok);
    hide Next, AfterFlush;
    RunContinues(c, s, [Flush], Settles(BatchSize(c, |s.process.queue|), ok));
    assert [Flush][..0] == [];
    assert RunFrom(c, s, []) == s;
  }

  lemma RoundsStep(c: Config, queue: seq<Entry>, n: nat, oks: nat -> nat -> bool)
    requires n > 0
    ensures var before := AfterFlushes(c, queue, n - 1, oks);
            && AfterFlushes(c, queue, n, oks) == AfterFlush(c, before, oks(n - 1))
            && Rounds(c, queue, n, oks) == Rounds(c, queue, n - 1, oks)
               + ([Flush] + Settles(BatchSize(c, |before|), oks(n - 1)))
    ensures Rounds(c, queue, 0, oks) == [] && AfterFlushes(c, queue, 0, oks) == queue
  {
  }

  lemma NoRounds(c: Config, s: System, oks: nat -> nat -> bool)
    requires OneFlush(s.process) && !s.process.flushing
    ensures RunFrom(c, s, Rounds(c, s.process.queue, 0, oks)) == s
            && AfterFlushes(c, s.process.queue, 0, oks) == s.process.queue
    ensures s.process.frames == []
  {
  }

  lemma {:induction false} RoundsRun(c: Config, s: System, n: nat, oks: nat -> nat -> bool)
    requires OneFlush(s.process) && !s.process.flushing
    ensures var t := RunFrom(c, s, Rounds(c, s.process.queue, n, oks)).process;
            t.queue == AfterFlushes(c, s.process.queue, n, oks) && OneFlush(t) && !t.flushing && t.frames == []
  {
    hide *;
    if n == 0 {
      NoRounds(c, s, oks);
    } else {
      RoundsStep(c, s.process.queue, n, oks);
      RoundsRun(c, s, n - 1, oks);
      OneMoreRound(c, s, Rounds(c, s.process.queue, n - 1, oks), oks(n - 1));
    }
  }

  lemma OneMoreRound(c: Config, s: System, front: seq<Step>, ok: nat -> bool)
    requires var p := RunFrom(c, s, front).process; OneFlush(p) && !p.flushing
    ensures var queue := RunFrom(c, s, front).process.queue;
            var t := RunFrom(c, s, front + ([Flush] + Settles(BatchSize(c, |queue|), ok))).process;
            t.queue == AfterFlush(c, queue, ok) && OneFlush(t) && !t.flushing && t.frames == []
  {
    var t := RunFrom(c, s, front);
    hide RunFrom, AfterFlush, Settles;
    WholeFlush(c, t, ok);
    RunContinues(c, s, front, [Flush] + Settles(BatchSize(c, |t.process.queue|), ok));
  }

  lemma {:induction false} RoundsKeepQueue(c: Config, s: System, steps: seq<Step>)
    requires QueueInv(c, s)
    ensures QueueInv(c, RunFrom(c, s, steps))
  {
    if steps != [] {
      hide QueueInv, Next;
      RoundsKeepQueue(c, s, steps[..|steps| - 1]);
      StepKeepsQueue(c, RunFrom(c, s, steps[..|steps| - 1]), steps[|steps| - 1]);
    }
  }

  lemma ReachableAttemptsLeft(c: Config, s: System)
    requires QueueInv(c, s)
    ensures AttemptsLeft(c, s.process.queue)
  {
    var live, at := Live(s.process), |InFlight(s.process)|;
    forall i | 0 <= i < |s.process.queue| ensures s.process.queue[i].retryCount < Attempts(c) {
      assert live[at + i] == s.process.queue[i];
    }
  }

  /**
   From any reachable state between flushes and without new enqueues, as many flushes as
   there are attempts left empty the queue, even if every operation fails; everything taken
   in has then been flushed or has failed.
   */
  lemma FlushesDrain(c: Config, steps: seq<Step>, n: nat, oks: nat -> nat -> bool)
    requires !Run(c, steps).process.flushing && c.maxBatchSize >= 1
    requires n >= Weight(c, Run(c, steps).process.queue)
    ensures var s := Run(c, steps);
            var p := RunFrom(c, s, Rounds(c, s.process.queue, n, oks)).process;
            p.queue == [] && !p.flushing && p.enqueued + p.recovered == p.flushed + p.failed
  {
    RunKeepsQueue(c, steps);
    var s := Run(c, steps);
    ReachableAttemptsLeft(c, s);
    QueueDrains(c, s.process.queue, n, oks);
    RoundsRun(c, s, n, oks);
    RoundsKeepQueue(c, s, Rounds(c, s.process.queue, n, oks));
  }

  /** Repeated flushing empties the queue exactly when the batch size is at least one or there was nothing to do. */
  lemma DrainsIff(c: Config, steps: seq<Step>, oks: nat -> nat -> bool)
    requires !Run(c, steps).process.flushing
    ensures var s := Run(c, steps);
            (exists n: nat :: RunFrom(c, s, Rounds(c, s.process.queue, n, oks)).process.queue == [])
            <==> (c.maxBatchSize >= 1 || s.process.queue == [])
  {
    RunKeepsQueue(c, steps);
    var s := Run(c, steps);
    ReachableAttemptsLeft(c, s);
    QueueDrainsIff(c, s.process.queue, oks);
    hide Run, RunFrom, Rounds, AfterFlushes;
    if n: nat :| AfterFlushes(c, s.process.queue, n, oks) == [] {
      RoundsRun(c, s, n, oks);
      assert RunFrom(c, s, Rounds(c, s.process.queue, n, oks)).process.queue == [];
    }
    forall n: nat
      ensures RunFrom(c, s, Rounds(c, s.process.queue, n, oks)).process.queue
              == AfterFlushes(c, s.process.queue, n, oks) {
      RoundsRun(c, s, n, oks);
    }
  }

  lemma QueueDrainsIff(c: Config, queue: seq<Entry>, oks: nat -> nat -> bool)
    requires AttemptsLeft(c, queue)
    ensures (exists n: nat :: AfterFlushes(c, queue, n, oks) == []) <==> (c.maxBatchSize >= 1 || queue == [])
  {
    if c.maxBatchSize >= 1 {
      WeightAtLeastLength(c, queue);
      QueueDrains(c, queue, Weight(c, queue), oks);
    } else if queue == [] {
      var none: nat := 0;
      ZeroBatchKeepsAll(c, queue, none, oks);
      assert AfterFlushes(c, queue, none, oks) == [];
    } else {
      forall n: nat ensures AfterFlushes(c, queue, n, oks) != [] { ZeroBatchKeepsAll(c, queue, n, oks); }
    }
  }

  // ----- failures and the log -----

  /** Flushes whose operations all fail, the last attempts included, send nothing to the log. */
  lemma {:induction false} FailuresLeaveLogAlone(c: Config, s: System, steps: seq<Step>)
    requires forall i | 0 <= i < |steps| :: steps[i].Flush? || (steps[i].Settle? && !steps[i].ok)
    ensures RunFrom(c, s, steps).store == s.store && RunFrom(c, s, steps).net == s.net
  {
    if steps != [] { FailuresLeaveLogAlone(c, s, steps[..|steps| - 1]); }
  }

  /**
   A write that no recovery put back has one entry, which runs again only until it succeeds or
   uses up its attempts.
   */
  ghost predicate OneEntryEach(live: seq<Entry>, nextWrite: nat, h: History) {
    && (forall i, j | 0 <= i < j < |live| && live[i].write !in h.putBack :: live[i].write != live[j].write)
    && (forall i | 0 <= i < |live| ::
        live[i].write < nextWrite && (live[i].write !in h.succeeded || live[i].write in h.putBack))
    && (forall n | n in h.exhausted ::
        h.exhausted[n] < nextWrite && (h.exhausted[n] !in h.succeeded || h.exhausted[n] in h.putBack))
    && (forall n, i | n in h.exhausted && 0 <= i < |live| && live[i].write !in h.putBack ::
        live[i].write != h.exhausted[n])
    && (forall id | id in h.succeeded :: id < nextWrite)
  }

  ghost predicate SingleEntries(s: System) {
    OneEntryEach(Live(s.process), s.nextWrite, s.history)
  }

  lemma StartKeepsSingle(c: Config, s: System)
    requires SingleEntries(s) && OneFlush(s.process)
    ensures SingleEntries(StartFlush(c, s))
  {
    assert Live(StartFlush(c, s).process) == Live(s.process);
  }

  lemma EnqueueKeepsSingle(c: Config, s: System, data: Data, logReady: bool)
    requires SingleEntries(s) && OneFlush(s.process)
    ensures SingleEntries(EnqueueStep(c, s, data, logReady))
  {
    var t := Queued(s, data, logReady);
    assert Live(t.process) == Live(s.process) + [t.process.queue[|s.process.queue|]];
    StartKeepsSingle(c, t);
  }

  lemma SettleKeepsSingle(c: Config, s: System, k: nat, ok: bool)
    requires SingleEntries(s) && OneFlush(s.process)
    ensures SingleEntries(SettleStep(c, s, k, ok))
  {
    if k < |s.process.frames| && s.process.frames[k].batch != [] {
      assert k == 0;
      SettledHistory(c, s, ok);
      SettledLive(c, s, ok);
      hide SettleStep, Live;
      SingleAfter(c, Live(s.process), s.nextWrite, s.history, SettleStep(c, s, 0, ok).history, ok);
    }
  }

  lemma SingleAfter(c: Config, live: seq<Entry>, nextWrite: nat, h: History, h': History, ok: bool)
    requires live != [] && OneEntryEach(live, nextWrite, h)
    requires h'.exhausted == if ok || live[0].retryCount + 1 <= c.maxRetries then h.exhausted
                             else h.exhausted[live[0].serial := live[0].write]
    requires h'.succeeded == (if ok then h.succeeded + {live[0].write} else h.succeeded) && h'.putBack == h.putBack
    ensures var again := if !ok && live[0].retryCount + 1 <= c.maxRetries then
            [live[0].(retryCount := live[0].retryCount + 1)] else [];
            OneEntryEach(live[1..] + again, nextWrite, h')
  {
  }

  lemma ResolveKeepsSingle(s: System, id: nat)
    requires SingleEntries(s)
    ensures SingleEntries(ResolveStep(s, id))
  {
    var a, b := Live(s.process), Live(ResolveStep(s, id).process);
    assert |a| == |b| && forall i | 0 <= i < |a| :: b[i].write == a[i].write;
  }

  lemma {:induction false} RequeuedWrites(c: Config, ids: seq<nat>, read: seq<Option<Data>>, serial: nat)
    requires |read| <= |ids|
    ensures forall i | 0 <= i < |Requeued(c, ids, read, serial)| :: Requeued(c, ids, read, serial)[i].write in ids
  {
    if read != [] { RequeuedWrites(c, ids, read[..|read| - 1], serial); }
  }

  lemma RecoverKeepsSingle(c: Config, s: System)
    requires SingleEntries(s) && LogInv(s)
    ensures SingleEntries(RecoverFinishStep(c, s))
  {
    var t := RecoverFinishStep(c, s);
    if t != s {
      var ids, read := s.process.recovery.ids, s.process.recovery.read;
      var back := Requeued(c, ids, read, s.nextSerial);
      RequeuedWrites(c, ids, read, s.nextSerial);
      forall id | id in ids ensures id < s.nextWrite {
        var i :| 0 <= i < |ids| && ids[i] == id;
        assert Landed(s, ids[i]);
      }
      hide Requeued, LogInv, NewTries;
      assert Live(t.process) == Live(s.process) + back;
      hide Live;
      SingleWithBack(Live(s.process), back, s.nextWrite, s.history, t.history);
    }
  }

  lemma SingleWithBack(live: seq<Entry>, back: seq<Entry>, nextWrite: nat, h: History, h': History)
    requires OneEntryEach(live, nextWrite, h)
    requires forall i | 0 <= i < |back| :: back[i].write < nextWrite
    requires h'.putBack == h.putBack + WritesOf(back) && h'.succeeded == h.succeeded && h'.exhausted == h.exhausted
    ensures OneEntryEach(live + back, nextWrite, h')
  {
    assert forall i | 0 <= i < |back| :: back[i].write in h'.putBack;
  }

  lemma StepKeepsSingle(c: Config, s: System, step: Step)
    requires SingleEntries(s) && QueueInv(c, s) && LogInv(s)
    ensures SingleEntries(Next(c, s, step))
  {
    hide LogInv;
    match step
    case Enqueue(data, logReady) => EnqueueKeepsSingle(c, s, data, logReady);
    case Flush => StartKeepsSingle(c, s);
    case Settle(k, ok) => SettleKeepsSingle(c, s, k, ok);
    case Resolve(id) => ResolveKeepsSingle(s, id);
    case RecoverFinish => RecoverKeepsSingle(c, s);
    case _ =>
  }

  lemma {:induction false} RunKeepsSingle(c: Config, steps: seq<Step>)
    ensures SingleEntries(Run(c, steps))
  {
    if steps != [] {
      hide SingleEntries, Next, LogInv, QueueInv;
      RunKeepsSingle(c, steps[..|steps| - 1]);
      RunKeepsQueue(c, steps[..|steps| - 1]);
      RunKeepsLog(c, steps[..|steps| - 1]);
      StepKeepsSingle(c, Run(c, steps[..|steps| - 1]), steps[|steps| - 1]);
    }
  }

  /**
   A write that used up its attempts and was not put back by a recovery has not succeeded,
   and if its append completed it stays pending unless a recovery took it off the list.
   */
  lemma ExhaustedStaysPending(c: Config, steps: seq<Step>, serial: nat)
    requires var h := Run(c, steps).history; serial in h.exhausted && h.exhausted[serial] !in h.putBack
    ensures var s := Run(c, steps);
            var id := s.history.exhausted[serial];
            && id !in s.history.succeeded
            && (id in s.history.appended ==> (id in s.store.pending <==> id !in s.history.unlisted))
  {
    RunKeepsSingle(c, steps);
    NoCompletedAppendIsLost(c, steps);
  }
}
