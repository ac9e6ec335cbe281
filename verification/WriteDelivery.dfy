/**
 The end-to-end promise of queue and log: after a crash, a recovery, enough flushes whose
 operations succeed and the arrival of their acknowledgements, the log holds exactly the
 writes that nothing can replay.
 */
module WriteDelivery {
  import opened Basics
  import opened WritePipeline
  import opened WriteSafety
  import opened WriteProgress

  function AllAcks(entries: seq<Entry>): seq<Pipeline> {
    if entries == [] then [] else AllAcks(entries[..|entries| - 1]) + AckOf(entries[|entries| - 1])
  }

  /** From a queue `q0` on, everything no longer live has been acknowledged, in order. */
  ghost predicate Sent(s: System, net0: seq<Pipeline>, q0: seq<Entry>) {
    && |Live(s.process)| <= |q0|
    && var k := |q0| - |Live(s.process)|;
    && Live(s.process) == q0[k..]
    && s.net == net0 + AllAcks(q0[..k])
  }

  predicate Succeeding(step: Step) {
    step.Flush? || (step.Settle? && step.ok)
  }

  lemma SentStart(s: System)
    requires s.process.frames == []
    ensures Sent(s, s.net, s.process.queue)
  {
    assert Live(s.process) == s.process.queue;
    assert s.net + [] == s.net;
  }

  lemma SentFlush(c: Config, s: System, net0: seq<Pipeline>, q0: seq<Entry>)
    requires Sent(s, net0, q0) && OneFlush(s.process)
    ensures Sent(StartFlush(c, s), net0, q0)
  {
    StartedLive(c, s);
    hide StartFlush, Live, AllAcks;
  }

  lemma StartedLive(c: Config, s: System)
    requires OneFlush(s.process)
    ensures Live(StartFlush(c, s).process) == Live(s.process) && StartFlush(c, s).net == s.net
  {
  }

  lemma SentSettle(c: Config, s: System, k: nat, net0: seq<Pipeline>, q0: seq<Entry>)
    requires Sent(s, net0, q0) && OneFlush(s.process)
    ensures Sent(SettleStep(c, s, k, true), net0, q0)
  {
    if k < |s.process.frames| && s.process.frames[k].batch != [] {
      var e, live := s.process.frames[0].batch[0], Live(s.process);
      var done := |q0| - |live|;
      SettledLive(c, s, true);
      assert live[1..] + [] == q0[done + 1..] && q0[..done + 1][..done] == q0[..done] && q0[done] == e;
      assert SettleStep(c, s, 0, true).net == s.net + AckOf(e);
      hide SettleStep, Live, AckOf;
      assert net0 + AllAcks(q0[..done]) + AckOf(e) == net0 + (AllAcks(q0[..done]) + AckOf(e));
    }
  }

  /** Successful operations send acknowledgements and touch nothing else outside the process. */
  lemma {:induction false} SucceedingRun(c: Config, s: System, steps: seq<Step>, q0: seq<Entry>)
    requires QueueInv(c, s) && Sent(s, s.net, q0)
    requires forall i | 0 <= i < |steps| :: Succeeding(steps[i])
    ensures var t := RunFrom(c, s, steps);
            QueueInv(c, t) && Sent(t, s.net, q0) && t.store == s.store && t.history.submitted == s.history.submitted
  {
    if steps != [] {
      var front, last := steps[..|steps| - 1], steps[|steps| - 1];
      SucceedingRun(c, s, front, q0);
      OneSucceeding(c, RunFrom(c, s, front), last, s.net, q0);
      hide Sent, QueueInv, Next;
    }
  }

  lemma OneSucceeding(c: Config, s: System, step: Step, net0: seq<Pipeline>, q0: seq<Entry>)
    requires QueueInv(c, s) && Sent(s, net0, q0) && Succeeding(step)
    ensures var t := Next(c, s, step);
            QueueInv(c, t) && Sent(t, net0, q0) && t.store == s.store && t.history.submitted == s.history.submitted
  {
    StepKeepsQueue(c, s, step);
    assert OneFlush(s.process);
    hide Sent, QueueInv;
    if step.Flush? { SentFlush(c, s, net0, q0); } else { SentSettle(c, s, step.frame, net0, q0); }
  }

  const ALL_SUCCEED: nat -> nat -> bool := (n: nat) => (i: nat) => true

  lemma {:induction false} SettlesSucceed(n: nat, ok: nat -> bool)
    requires forall i: nat :: ok(i)
    ensures forall i | 0 <= i < |Settles(n, ok)| :: Succeeding(Settles(n, ok)[i])
  {
    if n > 0 { SettlesSucceed(n - 1, ok); }
  }

  lemma {:induction false} RoundsSucceed(c: Config, queue: seq<Entry>, n: nat)
    ensures forall i | 0 <= i < |Rounds(c, queue, n, ALL_SUCCEED)| :: Succeeding(Rounds(c, queue, n, ALL_SUCCEED)[i])
  {
    if n > 0 {
      RoundsSucceed(c, queue, n - 1);
      SettlesSucceed(BatchSize(c, |AfterFlushes(c, queue, n - 1, ALL_SUCCEED)|), ALL_SUCCEED(n - 1));
    }
  }

  /** Enough successful flushes empty the queue and leave the acknowledgements of all its entries on their way. */
  lemma FlushedAndSent(c: Config, s: System, n: nat)
    requires QueueInv(c, s) && !s.process.flushing && c.maxBatchSize >= 1 && n >= Weight(c, s.process.queue)
    ensures var t := RunFrom(c, s, Rounds(c, s.process.queue, n, ALL_SUCCEED));
            && t.process.queue == [] && !t.process.flushing
            && t.net == s.net + AllAcks(s.process.queue)
            && t.store == s.store && t.history.submitted == s.history.submitted
  {
    hide *;
    var queue := s.process.queue;
    NothingRunning(c, s);
    QueueDrains(c, queue, n, ALL_SUCCEED);
    RoundsRun(c, s, n, ALL_SUCCEED);
    RoundsSucceed(c, queue, n);
    SentStart(s);
    SucceedingRun(c, s, Rounds(c, queue, n, ALL_SUCCEED), queue);
    AllSent(RunFrom(c, s, Rounds(c, queue, n, ALL_SUCCEED)), s.net, queue);
  }

  lemma NothingRunning(c: Config, s: System)
    requires QueueInv(c, s) && !s.process.flushing
    ensures OneFlush(s.process) && s.process.frames == [] && AttemptsLeft(c, s.process.queue)
  {
    ReachableAttemptsLeft(c, s);
  }

  lemma AllSent(t: System, net0: seq<Pipeline>, q0: seq<Entry>)
    requires Sent(t, net0, q0) && t.process.frames == [] && t.process.queue == []
    ensures t.net == net0 + AllAcks(q0)
  {
    assert q0[..|q0|] == q0;
  }

  // ----- arrival of the acknowledgements -----

  function Deliveries(n: nat): (steps: seq<Step>)
    ensures |steps| == n && forall i | 0 <= i < n :: steps[i] == Deliver(0)
  {
    seq(n, i => Deliver(0))
  }

  function AcksFor(ids: seq<nat>): (net: seq<Pipeline>)
    ensures |net| == |ids| && forall i | 0 <= i < |ids| :: net[i] == Ack(ids[i])
  {
    seq(|ids|, i requires 0 <= i < |ids| => Ack(ids[i]))
  }

  lemma OneAckArrives(c: Config, s: System, id: nat, rest: seq<Pipeline>)
    requires s.net == [Ack(id)] + rest
    ensures var t := RunFrom(c, s, Deliveries(2));
            t.net == rest && t.store == Del(LRem(s.store, id), id) && t.process == s.process
              && t.history.submitted == s.history.submitted
  {
    var mid := DeliverStep(s, 0);
    assert mid.net == [Forget(id)] + rest;
    assert DeliverStep(mid, 0).net == rest;
    assert Deliveries(2)[..1][..0] == [] && Deliveries(2)[..1] == [Deliver(0)];
    assert RunFrom(c, s, []) == s;
    assert RunFrom(c, s, Deliveries(2)[..1]) == mid;
    hide DeliverStep;
  }

  /** Once all acknowledgements have arrived, exactly their ids are gone from the list. */
  lemma {:induction false} AcksArrive(c: Config, s: System, ids: seq<nat>)
    requires s.net == AcksFor(ids)
    ensures var t := RunFrom(c, s, Deliveries(2 * |ids|));
            && t.net == [] && t.process == s.process && t.history.submitted == s.history.submitted
            && forall x :: x in t.store.pending <==> x in s.store.pending && x !in ids
    decreases |ids|
  {
    hide RunFrom, DeliverStep;
    if ids == [] {
      assert Deliveries(0) == [];
      assert RunFrom(c, s, []) == s by { RunNothing(c, s); }
    } else {
      var rest := ids[1..];
      var t := RunFrom(c, s, Deliveries(2));
      assert s.net == [Ack(ids[0])] + AcksFor(rest);
      OneAckArrives(c, s, ids[0], AcksFor(rest));
      AcksArrive(c, t, rest);
      assert Deliveries(2 * |ids|) == Deliveries(2) + Deliveries(2 * |rest|);
      RunContinues(c, s, Deliveries(2), Deliveries(2 * |rest|));
      LeftAfterFirst(s.store, t.store, ids);
    }
  }

  lemma RunNothing(c: Config, s: System)
    ensures RunFrom(c, s, []) == s
  {
  }

  lemma LeftAfterFirst(s: Store, t: Store, ids: seq<nat>)
    requires ids != [] && t == Del(LRem(s, ids[0]), ids[0])
    ensures forall x :: x in t.pending && x !in ids[1..] <==> x in s.pending && x !in ids
  {
    RemovedFacts(s.pending, ids[0]);
    assert ids == [ids[0]] + ids[1..];
  }

  // ----- from crash to clean log -----

  /** The listed writes that can be replayed. */
  function ReplayableIds(c: Config, ids: seq<nat>, submitted: map<nat, Data>): seq<nat> {
    if ids == [] then []
    else
      var front, id := ReplayableIds(c, ids[..|ids| - 1], submitted), ids[|ids| - 1];
      if Replayable(c, submitted, id) then front + [id] else front
  }

  predicate Replayable(c: Config, submitted: map<nat, Data>, id: nat) {
    id in submitted && IsHandled(c, Some(submitted[id]))
  }

  lemma {:induction false} ReplayableMembers(c: Config, ids: seq<nat>, submitted: map<nat, Data>)
    ensures forall id :: id in ReplayableIds(c, ids, submitted) <==> id in ids && Replayable(c, submitted, id)
  {
    if ids != [] {
      ReplayableMembers(c, ids[..|ids| - 1], submitted);
      assert ids == ids[..|ids| - 1] + [ids[|ids| - 1]];
    }
  }

  lemma {:induction false} RecoverableAcks(c: Config, ids: seq<nat>, submitted: map<nat, Data>, serial: nat)
    ensures AllAcks(Recoverable(c, ids, submitted, serial)) == AcksFor(ReplayableIds(c, ids, submitted))
  {
    if ids != [] {
      var front, id := Recoverable(c, ids[..|ids| - 1], submitted, serial), ids[|ids| - 1];
      RecoverableAcks(c, ids[..|ids| - 1], submitted, serial);
      if Replayable(c, submitted, id) {
        var e := Entry(serial + |front|, id, submitted[id].category, 0, Some(id));
        assert (front + [e])[..|front|] == front;
      }
    }
  }

  /** A crash, a whole recovery, `n` successful flushes, and the arrival of what they send. */
  function Replay(c: Config, s: System, n: nat): seq<Step> {
    var ids := s.store.pending;
    var queue := Recoverable(c, ids, s.history.submitted, s.nextSerial);
    [Crash] + WholeRecovery(|ids|) + Rounds(c, queue, n, ALL_SUCCEED)
      + Deliveries(2 * |ReplayableIds(c, ids, s.history.submitted)|)
  }

  /**
   Whatever happened before, once nothing is on its way any more: after a crash, a recovery,
   enough flushes whose operations succeed and the arrival of their acknowledgements, the
   pending list holds exactly the writes that have no category or no handler.
   */
  lemma EverythingHandledIsDelivered(c: Config, steps: seq<Step>, n: nat)
    requires Run(c, steps).net == [] && c.maxBatchSize >= 1
    requires var s := Run(c, steps); n >= Weight(c, Recoverable(c, s.store.pending, s.history.submitted, s.nextSerial))
    ensures var s := Run(c, steps);
            var t := RunFrom(c, s, Replay(c, s, n));
            && t.process.queue == [] && !t.process.flushing && t.net == []
            && forall id :: id in t.store.pending <==> id in s.store.pending && !Replayable(c, s.history.submitted, id)
  {
    var s := Run(c, steps);
    var crashed := Next(c, s, Crash);
    var ids, submitted := s.store.pending, s.history.submitted;
    var queue := Recoverable(c, ids, submitted, s.nextSerial);
    RunKeepsLog(c, steps);
    RunKeepsQueue(c, steps);
    StepKeepsLog(c, s, Crash);
    StepKeepsQueue(c, s, Crash);
    hide LogInv, QueueInv, Run, RunFrom, Rounds, Weight, Recoverable;
    WholeRecoveryFrom(c, crashed);
    var recovered := RunFrom(c, crashed, WholeRecovery(|ids|));
    RoundsKeepQueue(c, crashed, WholeRecovery(|ids|));
    assert recovered.process.queue == queue by { assert FRESH_PROCESS.queue + queue == queue; }
    FlushedAndSent(c, recovered, n);
    var flushed := RunFrom(c, recovered, Rounds(c, queue, n, ALL_SUCCEED));
    RecoverableAcks(c, ids, submitted, s.nextSerial);
    assert flushed.net == AcksFor(ReplayableIds(c, ids, submitted));
    AcksArrive(c, flushed, ReplayableIds(c, ids, submitted));
    ReplayableMembers(c, ids, submitted);
    ReplaySteps(c, s, n);
  }

  lemma ReplaySteps(c: Config, s: System, n: nat)
    ensures var ids, submitted := s.store.pending, s.history.submitted;
            var queue := Recoverable(c, ids, submitted, s.nextSerial);
            var recovered := RunFrom(c, Next(c, s, Crash), WholeRecovery(|ids|));
            var flushed := RunFrom(c, recovered, Rounds(c, queue, n, ALL_SUCCEED));
            RunFrom(c, s, Replay(c, s, n)) == RunFrom(c, flushed, Deliveries(2 * |ReplayableIds(c, ids, submitted)|))
  {
    var ids, submitted := s.store.pending, s.history.submitted;
    var recovery, rounds := WholeRecovery(|ids|),
      Rounds(c, Recoverable(c, ids, submitted, s.nextSerial), n, ALL_SUCCEED);
    assert [Crash][..0] == [];
    assert RunFrom(c, s, []) == s;
    assert RunFrom(c, s, [Crash]) == Next(c, s, Crash);
    hide RunFrom, Rounds, Recoverable, ReplayableIds, WholeRecovery;
    RunContinues(c, s, [Crash], recovery);
    RunContinues(c, s, [Crash] + recovery, rounds);
    RunContinues(c, s, [Crash] + recovery + rounds, Deliveries(2 * |ReplayableIds(c, ids, submitted)|));
  }
}
