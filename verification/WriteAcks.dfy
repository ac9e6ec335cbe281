/**
 The link between queue and log: once the append of a write has returned, its entries carry its
 id wherever they are, so its success is acknowledged and the write leaves the pending list.
 */
module WriteAcks {
  import opened Basics
  import opened WritePipeline
  import opened WriteSafety

  /** The entry is queued or in a batch being run. */
  ghost predicate IsLive(p: Process, e: Entry) {
    e in p.queue || exists k :: 0 <= k < |p.frames| && e in p.frames[k].batch
  }

  /** Every live entry of the write carries its id. */
  ghost predicate CarriesId(s: System, w: nat) {
    w < s.nextWrite && forall e | IsLive(s.process, e) && e.write == w :: e.walId == Some(w)
  }

  // ----- steps -----

  /** After a step a live entry was live before, but for retries counted and ids received, or is a new one. */
  ghost predicate OldOrNew(s: System, e: Entry) {
    || e.write >= s.nextWrite || e.walId == Some(e.write)
    || exists b :: IsLive(s.process, b) && b.write == e.write && b.walId == e.walId
  }

  lemma StillCarries(s: System, t: System, w: nat)
    requires CarriesId(s, w) && s.nextWrite <= t.nextWrite
    requires forall e | IsLive(t.process, e) :: OldOrNew(s, e)
    ensures CarriesId(t, w)
  {
    hide IsLive;
  }

  lemma StartedLive(c: Config, s: System, e: Entry)
    requires IsLive(StartFlush(c, s).process, e)
    ensures IsLive(s.process, e)
  {
    var p, t := s.process, StartFlush(c, s).process;
    if k :| 0 <= k < |t.frames| && e in t.frames[k].batch {
      assert k < |p.frames| ==> t.frames[k] == p.frames[k];
    }
  }

  lemma EnqueuedLive(c: Config, s: System, data: Data, logReady: bool, e: Entry)
    requires IsLive(EnqueueStep(c, s, data, logReady).process, e)
    ensures (e.write == s.nextWrite && e.category == data.category) || IsLive(s.process, e)
  {
    var t := Queued(s, data, logReady);
    if !IsLive(t.process, e) { StartedLive(c, t, e); }
    if k :| 0 <= k < |t.process.frames| && e in t.process.frames[k].batch {
      assert t.process.frames[k] == s.process.frames[k];
    }
  }

  lemma SettledLive(c: Config, s: System, k: nat, ok: bool, e: Entry)
    requires IsLive(SettleStep(c, s, k, ok).process, e)
    ensures exists b :: IsLive(s.process, b) && b.write == e.write && b.walId == e.walId && b.category == e.category
  {
    var p, t := s.process, SettleStep(c, s, k, ok).process;
    if k < |p.frames| && p.frames[k].batch != [] {
      if j :| 0 <= j < |t.frames| && e in t.frames[j].batch {
        SettledFrames(c, s, k, ok, t.frames[j]);
        assert IsLive(p, e);
      } else {
        var first := p.frames[k].batch[0];
        assert e in p.queue || e == Retry(first);
        assert IsLive(p, first);
      }
    } else {
      assert IsLive(p, e);
    }
  }

  lemma ResolvedLive(p: Process, id: nat, e: Entry)
    requires IsLive(Resolved(p, id), e)
    ensures e.write == id ==> e.walId == Some(id)
    ensures e.write != id ==> IsLive(p, e)
    ensures exists b :: IsLive(p, b) && b.write == e.write && b.category == e.category
  {
    var t := Resolved(p, id);
    if e in t.queue {
      var i :| 0 <= i < |t.queue| && t.queue[i] == e;
      assert e.write != id ==> p.queue[i] == e;
      assert IsLive(p, p.queue[i]);
    } else {
      var k :| 0 <= k < |t.frames| && e in t.frames[k].batch;
      var i :| 0 <= i < |t.frames[k].batch| && t.frames[k].batch[i] == e;
      assert e.write != id ==> p.frames[k].batch[i] == e;
      assert p.frames[k].batch[i] in p.frames[k].batch;
      assert IsLive(p, p.frames[k].batch[i]);
    }
  }

  lemma {:induction false} RequeuedCarry(c: Config, ids: seq<nat>, read: seq<Option<Data>>, serial: nat)
    requires |read| <= |ids|
    ensures forall e | e in Requeued(c, ids, read, serial) :: e.walId == Some(e.write)
    ensures forall e | e in Requeued(c, ids, read, serial) ::
              exists i :: 0 <= i < |read| && read[i].Some? && ids[i] == e.write && read[i].value.category == e.category
  {
    if read != [] {
      var n := |read| - 1;
      RequeuedCarry(c, ids, read[..n], serial);
      forall e | e in Requeued(c, ids, read, serial)
        ensures exists i ::
          0 <= i < |read| && read[i].Some? && ids[i] == e.write && read[i].value.category == e.category
      {
        if e in Requeued(c, ids, read[..n], serial) {
          var i :| 0 <= i < n && read[..n][i].Some? && ids[i] == e.write && read[..n][i].value.category == e.category;
          assert read[i] == read[..n][i];
        } else {
          assert ids[n] == e.write;
        }
      }
    }
  }

  lemma RecoveredLive(c: Config, s: System, e: Entry)
    requires IsLive(RecoverFinishStep(c, s).process, e)
    ensures e.walId == Some(e.write) || IsLive(s.process, e)
  {
    var p, t := s.process, RecoverFinishStep(c, s).process;
    if p.recovery.Reading? && |p.recovery.read| == |p.recovery.ids| {
      RequeuedCarry(c, p.recovery.ids, p.recovery.read, s.nextSerial);
    }
    assert t.frames == p.frames;
  }

  lemma StepOldOrNew(c: Config, s: System, step: Step, e: Entry)
    requires IsLive(Next(c, s, step).process, e)
    ensures OldOrNew(s, e)
  {
    hide IsLive;
    match step
    case Enqueue(data, logReady) => EnqueuedLive(c, s, data, logReady, e);
    case Flush => StartedLive(c, s, e);
    case Settle(k, ok) => SettledLive(c, s, k, ok, e);
    case Resolve(id) => if Next(c, s, step) != s { ResolvedLive(s.process, id, e); }
    case RecoverFinish => RecoveredLive(c, s, e);
    case Crash => assert IsLive(FRESH_PROCESS, e); NothingLive(e);
    case _ => SameLive(s.process, Next(c, s, step).process, e);
  }

  lemma NothingLive(e: Entry)
    ensures !IsLive(FRESH_PROCESS, e)
  {
  }

  lemma SameLive(p: Process, t: Process, e: Entry)
    requires t.queue == p.queue && t.frames == p.frames && IsLive(t, e)
    ensures IsLive(p, e)
  {
  }

  lemma StepKeepsIds(c: Config, s: System, step: Step, w: nat)
    requires CarriesId(s, w)
    ensures CarriesId(Next(c, s, step), w)
  {
    forall e | IsLive(Next(c, s, step).process, e) ensures OldOrNew(s, e) { StepOldOrNew(c, s, step, e); }
    NumbersGrow(c, s, step);
    hide Next, OldOrNew, CarriesId;
    StillCarries(s, Next(c, s, step), w);
  }

  lemma NumbersGrow(c: Config, s: System, step: Step)
    ensures s.nextWrite <= Next(c, s, step).nextWrite
  {
  }

  // ----- what entries stand for -----

  /** Every live entry has the category that was submitted for its write. */
  ghost predicate OwnCategories(s: System) {
    forall e | IsLive(s.process, e) ::
      e.write in s.history.submitted && e.category == s.history.submitted[e.write].category
  }

  ghost predicate OldOrOwn(s: System, t: System, e: Entry) {
    || (exists b :: IsLive(s.process, b) && b.write == e.write && b.category == e.category)
    || (e.write in t.history.submitted && e.category == t.history.submitted[e.write].category)
  }

  lemma RecoveredCategory(c: Config, s: System, e: Entry)
    requires RecoveryOk(s) && IsLive(RecoverFinishStep(c, s).process, e)
    ensures OldOrOwn(s, RecoverFinishStep(c, s), e)
  {
    var p, t := s.process, RecoverFinishStep(c, s).process;
    if p.recovery.Reading? && |p.recovery.read| == |p.recovery.ids| {
      RequeuedCarry(c, p.recovery.ids, p.recovery.read, s.nextSerial);
    }
    assert t.frames == p.frames;
    if !IsLive(p, e) {
      assert e in Requeued(c, p.recovery.ids, p.recovery.read, s.nextSerial);
    }
  }

  lemma StepOldOrOwn(c: Config, s: System, step: Step, e: Entry)
    requires RecoveryOk(s) && IsLive(Next(c, s, step).process, e)
    ensures OldOrOwn(s, Next(c, s, step), e)
  {
    hide IsLive, RecoveryOk;
    match step
    case Enqueue(data, logReady) => EnqueuedLive(c, s, data, logReady, e);
    case Flush => StartedLive(c, s, e);
    case Settle(k, ok) => SettledLive(c, s, k, ok, e);
    case Resolve(id) => if Next(c, s, step) != s { ResolvedLive(s.process, id, e); }
    case RecoverFinish => RecoveredCategory(c, s, e);
    case Crash => NothingLive(e);
    case _ => SameLive(s.process, Next(c, s, step).process, e);
  }

  lemma SubmittedStays(c: Config, s: System, step: Step)
    requires forall w | w in s.history.submitted :: w < s.nextWrite
    ensures forall w | w in s.history.submitted ::
              w in Next(c, s, step).history.submitted && Next(c, s, step).history.submitted[w] == s.history.submitted[w]
  {
  }

  lemma {:induction false} EntriesKeepCategories(c: Config, steps: seq<Step>)
    ensures OwnCategories(Run(c, steps))
  {
    if steps == [] {
      forall e | IsLive(FRESH_PROCESS, e) ensures false { NothingLive(e); }
    } else {
      var s, step := Run(c, steps[..|steps| - 1]), steps[|steps| - 1];
      EntriesKeepCategories(c, steps[..|steps| - 1]);
      RunKeepsLog(c, steps[..|steps| - 1]);
      assert StoreOk(s) && RecoveryOk(s);
      hide Run, LogInv, RecoveryOk;
      SubmittedStays(c, s, step);
      hide StoreOk, Next, IsLive;
      forall e | IsLive(Next(c, s, step).process, e) ensures OldOrOwn(s, Next(c, s, step), e) {
        StepOldOrOwn(c, s, step, e);
      }
    }
  }

  // ----- from the append to the acknowledgement -----

  /** The append is under way in this process, or is over. */
  ghost predicate Linking(s: System, w: nat) {
    w < s.nextWrite && (w in s.process.resolving || CarriesId(s, w))
  }

  lemma StepKeepsLinking(c: Config, s: System, step: Step, w: nat)
    requires Linking(s, w)
    ensures Linking(Next(c, s, step), w)
  {
    NumbersGrow(c, s, step);
    if CarriesId(s, w) {
      StepKeepsIds(c, s, step, w);
    } else if step.Crash? {
      forall e | IsLive(FRESH_PROCESS, e) ensures false { NothingLive(e); }
    } else if step == Resolve(w) {
      if Next(c, s, step) != s { Receives(s, w); }
    } else {
      StaysResolving(c, s, step, w);
    }
  }

  lemma Receives(s: System, w: nat)
    requires w < s.nextWrite && w in s.process.resolving && !Appending(s.net, w)
    ensures CarriesId(ResolveStep(s, w), w)
  {
    var t := ResolveStep(s, w);
    forall e | IsLive(t.process, e) && e.write == w ensures e.walId == Some(w) { ResolvedLive(s.process, w, e); }
  }

  lemma StaysResolving(c: Config, s: System, step: Step, w: nat)
    requires w in s.process.resolving && step != Resolve(w) && !step.Crash?
    ensures w in Next(c, s, step).process.resolving
  {
  }

  /** No command of the write's append is on its way any more. */
  ghost predicate AppendOver(s: System, w: nat) {
    forall p | p in s.net :: p != Push(w) && !(p.Append? && p.id == w)
  }

  lemma OverIsOver(s: System, w: nat)
    requires AppendOver(s, w)
    ensures !Appending(s.net, w)
  {
  }

  lemma RunTo(c: Config, steps: seq<Step>, i: nat)
    requires i < |steps|
    ensures Run(c, steps[..i + 1]) == Next(c, Run(c, steps[..i]), steps[i])
  {
    assert steps[..i + 1][..i] == steps[..i];
  }

  lemma {:induction false} LinkingFrom(c: Config, steps: seq<Step>, e: nat, i: nat, data: Data, w: nat)
    requires e < i <= |steps| && steps[e] == Enqueue(data, true) && w == Run(c, steps[..e]).nextWrite
    ensures Linking(Run(c, steps[..i]), w)
  {
    hide Run, Linking, Next;
    RunTo(c, steps, i - 1);
    if i == e + 1 {
      NewIsLinking(c, Run(c, steps[..e]), data);
    } else {
      LinkingFrom(c, steps, e, i - 1, data, w);
      StepKeepsLinking(c, Run(c, steps[..i - 1]), steps[i - 1], w);
    }
  }

  lemma NewIsLinking(c: Config, s: System, data: Data)
    ensures Linking(Next(c, s, Enqueue(data, true)), s.nextWrite)
  {
  }

  lemma {:induction false} CarriesFrom(c: Config, steps: seq<Step>, k: nat, i: nat, w: nat)
    requires k <= i <= |steps| && CarriesId(Run(c, steps[..k]), w)
    ensures CarriesId(Run(c, steps[..i]), w)
  {
    hide Run, CarriesId, Next;
    if k < i {
      CarriesFrom(c, steps, k, i - 1, w);
      RunTo(c, steps, i - 1);
      StepKeepsIds(c, Run(c, steps[..i - 1]), steps[i - 1], w);
    }
  }

  /** In the run, the write was submitted with the log available, and later its append returned. */
  ghost predicate Returned(c: Config, steps: seq<Step>, e: nat, k: nat, w: nat) {
    && e < k < |steps| && steps[e].Enqueue? && steps[e].logReady && w == Run(c, steps[..e]).nextWrite
    && steps[k] == Resolve(w) && AppendOver(Run(c, steps[..k]), w)
  }

  /**
   In every state after the append of a write has returned, whatever else happened, each live
   entry of the write carries its id, whether queued or in a batch being run.
   */
  lemma ReturnedCarriesId(c: Config, steps: seq<Step>, e: nat, k: nat, i: nat, w: nat)
    requires Returned(c, steps, e, k, w) && k < i <= |steps|
    ensures forall live | IsLive(Run(c, steps[..i]).process, live) && live.write == w :: live.walId == Some(w)
  {
    hide Run, Next, Linking;
    LinkingFrom(c, steps, e, k, steps[e].data, w);
    var s := Run(c, steps[..k]);
    OverIsOver(s, w);
    RunTo(c, steps, k);
    AfterReturn(c, s, w);
    CarriesFrom(c, steps, k + 1, i, w);
  }

  lemma AfterReturn(c: Config, s: System, w: nat)
    requires Linking(s, w) && !Appending(s.net, w)
    ensures CarriesId(Next(c, s, Resolve(w)), w)
  {
    if CarriesId(s, w) { StepKeepsIds(c, s, Resolve(w), w); } else { Receives(s, w); }
  }

  // ----- the way of an acknowledgement -----

  /** The acknowledgement is on its way, or the write is off the list for good. */
  ghost predicate Leaving(s: System, w: nat) {
    Ack(w) in s.net || (Landed(s, w) && w !in s.store.pending)
  }

  /** The step loses the acknowledgement. */
  ghost predicate LosesAck(s: System, step: Step, w: nat) {
    step.Lose? && step.pipeline < |s.net| && s.net[step.pipeline] == Ack(w)
  }

  lemma StepKeepsLeaving(c: Config, s: System, step: Step, w: nat)
    requires LogInv(s) && Leaving(s, w) && !LosesAck(s, step, w)
    ensures Leaving(Next(c, s, step), w)
  {
    if step.Deliver? && step.pipeline < |s.net| {
      DeliverKeepsLeaving(s, step.pipeline, w);
    } else if step.Lose? && step.pipeline < |s.net| {
      var i := step.pipeline;
      var t := Next(c, s, step);
      assert t.net == s.net[..i] + [] + s.net[i + 1..];
      ReplacedMembers(s.net, i, [], t.net);
      if Ack(w) in s.net { StillThere(s.net, i, [], t.net, Ack(w)); }
    } else {
      OnlyAppended(c, s, step, w);
    }
  }

  lemma StillThere(net: seq<Pipeline>, i: nat, rest: seq<Pipeline>, after: seq<Pipeline>, p: Pipeline)
    requires Replaced(net, i, rest, after) && p in net && net[i] != p
    ensures p in after
  {
    var j :| 0 <= j < |net| && net[j] == p;
    assert after[if j < i then j else j - 1 + |rest|] == p;
  }

  lemma DeliverKeepsLeaving(s: System, i: nat, w: nat)
    requires LogInv(s) && Leaving(s, w) && i < |s.net|
    ensures Leaving(DeliverStep(s, i), w)
  {
    var t, p := DeliverStep(s, i), s.net[i];
    var rest := Delivered(s.store, p).1;
    assert PipelineOk(s, p);
    assert Replaced(s.net, i, rest, t.net);
    ReplacedMembers(s.net, i, rest, t.net);
    RemovedFacts(s.store.pending, p.id);
    if Ack(w) in s.net && p != Ack(w) { StillThere(s.net, i, rest, t.net, Ack(w)); }
  }

  /** Every other step leaves the store and only adds pipelines, of which an append is that of a new write. */
  lemma OnlyAppended(c: Config, s: System, step: Step, w: nat)
    requires (step.Deliver? || step.Lose?) ==> step.pipeline >= |s.net|
    ensures var t := Next(c, s, step);
            t.store == s.store && s.nextWrite <= t.nextWrite
            && |s.net| <= |t.net| && t.net[..|s.net|] == s.net
            && forall i | |s.net| <= i < |t.net| :: (t.net[i].Append? || t.net[i].Push?) ==> t.net[i].id == s.nextWrite
    ensures Leaving(s, w) ==> Leaving(Next(c, s, step), w)
  {
  }

  lemma {:induction false} LeavingFrom(c: Config, steps: seq<Step>, m: nat, i: nat, w: nat)
    requires m <= i <= |steps| && Leaving(Run(c, steps[..m]), w)
    requires forall j | m <= j < i :: !LosesAck(Run(c, steps[..j]), steps[j], w)
    ensures Leaving(Run(c, steps[..i]), w)
  {
    hide Run, Leaving, Next, LogInv;
    if m < i {
      LeavingFrom(c, steps, m, i - 1, w);
      RunKeepsLog(c, steps[..i - 1]);
      RunTo(c, steps, i - 1);
      StepKeepsLeaving(c, Run(c, steps[..i - 1]), steps[i - 1], w);
    }
  }

  /** The operation of the first entry of a batch, an entry of the write, succeeds. */
  ghost predicate Succeeds(s: System, step: Step, w: nat) {
    && step.Settle? && step.ok && step.frame < |s.process.frames|
    && s.process.frames[step.frame].batch != [] && s.process.frames[step.frame].batch[0].write == w
  }

  /** After its append has returned, the success of a write sends its acknowledgement and nothing else. */
  lemma SuccessIsAcknowledged(c: Config, steps: seq<Step>, e: nat, k: nat, m: nat, w: nat)
    requires Returned(c, steps, e, k, w) && k < m < |steps| && Succeeds(Run(c, steps[..m]), steps[m], w)
    ensures Run(c, steps[..m + 1]).net == Run(c, steps[..m]).net + [Ack(w)]
  {
    hide Run;
    ReturnedCarriesId(c, steps, e, k, m, w);
    RunTo(c, steps, m);
    var p := Run(c, steps[..m]).process;
    assert IsLive(p, p.frames[steps[m].frame].batch[0]);
  }

  /**
   So a write whose append has returned and whose operation then succeeded is off the pending list
   once its acknowledgement is no longer on its way, unless that was lost.
   */
  lemma SucceededLeavesLog(c: Config, steps: seq<Step>, e: nat, k: nat, m: nat, w: nat)
    requires Returned(c, steps, e, k, w) && k < m < |steps| && Succeeds(Run(c, steps[..m]), steps[m], w)
    requires forall j | m < j < |steps| :: !LosesAck(Run(c, steps[..j]), steps[j], w)
    requires Ack(w) !in Run(c, steps).net
    ensures w !in Run(c, steps).store.pending
  {
    hide *;
    assert steps[..|steps|] == steps;
    SuccessIsAcknowledged(c, steps, e, k, m, w);
    SentIsLeaving(Run(c, steps[..m]).net, Run(c, steps[..m + 1]), w);
    LeavingFrom(c, steps, m + 1, |steps|, w);
    LeftTheList(Run(c, steps), w);
  }

  lemma SentIsLeaving(net: seq<Pipeline>, t: System, w: nat)
    requires t.net == net + [Ack(w)]
    ensures Leaving(t, w)
  {
    assert t.net[|net|] == Ack(w);
  }

  lemma LeftTheList(s: System, w: nat)
    requires Leaving(s, w) && Ack(w) !in s.net
    ensures w !in s.store.pending
  {
  }
}
