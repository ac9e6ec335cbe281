/**
 The sliding-window rate limiter with a separately resetting burst allowance. The clock is
 passed in; all times are in milliseconds.
 */
module RateLimiter {
  import opened Basics

  /** The per-minute limit and the burst allowance. */
  datatype Limits = Limits(maxPerMinute: int, maxBurst: int)

  datatype Entry = Entry(timestamps: seq<int>, burstUsed: int, burstResetAt: int)

  datatype Verdict = Verdict(allowed: bool, retryAfterMs: int, remaining: int)

  function Recent(times: seq<int>, start: int): seq<int> {
    if times == [] then []
    else
      var front := Recent(times[..|times| - 1], start);
      if times[|times| - 1] > start then front + [times[|times| - 1]] else front
  }

  function Pos(n: int): nat {
    if n > 0 then n else 0
  }

  /** One check of one key: the new entry and the verdict. */
  function CheckEntry(l: Limits, known: Option<Entry>, now: int): (Entry, Verdict) {
    var start := match known case Some(e) => e case None => Entry([], 0, now + 60000);
    var e := Rolled(start, now);
    var base := l.maxPerMinute - |e.timestamps|;
    if base > 0 then (e.(timestamps := e.timestamps + [now]), Verdict(true, 0, base - 1))
    else if e.burstUsed < l.maxBurst then
      (e.(timestamps := e.timestamps + [now], burstUsed := e.burstUsed + 1), Verdict(true, 0, 0))
    else (e, Verdict(false, RetryAfter(e.timestamps, now), 0))
  }

  /** Drops the timestamps that left the window and resets an expired burst allowance. */
  function Rolled(e: Entry, now: int): Entry {
    var recent := Recent(e.timestamps, now - 60000);
    if now > e.burstResetAt then Entry(recent, 0, now + 60000) else Entry(recent, e.burstUsed, e.burstResetAt)
  }

  /** A missing or zero oldest timestamp counts as unknown. */
  function RetryAfter(timestamps: seq<int>, now: int): int {
    var wait := if timestamps != [] && timestamps[0] != 0 then timestamps[0] + 60000 - now else 1000;
    if wait > 1000 then wait else 1000
  }

  /** Removes an entry idle for two minutes, trims the others. */
  function Cleaned(known: Option<Entry>, now: int): Option<Entry> {
    match known
    case None => None
    case Some(e) =>
      var recent := Recent(e.timestamps, now - 120000);
      if recent == [] then None else Some(e.(timestamps := recent))
  }

  function EntryOf(entries: map<string, Entry>, key: string): Option<Entry> {
    if key in entries then Some(entries[key]) else None
  }

  function CleanedAll(entries: map<string, Entry>, now: int): (r: map<string, Entry>)
    ensures forall key :: EntryOf(r, key) == Cleaned(EntryOf(entries, key), now)
  {
    map key | key in entries && Cleaned(Some(entries[key]), now).Some? :: Cleaned(Some(entries[key]), now).value
  }

  lemma SameEntries(a: map<string, Entry>, b: map<string, Entry>)
    requires forall key :: EntryOf(a, key) == EntryOf(b, key)
    ensures a == b
  {
    forall key ensures key in a <==> key in b { assert EntryOf(a, key) == EntryOf(b, key); }
    forall key | key in a ensures a[key] == b[key] { assert EntryOf(a, key) == EntryOf(b, key); }
  }

  class SlidingWindowRateLimiter {
    var entries: map<string, Entry>
    const limits: Limits

    constructor (maxPerMinute: int, maxBurst: int)
      ensures entries == map[] && limits == Limits(maxPerMinute, maxBurst)
    {
      entries, limits := map[], Limits(maxPerMinute, maxBurst);
    }

    method Check(key: string, now: int) returns (verdict: Verdict)
      modifies this
      ensures var (e, v) := CheckEntry(limits, EntryOf(old(entries), key), now);
              entries == old(entries)[key := e] && verdict == v
    {
      var windowStart := now - 60000;
      var entry := if key in entries then entries[key] else Entry([], 0, now + 60000);
      entry := entry.(timestamps := Recent(entry.timestamps, windowStart));
      if now > entry.burstResetAt {
        entry := entry.(burstUsed := 0, burstResetAt := now + 60000);
      }
      var baseRemaining := limits.maxPerMinute - |entry.timestamps|;
      if baseRemaining > 0 {
        entry := entry.(timestamps := entry.timestamps + [now]);
        verdict := Verdict(true, 0, baseRemaining - 1);
      } else if entry.burstUsed < limits.maxBurst {
        entry := entry.(burstUsed := entry.burstUsed + 1, timestamps := entry.timestamps + [now]);
        verdict := Verdict(true, 0, 0);
      } else {
        var retryAfterMs := 1000;
        if |entry.timestamps| > 0 && entry.timestamps[0] != 0 {
          retryAfterMs := entry.timestamps[0] + 60000 - now;
        }
        verdict := Verdict(false, if retryAfterMs > 1000 then retryAfterMs else 1000, 0);
      }
      entries := entries[key := entry];
    }

    /** Visits every key in any order. */
    method Cleanup(now: int)
      modifies this
      ensures entries == CleanedAll(old(entries), now)
    {
      var cutoff := now - 120000;
      var todo := entries.Keys;
      while todo != {}
        invariant todo <= entries.Keys
        invariant forall key | key in todo :: EntryOf(entries, key) == EntryOf(old(entries), key)
        invariant forall key | key !in todo :: EntryOf(entries, key) == Cleaned(EntryOf(old(entries), key), now)
        decreases todo
      {
        var key :| key in todo;
        todo := todo - {key};
        var recent := Recent(entries[key].timestamps, cutoff);
        if |recent| == 0 {
          entries := entries - {key};
        } else {
          entries := entries[key := entries[key].(timestamps := recent)];
        }
      }
      SameEntries(entries, CleanedAll(old(entries), now));
    }
  }

  // ----- facts about the window filter -----

  lemma {:induction false} RecentOfRecent(times: seq<int>, a: int, b: int)
    requires a <= b
    ensures Recent(Recent(times, a), b) == Recent(times, b)
  {
    if times != [] {
      RecentOfRecent(times[..|times| - 1], a, b);
      var front := Recent(times[..|times| - 1], a);
      assert (front + [times[|times| - 1]])[..|front|] == front;
    }
  }

  lemma RecentOfPush(times: seq<int>, t: int, start: int)
    ensures Recent(times + [t], start) == if t > start then Recent(times, start) + [t] else Recent(times, start)
  {
    assert (times + [t])[..|times|] == times;
  }

  lemma {:induction false} RecentMembers(times: seq<int>, start: int)
    ensures forall t :: t in Recent(times, start) <==> t in times && t > start
    ensures |Recent(times, start)| <= |times|
  {
    if times != [] {
      RecentMembers(times[..|times| - 1], start);
      assert times == times[..|times| - 1] + [times[|times| - 1]];
    }
  }

  lemma {:induction false} RecentShorter(times: seq<int>, start: int)
    ensures |Recent(times, start)| <= |times|
  {
    if times != [] { RecentShorter(times[..|times| - 1], start); }
  }

  lemma {:induction false} RecentAtMost(times: seq<int>, start: int, now: int)
    requires forall i | 0 <= i < |times| :: times[i] <= now
    ensures forall i | 0 <= i < |Recent(times, start)| :: Recent(times, start)[i] <= now
  {
    if times != [] {
      RecentAtMost(times[..|times| - 1], start, now);
    }
  }

  lemma {:induction false} RecentIsAll(times: seq<int>, start: int)
    requires forall i | 0 <= i < |times| :: times[i] > start
    ensures Recent(times, start) == times
  {
    if times != [] {
      RecentIsAll(times[..|times| - 1], start);
      assert times == times[..|times| - 1] + [times[|times| - 1]];
    }
  }

  lemma {:induction false} RecentIsNone(times: seq<int>, start: int)
    requires forall i | 0 <= i < |times| :: times[i] <= start
    ensures Recent(times, start) == []
  {
    if times != [] {
      RecentIsNone(times[..|times| - 1], start);
    }
  }

  lemma {:induction false} RecentShrinks(times: seq<int>, a: int, b: int)
    requires a <= b
    ensures |Recent(times, b)| <= |Recent(times, a)|
  {
    RecentOfRecent(times, a, b);
    RecentMembers(Recent(times, a), b);
  }

  // ----- runs of one key -----

  datatype Event = Check(now: int) | Cleanup(now: int)

  datatype Decision = Decision(now: int, verdict: Verdict)

  function Run(l: Limits, events: seq<Event>): (Option<Entry>, seq<Decision>) {
    if events == [] then (None, [])
    else
      var (known, log) := Run(l, events[..|events| - 1]);
      match events[|events| - 1]
      case Check(now) =>
        var (e, v) := CheckEntry(l, known, now);
        (Some(e), log + [Decision(now, v)])
      case Cleanup(now) => (Cleaned(known, now), log)
  }

  ghost predicate Nondecreasing(events: seq<Event>) {
    forall i, j | 0 <= i < j < |events| :: events[i].now <= events[j].now
  }

  function ChecksOnly(events: seq<Event>): seq<Event> {
    if events == [] then []
    else
      var front := ChecksOnly(events[..|events| - 1]);
      if events[|events| - 1].Check? then front + [events[|events| - 1]] else front
  }

  function Admitted(log: seq<Decision>): seq<int> {
    if log == [] then []
    else
      var front := Admitted(log[..|log| - 1]);
      if log[|log| - 1].verdict.allowed then front + [log[|log| - 1].now] else front
  }

  /** How many of the times lie in the 60-second window that ends at `end`, its start excluded. */
  function InWindow(times: seq<int>, end: int): nat {
    if times == [] then 0
    else InWindow(times[..|times| - 1], end) + if end - 60000 < times[|times| - 1] <= end then 1 else 0
  }

  // ----- what a verdict announces -----

  /** The entry after `k` checks of a key at one time. */
  function Repeated(l: Limits, known: Option<Entry>, now: int, k: nat): Option<Entry> {
    if k == 0 then known else Some(CheckEntry(l, Repeated(l, known, now, k - 1), now).0)
  }

  /** An entry just checked: nothing to drop, and its burst epoch not over. */
  ghost predicate JustChecked(e: Entry, now: int) {
    Recent(e.timestamps, now - 60000) == e.timestamps && e.burstResetAt >= now
  }

  lemma CheckLeavesChecked(l: Limits, known: Option<Entry>, now: int)
    ensures JustChecked(CheckEntry(l, known, now).0, now)
  {
    var start := match known case Some(e) => e case None => Entry([], 0, now + 60000);
    RecentOfRecent(start.timestamps, now - 60000, now - 60000);
    RecentOfPush(Rolled(start, now).timestamps, now, now - 60000);
  }

  /**
   What remains after an admitted check is exactly how many more checks at the same time the
   per-minute limit admits: so many are admitted without using the burst allowance, and the next
   uses it or is refused.
   */
  lemma {:induction false} RemainingIsExact(l: Limits, known: Option<Entry>, now: int, k: nat)
    requires var v := CheckEntry(l, known, now).1; v.allowed && k <= v.remaining + 1
    ensures var (first, v) := CheckEntry(l, known, now);
            var (e, w) := CheckEntry(l, Repeated(l, known, now, k), now);
            if k <= v.remaining then w.allowed && w.remaining == v.remaining - k && e.burstUsed == first.burstUsed
            else if w.allowed then w.remaining == 0 && e.burstUsed == first.burstUsed + 1
            else e.burstUsed == first.burstUsed
  {
    hide *;
    NothingRepeated(l, known, now);
    FirstRoom(l, known, now);
    if k > 0 {
      var first, v := CheckEntry(l, known, now).0, CheckEntry(l, known, now).1;
      RepeatedChecks(l, known, now, k - 1);
      NextVerdict(l, first, Repeated(l, known, now, k).value, now, v.remaining, k - 1);
    }
  }

  lemma NothingRepeated(l: Limits, known: Option<Entry>, now: int)
    ensures Repeated(l, known, now, 0) == known
  {
  }

  lemma OnceMore(l: Limits, known: Option<Entry>, now: int, k: nat)
    ensures Repeated(l, known, now, k + 1) == Some(CheckEntry(l, Repeated(l, known, now, k), now).0)
  {
  }

  /** The state after `k` more checks, as long as the per-minute limit admits them. */
  ghost predicate StillRoom(l: Limits, first: Entry, e: Entry, now: int, remaining: int, k: nat) {
    && JustChecked(e, now) && e.burstUsed == first.burstUsed
    && (remaining > 0 ==> |e.timestamps| == l.maxPerMinute - remaining + k)
    && (remaining == 0 ==> |e.timestamps| >= l.maxPerMinute)
  }

  lemma FirstRoom(l: Limits, known: Option<Entry>, now: int)
    requires CheckEntry(l, known, now).1.allowed
    ensures var (first, v) := CheckEntry(l, known, now);
            v.remaining >= 0 && StillRoom(l, first, first, now, v.remaining, 0)
  {
    CheckLeavesChecked(l, known, now);
    hide JustChecked, Recent;
  }

  lemma RoomGoesOn(l: Limits, first: Entry, e: Entry, now: int, remaining: int, k: nat)
    requires StillRoom(l, first, e, now, remaining, k) && k < remaining
    ensures StillRoom(l, first, CheckEntry(l, Some(e), now).0, now, remaining, k + 1)
  {
    CheckLeavesChecked(l, Some(e), now);
    NextCheck(l, e, now);
    hide CheckEntry, JustChecked;
  }

  lemma {:induction false} RepeatedChecks(l: Limits, known: Option<Entry>, now: int, k: nat)
    requires CheckEntry(l, known, now).1.allowed && k <= CheckEntry(l, known, now).1.remaining
    ensures Repeated(l, known, now, k + 1).Some?
    ensures StillRoom(l, CheckEntry(l, known, now).0, Repeated(l, known, now, k + 1).value, now,
                      CheckEntry(l, known, now).1.remaining, k)
  {
    hide *;
    OnceMore(l, known, now, k);
    if k == 0 {
      NothingRepeated(l, known, now);
      FirstRoom(l, known, now);
    } else {
      var first, v := CheckEntry(l, known, now).0, CheckEntry(l, known, now).1;
      RepeatedChecks(l, known, now, k - 1);
      RoomGoesOn(l, first, Repeated(l, known, now, k).value, now, v.remaining, k - 1);
    }
  }

  lemma NextVerdict(l: Limits, first: Entry, e: Entry, now: int, remaining: int, k: nat)
    requires StillRoom(l, first, e, now, remaining, k) && k <= remaining
    ensures var (after, w) := CheckEntry(l, Some(e), now);
            if k < remaining then w.allowed && w.remaining == remaining - k - 1 && after.burstUsed == first.burstUsed
            else if w.allowed then w.remaining == 0 && after.burstUsed == first.burstUsed + 1
            else after.burstUsed == first.burstUsed
  {
    NextCheck(l, e, now);
    hide CheckEntry, JustChecked;
  }

  /** A check of an entry checked at the same time drops nothing and resets nothing. */
  lemma NextCheck(l: Limits, e: Entry, now: int)
    requires JustChecked(e, now)
    ensures var (after, v) := CheckEntry(l, Some(e), now);
            if |e.timestamps| < l.maxPerMinute then
              && v.allowed && v.remaining == l.maxPerMinute - |e.timestamps| - 1
              && after.burstUsed == e.burstUsed && |after.timestamps| == |e.timestamps| + 1
            else v.remaining == 0 && after.burstUsed == e.burstUsed + if v.allowed then 1 else 0
  {
    hide Recent;
  }

  ghost predicate Sorted(times: seq<int>) {
    forall i, j | 0 <= i < j < |times| :: times[i] <= times[j]
  }

  lemma {:induction false} RecentDropsFirst(times: seq<int>, start: int)
    requires times != [] && times[0] <= start
    ensures |Recent(times, start)| < |times|
  {
    if |times| > 1 { RecentDropsFirst(times[..|times| - 1], start); }
  }

  lemma {:induction false} RecentSorted(times: seq<int>, start: int)
    requires Sorted(times)
    ensures Sorted(Recent(times, start))
  {
    if times != [] {
      var front := Recent(times[..|times| - 1], start);
      RecentSorted(times[..|times| - 1], start);
      RecentMembers(times[..|times| - 1], start);
      assert forall i | 0 <= i < |front| :: front[i] in front;
    }
  }

  /** In order, and not after `now`. */
  ghost predicate InOrder(times: seq<int>, now: int) {
    Sorted(times) && forall i | 0 <= i < |times| :: times[i] <= now
  }

  lemma RecentInOrder(times: seq<int>, start: int, now: int)
    requires InOrder(times, now)
    ensures InOrder(Recent(times, start), now) && InOrder(Recent(times, start) + [now], now)
  {
    RecentSorted(times, start);
    RecentAtMost(times, start, now);
  }

  lemma StepInOrder(l: Limits, known: Option<Entry>, now: int)
    requires known.Some? ==> InOrder(known.value.timestamps, now)
    ensures InOrder(CheckEntry(l, known, now).0.timestamps, now)
    ensures Cleaned(known, now).Some? ==> InOrder(Cleaned(known, now).value.timestamps, now)
  {
    var times := match known case None => [] case Some(e) => e.timestamps;
    RecentInOrder(times, now - 60000, now);
    RecentInOrder(times, now - 120000, now);
    hide Recent, InOrder;
  }

  lemma {:induction false} RunInOrder(l: Limits, events: seq<Event>, t: int)
    requires Nondecreasing(events) && forall i | 0 <= i < |events| :: events[i].now <= t
    ensures Run(l, events).0.Some? ==> InOrder(Run(l, events).0.value.timestamps, t)
  {
    if events != [] {
      var front, last := events[..|events| - 1], events[|events| - 1];
      RunInOrder(l, front, last.now);
      StepInOrder(l, Run(l, front).0, last.now);
      hide CheckEntry, Cleaned;
    }
  }

  /**
   After any run with a clock that does not go back: when a refusal asks for more than the second it
   always asks for, every check before that time is refused too while the burst epoch lasts; and if
   the per-minute limit alone fills the window, a check at that time is admitted.
   */
  lemma RetryIsFirstChance(l: Limits, events: seq<Event>, now: int, t: int)
    requires Nondecreasing(events) && forall i | 0 <= i < |events| :: events[i].now <= now
    requires var v := CheckEntry(l, Run(l, events).0, now).1; !v.allowed && v.retryAfterMs > 1000
    requires now <= t <= CheckEntry(l, Run(l, events).0, now).0.burstResetAt
    ensures var (e, v) := CheckEntry(l, Run(l, events).0, now);
            var later := CheckEntry(l, Some(e), t).1;
            && (t < now + v.retryAfterMs ==> !later.allowed)
            && (t == now + v.retryAfterMs && |e.timestamps| == l.maxPerMinute ==> later.allowed)
  {
    hide *;
    var known := Run(l, events).0;
    RunInOrder(l, events, now);
    StepInOrder(l, known, now);
    RefusedUntil(l, known, now, t);
  }

  lemma RefusedUntil(l: Limits, known: Option<Entry>, now: int, t: int)
    requires InOrder(CheckEntry(l, known, now).0.timestamps, now)
    requires var v := CheckEntry(l, known, now).1; !v.allowed && v.retryAfterMs > 1000
    requires now <= t <= CheckEntry(l, known, now).0.burstResetAt
    ensures var (e, v) := CheckEntry(l, known, now);
            var later := CheckEntry(l, Some(e), t).1;
            && (t < now + v.retryAfterMs ==> !later.allowed)
            && (t == now + v.retryAfterMs && |e.timestamps| == l.maxPerMinute ==> later.allowed)
  {
    Refusal(l, known, now);
    hide *;
    var (e, v) := CheckEntry(l, known, now);
    if t < now + v.retryAfterMs {
      StillFull(l, e, now, t);
    } else if t == now + v.retryAfterMs {
      OneLess(l, e, now, t);
    }
  }

  lemma StillFull(l: Limits, e: Entry, now: int, t: int)
    requires InOrder(e.timestamps, now) && e.timestamps != [] && now <= t <= e.burstResetAt
    requires t < e.timestamps[0] + 60000 && |e.timestamps| >= l.maxPerMinute && e.burstUsed >= l.maxBurst
    ensures !CheckEntry(l, Some(e), t).1.allowed
  {
    FirstIsOldest(e.timestamps, now, t - 60000);
    RecentIsAll(e.timestamps, t - 60000);
    hide Recent, InOrder;
  }

  lemma FirstIsOldest(times: seq<int>, now: int, start: int)
    requires InOrder(times, now) && times != [] && start < times[0]
    ensures forall i | 0 <= i < |times| :: times[i] > start
  {
    forall i | 0 <= i < |times| ensures times[i] > start { assert i > 0 ==> times[0] <= times[i]; }
  }

  lemma OneLess(l: Limits, e: Entry, now: int, t: int)
    requires e.timestamps != [] && now <= t <= e.burstResetAt && t == e.timestamps[0] + 60000
    ensures |e.timestamps| == l.maxPerMinute ==> CheckEntry(l, Some(e), t).1.allowed
  {
    RecentDropsFirst(e.timestamps, t - 60000);
    hide Recent;
  }

  lemma Refusal(l: Limits, known: Option<Entry>, now: int)
    requires var v := CheckEntry(l, known, now).1; !v.allowed && v.retryAfterMs > 1000
    ensures var (e, v) := CheckEntry(l, known, now);
            && e.timestamps != [] && now + v.retryAfterMs == e.timestamps[0] + 60000
            && |e.timestamps| >= l.maxPerMinute && e.burstUsed >= l.maxBurst
  {
  }

  /** A refusal always asks for at least a second, an admitted check for no wait. */
  lemma RetryAtLeast(l: Limits, known: Option<Entry>, now: int)
    ensures var v := CheckEntry(l, known, now).1; if v.allowed then v.retryAfterMs == 0 else v.retryAfterMs >= 1000
  {
  }

  /**
   What is forgotten when: a check drops what is a minute old, a cleanup what is two minutes old, and
   the whole entry when nothing younger is left; a check adds its time exactly when it is admitted.
   */
  lemma ForgottenExactly(l: Limits, known: Option<Entry>, now: int)
    ensures var (e, v) := CheckEntry(l, known, now);
            forall t :: t in e.timestamps <==>
              (known.Some? && t in known.value.timestamps && t > now - 60000) || (v.allowed && t == now)
    ensures var after := Cleaned(known, now);
            && (after.Some? <==> known.Some? && exists t :: t in known.value.timestamps && t > now - 120000)
            && (after.Some? ==>
                  && after.value.burstUsed == known.value.burstUsed
                  && after.value.burstResetAt == known.value.burstResetAt
                  && forall t :: t in after.value.timestamps <==> t in known.value.timestamps && t > now - 120000)
  {
    CheckForgets(l, known, now);
    if known.Some? { CleanupForgets(known.value, now); }
    hide Recent, CheckEntry;
  }

  lemma CheckForgets(l: Limits, known: Option<Entry>, now: int)
    ensures var (e, v) := CheckEntry(l, known, now);
            forall t :: t in e.timestamps <==>
              (known.Some? && t in known.value.timestamps && t > now - 60000) || (v.allowed && t == now)
  {
    if known.Some? { RecentMembers(known.value.timestamps, now - 60000); }
    hide RetryAfter;
  }

  lemma CleanupForgets(e: Entry, now: int)
    ensures var recent := Recent(e.timestamps, now - 120000);
            && (recent == [] <==> !exists t :: t in e.timestamps && t > now - 120000)
            && forall t :: t in recent <==> t in e.timestamps && t > now - 120000
  {
    RecentMembers(e.timestamps, now - 120000);
    hide Recent;
    var recent := Recent(e.timestamps, now - 120000);
    if recent == [] {
      assert forall t :: t !in recent;
    } else {
      assert recent[0] in recent;
      assert recent[0] in e.timestamps && recent[0] > now - 120000;
    }
  }

  // ----- the admission bound -----

  /** What a check leaves behind, in terms of everything admitted so far. */
  ghost predicate Accounted(l: Limits, e: Entry, admitted: seq<int>, now: int) {
    && e.timestamps == Recent(admitted, now - 60000)
    && 0 <= e.burstUsed <= Pos(l.maxBurst)
    && |e.timestamps| <= Pos(l.maxPerMinute) + Pos(l.maxBurst) + e.burstUsed
    && |Recent(e.timestamps, e.burstResetAt - 60000)| <= Pos(l.maxPerMinute) + e.burstUsed
    && e.burstResetAt <= now + 60000
    && forall i | 0 <= i < |admitted| :: admitted[i] <= now
  }

  lemma RollAccounted(l: Limits, e: Entry, admitted: seq<int>, before: int, now: int)
    requires Accounted(l, e, admitted, before) && before <= now
    ensures Accounted(l, Rolled(e, now), admitted, now)
  {
    RecentOfRecent(admitted, before - 60000, now - 60000);
    if now > e.burstResetAt {
      ResetAccounted(l, e, admitted, before, now);
    } else {
      RollingAccounted(l, e, admitted, before, now);
    }
  }

  lemma RollingAccounted(l: Limits, e: Entry, admitted: seq<int>, before: int, now: int)
    requires Accounted(l, e, admitted, before) && before <= now
    requires Recent(e.timestamps, now - 60000) == Recent(admitted, now - 60000)
    ensures Accounted(l, e.(timestamps := Recent(e.timestamps, now - 60000)), admitted, now)
  {
    hide Recent;
    RecentShorter(e.timestamps, now - 60000);
    InnerRecentShorter(e.timestamps, now - 60000, e.burstResetAt - 60000);
  }

  lemma InnerRecentShorter(times: seq<int>, a: int, b: int)
    ensures |Recent(Recent(times, a), b)| <= |Recent(times, b)|
  {
    if a <= b {
      RecentOfRecent(times, a, b);
    } else {
      RecentShorter(Recent(times, a), b);
      RecentShrinks(times, b, a);
    }
  }

  /** An expired burst epoch leaves at most what was admitted during it in the window. */
  lemma ResetAccounted(l: Limits, e: Entry, admitted: seq<int>, before: int, now: int)
    requires Accounted(l, e, admitted, before) && before <= now && now > e.burstResetAt
    requires Recent(e.timestamps, now - 60000) == Recent(admitted, now - 60000)
    ensures Accounted(l, Entry(Recent(e.timestamps, now - 60000), 0, now + 60000), admitted, now)
  {
    hide Recent;
    RecentShrinks(e.timestamps, e.burstResetAt - 60000, now - 60000);
    RecentAtMost(admitted, now - 60000, now);
    RecentIsNone(Recent(admitted, now - 60000), now);
  }

  lemma AdmitAccounted(l: Limits, e: Entry, admitted: seq<int>, now: int, burst: nat)
    requires Accounted(l, e, admitted, now)
    requires if burst == 0 then |e.timestamps| < l.maxPerMinute else burst == 1 && e.burstUsed < l.maxBurst
    ensures Accounted(l, Entry(e.timestamps + [now], e.burstUsed + burst, e.burstResetAt), admitted + [now], now)
  {
    RecentOfPush(admitted, now, now - 60000);
    RecentOfPush(e.timestamps, now, e.burstResetAt - 60000);
    RecentMembers(e.timestamps, e.burstResetAt - 60000);
  }

  lemma StepAccounted(l: Limits, e: Entry, admitted: seq<int>, before: int, now: int)
    requires Accounted(l, e, admitted, before) && before <= now
    ensures var (e', v) := CheckEntry(l, Some(e), now);
            Accounted(l, e', if v.allowed then admitted + [now] else admitted, now)
  {
    hide Accounted, Recent;
    RollAccounted(l, e, admitted, before, now);
    var r := Rolled(e, now);
    if l.maxPerMinute - |r.timestamps| > 0 {
      AdmitAccounted(l, r, admitted, now, 0);
    } else if r.burstUsed < l.maxBurst {
      AdmitAccounted(l, r, admitted, now, 1);
    }
  }

  function Trimmed(e: Entry, start: int): Entry {
    e.(timestamps := Recent(e.timestamps, start))
  }

  /**
   What any event at time `t` leaves behind; an entry that a cleanup removed had nothing in
   the window any more.
   */
  ghost predicate KnownAccounted(l: Limits, known: Option<Entry>, admitted: seq<int>, t: int) {
    match known
    case None => Recent(admitted, t - 60000) == [] && forall i | 0 <= i < |admitted| :: admitted[i] <= t
    case Some(e) => Accounted(l, Trimmed(e, t - 60000), admitted, t)
  }

  lemma KnownLater(l: Limits, known: Option<Entry>, admitted: seq<int>, t: int, now: int)
    requires KnownAccounted(l, known, admitted, t) && t <= now
    ensures KnownAccounted(l, known, admitted, now)
  {
    RecentOfRecent(admitted, t - 60000, now - 60000);
    if known.Some? {
      RecentOfRecent(known.value.timestamps, t - 60000, now - 60000);
      RollingAccounted(l, Trimmed(known.value, t - 60000), admitted, t, now);
    }
  }

  function StartOf(known: Option<Entry>, now: int): Entry {
    match known case Some(e) => e case None => Entry([], 0, now + 60000)
  }

  /** A check trims first, so what left the window does not matter to it. */
  lemma TrimFirst(l: Limits, known: Option<Entry>, now: int)
    ensures CheckEntry(l, known, now) == CheckEntry(l, Some(Trimmed(StartOf(known, now), now - 60000)), now)
    ensures var e := CheckEntry(l, known, now).0; Trimmed(e, now - 60000) == e
  {
    var e := StartOf(known, now);
    RecentOfRecent(e.timestamps, now - 60000, now - 60000);
    var r := Recent(e.timestamps, now - 60000);
    RecentOfPush(r, now, now - 60000);
    hide Recent;
  }

  lemma StartAccounted(l: Limits, known: Option<Entry>, admitted: seq<int>, now: int)
    requires KnownAccounted(l, known, admitted, now)
    ensures Accounted(l, Trimmed(StartOf(known, now), now - 60000), admitted, now)
  {
  }

  lemma KnownCheck(l: Limits, known: Option<Entry>, admitted: seq<int>, now: int)
    requires KnownAccounted(l, known, admitted, now)
    ensures var (e, v) := CheckEntry(l, known, now);
            KnownAccounted(l, Some(e), if v.allowed then admitted + [now] else admitted, now)
  {
    StartAccounted(l, known, admitted, now);
    hide Accounted, Recent, CheckEntry, StartOf;
    StepAccounted(l, Trimmed(StartOf(known, now), now - 60000), admitted, now, now);
    TrimFirst(l, known, now);
  }

  lemma KnownCleanup(l: Limits, known: Option<Entry>, admitted: seq<int>, now: int)
    requires KnownAccounted(l, known, admitted, now)
    ensures KnownAccounted(l, Cleaned(known, now), admitted, now)
  {
    if known.Some? {
      RecentOfRecent(known.value.timestamps, now - 120000, now - 60000);
      assert Recent([], now - 60000) == [];
    }
  }

  lemma AdmittedPush(log: seq<Decision>, d: Decision)
    ensures Admitted(log + [d]) == if d.verdict.allowed then Admitted(log) + [d.now] else Admitted(log)
  {
    assert (log + [d])[..|log|] == log;
  }

  /** After any run of checks and cleanups the entry accounts for everything admitted. */
  lemma {:induction false} RunAccounted(l: Limits, events: seq<Event>, t: int)
    requires Nondecreasing(events) && forall i | 0 <= i < |events| :: events[i].now <= t
    ensures KnownAccounted(l, Run(l, events).0, Admitted(Run(l, events).1), t)
  {
    if events == [] {
      NothingAdmitted();
    } else {
      hide KnownAccounted, Recent, Admitted, CheckEntry, Cleaned;
      var front, now := events[..|events| - 1], events[|events| - 1].now;
      RunAccounted(l, front, now);
      var (known, log) := Run(l, front);
      if events[|events| - 1].Check? {
        AdmittedPush(log, Decision(now, CheckEntry(l, known, now).1));
        KnownCheck(l, known, Admitted(log), now);
      } else {
        KnownCleanup(l, known, Admitted(log), now);
      }
      KnownLater(l, Run(l, events).0, Admitted(Run(l, events).1), now, t);
    }
  }

  lemma NothingAdmitted()
    ensures Admitted([]) == []
  {
  }

  lemma {:induction false} WindowAtMostRecent(times: seq<int>, t: int, end: int)
    requires t <= end
    ensures InWindow(times, end) <= |Recent(times, t - 60000)|
  {
    if times != [] {
      WindowAtMostRecent(times[..|times| - 1], t, end);
    }
  }

  /**
   In every 60-second window at most the per-minute limit plus twice the burst allowance is
   admitted, cleanups or not: a window meets at most two burst epochs.
   */
  lemma {:induction false} WindowBound(l: Limits, events: seq<Event>, end: int)
    requires Nondecreasing(events)
    ensures InWindow(Admitted(Run(l, events).1), end) <= Pos(l.maxPerMinute) + 2 * Pos(l.maxBurst)
  {
    if events == [] {
      NothingAdmitted();
    } else {
      var front, now := events[..|events| - 1], events[|events| - 1].now;
      WindowBound(l, front, end);
      var (known, log) := Run(l, front);
      RunAccounted(l, front, now);
      if events[|events| - 1].Check? {
        var before, d := Admitted(log), Decision(now, CheckEntry(l, known, now).1);
        AdmittedPush(log, d);
        WindowStep(l, known, before, now, end);
      }
    }
  }

  /** After an admitted check the entry's timestamps are all that was admitted in the last minute. */
  lemma CheckLeavesRecent(l: Limits, known: Option<Entry>, admitted: seq<int>, now: int)
    requires KnownAccounted(l, known, admitted, now) && CheckEntry(l, known, now).1.allowed
    ensures CheckEntry(l, known, now).0.timestamps == Recent(admitted + [now], now - 60000)
    ensures |Recent(admitted + [now], now - 60000)| <= Pos(l.maxPerMinute) + 2 * Pos(l.maxBurst)
  {
    KnownCheck(l, known, admitted, now);
    TrimFirst(l, known, now);
    hide CheckEntry, Recent;
  }

  lemma WindowStep(l: Limits, known: Option<Entry>, admitted: seq<int>, now: int, end: int)
    requires KnownAccounted(l, known, admitted, now)
    requires InWindow(admitted, end) <= Pos(l.maxPerMinute) + 2 * Pos(l.maxBurst)
    ensures CheckEntry(l, known, now).1.allowed
            ==> InWindow(admitted + [now], end) <= Pos(l.maxPerMinute) + 2 * Pos(l.maxBurst)
  {
    assert (admitted + [now])[..|admitted|] == admitted;
    hide CheckEntry, Recent, KnownAccounted;
    if CheckEntry(l, known, now).1.allowed && end - 60000 < now <= end {
      CheckLeavesRecent(l, known, admitted, now);
      WindowAtMostRecent(admitted + [now], now, end);
    }
  }

  // ----- the bound is attained -----

  function Times(n: nat, t: int): (r: seq<int>)
    ensures |r| == n && forall i | 0 <= i < n :: r[i] == t
  {
    if n == 0 then [] else Times(n - 1, t) + [t]
  }

  function Checks(n: nat, t: int): (r: seq<Event>)
    ensures |r| == n && forall i | 0 <= i < n :: r[i] == Check(t)
  {
    if n == 0 then [] else Checks(n - 1, t) + [Check(t)]
  }

  /** The most that a window can admit: without a per-minute allowance the first admission of an epoch is its start. */
  function MostAdmitted(l: Limits): nat {
    if l.maxPerMinute >= 1 || l.maxBurst <= 0 then Pos(l.maxPerMinute) + 2 * Pos(l.maxBurst) else 2 * l.maxBurst - 1
  }

  /** Limits under which a first check is admitted. */
  predicate Admits(l: Limits) {
    l.maxBurst >= 0 && (l.maxPerMinute >= 1 || l.maxBurst >= 1)
  }

  /** How much burst allowance the very first check uses, and how many more the first epoch admits. */
  function FirstUse(l: Limits): nat {
    if l.maxPerMinute >= 1 then 0 else 1
  }

  function FirstLeft(l: Limits): nat
    requires Admits(l)
  {
    Pos(l.maxPerMinute) + l.maxBurst - FirstUse(l)
  }

  /** One check just in time to fix the burst epoch, then everything the limits allow around its end. */
  function TightRun(l: Limits): seq<Event>
    requires Admits(l)
  {
    [Check(1)] + Checks(FirstLeft(l), 60001) + Checks(l.maxBurst, 60002)
  }

  lemma RunPush(l: Limits, events: seq<Event>, now: int)
    ensures var (known, log) := Run(l, events);
            var (e, v) := CheckEntry(l, known, now);
            && Run(l, events + [Check(now)]) == (Some(e), log + [Decision(now, v)])
            && Admitted(Run(l, events + [Check(now)]).1) == if v.allowed then Admitted(log) + [now] else Admitted(log)
  {
    assert (events + [Check(now)])[..|events|] == events;
    var (known, log) := Run(l, events);
    var (e, v) := CheckEntry(l, known, now);
    AdmittedPush(log, Decision(now, v));
  }

  /** The entry after `k` of the checks at the end of the first epoch. */
  function FirstEntry(l: Limits, k: nat): Entry {
    Entry(if k == 0 then [1] else Times(k, 60001), FirstUse(l) + Pos(k - Pos(l.maxPerMinute)), 60001)
  }

  lemma TightFirstStep(l: Limits, k: nat)
    requires Admits(l) && 1 <= k <= FirstLeft(l)
    ensures var (e, v) := CheckEntry(l, Some(FirstEntry(l, k - 1)), 60001);
            v.allowed && e == FirstEntry(l, k)
  {
    RecentIsNone([1], 1);
    RecentIsAll(Times(k - 1, 60001), 1);
  }

  lemma TightStart(l: Limits)
    requires Admits(l)
    ensures Run(l, [Check(1)]).0 == Some(FirstEntry(l, 0)) && Admitted(Run(l, [Check(1)]).1) == [1]
  {
    RunPush(l, [], 1);
    assert [] + [Check(1)] == [Check(1)];
    NothingAdmitted();
    assert Run(l, []) == (None, []);
    assert Rolled(Entry([], 0, 60001), 1) == Entry([], 0, 60001);
    assert [] + [1] == [1];
  }

  lemma {:induction false} TightFirstBurst(l: Limits, k: nat)
    requires Admits(l) && k <= FirstLeft(l)
    ensures var (known, log) := Run(l, [Check(1)] + Checks(k, 60001));
            Admitted(log) == [1] + Times(k, 60001) && known == Some(FirstEntry(l, k))
  {
    hide Run, CheckEntry, Admitted, Recent, FirstEntry;
    if k == 0 {
      TightStart(l);
      assert [Check(1)] + Checks(0, 60001) == [Check(1)];
      assert [1] + Times(0, 60001) == [1];
    } else {
      TightFirstBurst(l, k - 1);
      var before := [Check(1)] + Checks(k - 1, 60001);
      RunPush(l, before, 60001);
      TightFirstStep(l, k);
      assert before + [Check(60001)] == [Check(1)] + Checks(k, 60001);
      assert [1] + Times(k - 1, 60001) + [60001] == [1] + Times(k, 60001);
    }
  }

  /** The entry after `k` of the checks at the start of the second epoch. */
  function SecondEntry(l: Limits, k: nat): Entry
    requires Admits(l)
  {
    if k == 0 then FirstEntry(l, FirstLeft(l)) else Entry(Times(FirstLeft(l), 60001) + Times(k, 60002), k, 120002)
  }

  lemma TightSecondStep(l: Limits, k: nat)
    requires Admits(l) && 1 <= k <= l.maxBurst
    ensures var (e, v) := CheckEntry(l, Some(SecondEntry(l, k - 1)), 60002);
            v.allowed && e == SecondEntry(l, k)
  {
    var n := FirstLeft(l);
    var times := Times(n, 60001) + Times(k - 1, 60002);
    RecentIsAll(times, 2);
    RecentIsNone([1], 2);
    assert k == 1 ==> times == Times(n, 60001);
    assert times + [60002] == Times(n, 60001) + Times(k, 60002);
    hide Recent;
  }

  lemma {:induction false} TightSecondBurst(l: Limits, k: nat)
    requires Admits(l) && k <= l.maxBurst
    ensures var n := FirstLeft(l);
            var (known, log) := Run(l, [Check(1)] + Checks(n, 60001) + Checks(k, 60002));
            Admitted(log) == [1] + Times(n, 60001) + Times(k, 60002) && known == Some(SecondEntry(l, k))
  {
    hide Run, CheckEntry, Admitted, Recent, FirstEntry;
    var n := FirstLeft(l);
    if k == 0 {
      TightFirstBurst(l, n);
      assert [Check(1)] + Checks(n, 60001) + Checks(0, 60002) == [Check(1)] + Checks(n, 60001);
      assert [1] + Times(n, 60001) + Times(0, 60002) == [1] + Times(n, 60001);
    } else {
      TightSecondBurst(l, k - 1);
      var before := [Check(1)] + Checks(n, 60001) + Checks(k - 1, 60002);
      RunPush(l, before, 60002);
      TightSecondStep(l, k);
      hide SecondEntry;
      assert before + [Check(60002)] == [Check(1)] + Checks(n, 60001) + Checks(k, 60002);
      assert [1] + Times(n, 60001) + Times(k - 1, 60002) + [60002] == [1] + Times(n, 60001) + Times(k, 60002);
    }
  }

  lemma {:induction false} AllInWindow(times: seq<int>, end: int)
    requires forall i | 0 <= i < |times| :: end - 60000 < times[i] <= end
    ensures InWindow(times, end) == |times|
  {
    if times != [] { AllInWindow(times[..|times| - 1], end); }
  }

  lemma {:induction false} WindowOfConcat(a: seq<int>, b: seq<int>, end: int)
    ensures InWindow(a + b, end) == InWindow(a, end) + InWindow(b, end)
  {
    if b == [] {
      assert a + b == a;
    } else {
      WindowOfConcat(a, b[..|b| - 1], end);
      assert (a + b)[..|a + b| - 1] == a + b[..|b| - 1];
    }
  }

  /** Whenever a first check is admitted, this run fills a window. */
  lemma BoundIsAttained(l: Limits)
    requires Admits(l)
    ensures Nondecreasing(TightRun(l)) && forall i | 0 <= i < |TightRun(l)| :: TightRun(l)[i].Check?
    ensures InWindow(Admitted(Run(l, TightRun(l)).1), 60002) == MostAdmitted(l)
  {
    hide Run, Admitted, CheckEntry, Recent;
    TightSecondBurst(l, l.maxBurst);
    TightTimes(FirstLeft(l), l.maxBurst);
  }

  lemma TightTimes(n: nat, b: nat)
    ensures InWindow([1] + Times(n, 60001) + Times(b, 60002), 60002) == n + b
  {
    var late := Times(n, 60001) + Times(b, 60002);
    AllInWindow(late, 60002);
    assert [1] + Times(n, 60001) + Times(b, 60002) == [1] + late;
    WindowOfConcat([1], late, 60002);
    assert InWindow([1], 60002) == 0;
  }

  /**
   Without a per-minute allowance the first admission of a burst epoch starts it, so a window
   cannot hold two whole epochs.
   */
  ghost predicate Sparse(l: Limits, e: Entry) {
    && 1 <= e.burstUsed <= l.maxBurst
    && |e.timestamps| <= l.maxBurst - 1 + e.burstUsed
    && |Recent(e.timestamps, e.burstResetAt - 60000)| <= e.burstUsed - 1
  }

  ghost predicate NotAfter(times: seq<int>, t: int) {
    forall i | 0 <= i < |times| :: times[i] <= t
  }

  ghost predicate KnownSparse(l: Limits, known: Option<Entry>, t: int) {
    known.Some? ==> Sparse(l, Trimmed(known.value, t - 60000)) && NotAfter(known.value.timestamps, t)
  }

  lemma SparseShorter(l: Limits, e: Entry, start: int)
    requires Sparse(l, e)
    ensures Sparse(l, Trimmed(e, start))
  {
    RecentShorter(e.timestamps, start);
    InnerRecentShorter(e.timestamps, start, e.burstResetAt - 60000);
  }

  lemma SparseLater(l: Limits, known: Option<Entry>, t: int, now: int)
    requires KnownSparse(l, known, t) && t <= now
    ensures KnownSparse(l, known, now)
  {
    if known.Some? {
      RecentOfRecent(known.value.timestamps, t - 60000, now - 60000);
      hide Recent;
      SparseShorter(l, Trimmed(known.value, t - 60000), now - 60000);
    }
  }

  lemma SparseCleanup(l: Limits, known: Option<Entry>, now: int)
    requires KnownSparse(l, known, now)
    ensures KnownSparse(l, Cleaned(known, now), now)
  {
    if known.Some? {
      RecentOfRecent(known.value.timestamps, now - 120000, now - 60000);
      RecentAtMost(known.value.timestamps, now - 120000, now);
      hide Recent;
    }
  }

  /** Before an admission: the epoch may just have begun. */
  ghost predicate Rolling(l: Limits, e: Entry, now: int) {
    && 0 <= e.burstUsed <= l.maxBurst && (e.burstUsed == 0 ==> e.burstResetAt == now + 60000)
    && |e.timestamps| <= l.maxBurst - 1 + e.burstUsed
    && |Recent(e.timestamps, e.burstResetAt - 60000)| <= Pos(e.burstUsed - 1)
  }

  lemma SparseRoll(l: Limits, start: Entry, now: int)
    requires l.maxPerMinute <= 0 && l.maxBurst >= 1
    requires Trimmed(start, now - 60000) == start && NotAfter(start.timestamps, now)
    requires Sparse(l, start) || start == Entry([], 0, now + 60000)
    ensures Rolling(l, Rolled(start, now), now) && Rolled(start, now).timestamps == start.timestamps
  {
    if now > start.burstResetAt {
      RecentShrinks(start.timestamps, start.burstResetAt - 60000, now - 60000);
      RecentIsNone(start.timestamps, now);
      assert Recent(start.timestamps, now - 60000) == start.timestamps;
    } else {
      assert Recent(start.timestamps, now - 60000) == start.timestamps;
    }
  }

  lemma SparseAdmit(l: Limits, start: Entry, now: int)
    requires l.maxPerMinute <= 0 && l.maxBurst >= 1
    requires Rolling(l, Rolled(start, now), now) && NotAfter(Rolled(start, now).timestamps, now)
    ensures var e := CheckEntry(l, Some(start), now).0;
            Sparse(l, e) && NotAfter(e.timestamps, now)
  {
    var r := Rolled(start, now);
    RecentOfPush(r.timestamps, now, r.burstResetAt - 60000);
    hide Recent, Rolled, RetryAfter;
  }

  lemma SparseCheck(l: Limits, known: Option<Entry>, now: int)
    requires l.maxPerMinute <= 0 && l.maxBurst >= 1 && KnownSparse(l, known, now)
    ensures SparseAfter(l, known, now)
  {
    TrimFirst(l, known, now);
    var start := Trimmed(StartOf(known, now), now - 60000);
    RecentAtMost(StartOf(known, now).timestamps, now - 60000, now);
    hide CheckEntry, Sparse, Rolled, Rolling, Recent;
    SparseRoll(l, start, now);
    SparseAdmit(l, start, now);
  }

  ghost predicate SparseAfter(l: Limits, known: Option<Entry>, now: int) {
    var e := CheckEntry(l, known, now).0;
    Sparse(l, e) && KnownSparse(l, Some(e), now)
  }

  lemma {:induction false} RunSparse(l: Limits, events: seq<Event>, t: int)
    requires l.maxPerMinute <= 0 && l.maxBurst >= 1
    requires Nondecreasing(events) && forall i | 0 <= i < |events| :: events[i].now <= t
    ensures KnownSparse(l, Run(l, events).0, t)
  {
    if events != [] {
      hide KnownSparse, Recent, CheckEntry, Cleaned;
      var front, now := events[..|events| - 1], events[|events| - 1].now;
      RunSparse(l, front, now);
      var known := Run(l, front).0;
      if events[|events| - 1].Check? { SparseCheck(l, known, now); } else { SparseCleanup(l, known, now); }
      SparseLater(l, Run(l, events).0, now, t);
    }
  }

  /** Without a per-minute allowance one admission fewer fits into a window. */
  lemma {:induction false} BurstOnlyBound(l: Limits, events: seq<Event>, end: int)
    requires l.maxPerMinute <= 0 && l.maxBurst >= 1 && Nondecreasing(events)
    ensures InWindow(Admitted(Run(l, events).1), end) < 2 * l.maxBurst
  {
    if events == [] {
      NothingAdmitted();
    } else {
      var front, now := events[..|events| - 1], events[|events| - 1].now;
      BurstOnlyBound(l, front, end);
      var (known, log) := Run(l, front);
      RunAccounted(l, front, now);
      RunSparse(l, front, now);
      if events[|events| - 1].Check? {
        AdmittedPush(log, Decision(now, CheckEntry(l, known, now).1));
        BurstOnlyStep(l, known, Admitted(log), now, end);
      }
    }
  }

  lemma BurstOnlyStep(l: Limits, known: Option<Entry>, admitted: seq<int>, now: int, end: int)
    requires l.maxPerMinute <= 0 && l.maxBurst >= 1
    requires KnownAccounted(l, known, admitted, now) && KnownSparse(l, known, now)
    requires InWindow(admitted, end) < 2 * l.maxBurst
    ensures CheckEntry(l, known, now).1.allowed ==> InWindow(admitted + [now], end) < 2 * l.maxBurst
  {
    assert (admitted + [now])[..|admitted|] == admitted;
    SparseCheck(l, known, now);
    hide CheckEntry, Recent, KnownAccounted, KnownSparse;
    if CheckEntry(l, known, now).1.allowed && end - 60000 < now <= end {
      CheckLeavesRecent(l, known, admitted, now);
      WindowAtMostRecent(admitted + [now], now, end);
    }
  }

  /** A negative burst allowance is none. */
  lemma {:induction false} NegativeBurst(l: Limits, events: seq<Event>)
    requires l.maxBurst < 0
    ensures Run(l, events) == Run(l.(maxBurst := 0), events)
    ensures Run(l, events).0.Some? ==> Run(l, events).0.value.burstUsed >= 0
  {
    if events != [] {
      NegativeBurst(l, events[..|events| - 1]);
    }
  }

  ghost predicate Attains(l: Limits, events: seq<Event>, end: int, count: nat) {
    Nondecreasing(events) && InWindow(Admitted(Run(l, events).1), end) == count
  }

  /** Some window of some run admits this many. */
  ghost predicate CanAdmit(l: Limits, count: nat) {
    exists events, end :: Attains(l, events, end, count)
  }

  /** The most any window of any run admits, and some window of some run does. */
  lemma WindowMaximum(l: Limits)
    ensures forall events, end | Nondecreasing(events) :: InWindow(Admitted(Run(l, events).1), end) <= MostAdmitted(l)
    ensures CanAdmit(l, MostAdmitted(l))
  {
    forall events, end | Nondecreasing(events) ensures InWindow(Admitted(Run(l, events).1), end) <= MostAdmitted(l) {
      WindowBound(l, events, end);
      if l.maxPerMinute <= 0 && l.maxBurst >= 1 { BurstOnlyBound(l, events, end); }
    }
    hide Run, InWindow, Admitted, Nondecreasing;
    SomeRunAttains(l);
  }

  lemma SomeRunAttains(l: Limits)
    ensures CanAdmit(l, MostAdmitted(l))
  {
    var rounded := l.(maxBurst := Pos(l.maxBurst));
    if Admits(rounded) {
      BoundIsAttained(rounded);
      if l.maxBurst < 0 { NegativeBurst(l, TightRun(rounded)); }
      assert Attains(l, TightRun(rounded), 60002, MostAdmitted(l));
    } else {
      NothingAdmitted();
      assert Attains(l, [], 0, MostAdmitted(l));
    }
  }

  /** Some run reaches the bound exactly when there is a per-minute allowance, or no burst allowance. */
  lemma BoundIsTight(l: Limits)
    ensures CanAdmit(l, Pos(l.maxPerMinute) + 2 * Pos(l.maxBurst)) <==> (l.maxPerMinute >= 1 || l.maxBurst <= 0)
  {
    WindowMaximum(l);
    hide Run, InWindow, Admitted, Nondecreasing;
    var bound := Pos(l.maxPerMinute) + 2 * Pos(l.maxBurst);
    if CanAdmit(l, bound) {
      var events, end :| Attains(l, events, end, bound);
      assert InWindow(Admitted(Run(l, events).1), end) <= MostAdmitted(l);
    }
  }

  // ----- cleanup is invisible -----

  /** No later check can tell the two states apart. */
  ghost predicate SameFrom(l: Limits, a: Option<Entry>, b: Option<Entry>, t: int) {
    forall now | now >= t :: CheckEntry(l, a, now) == CheckEntry(l, b, now)
  }

  /** Some admission is recent enough that idling until removal also outlasts the burst epoch. */
  ghost predicate BurstEndsFirst(known: Option<Entry>) {
    known.Some? ==> exists i ::
      0 <= i < |known.value.timestamps| && known.value.timestamps[i] + 120000 > known.value.burstResetAt
  }

  lemma CheckMakesBurstEndFirst(l: Limits, known: Option<Entry>, t: int, now: int)
    requires l.maxPerMinute >= 1 && t <= now
    requires known.Some? ==> known.value.burstResetAt <= t + 60000
    ensures BurstEndsFirst(Some(CheckEntry(l, known, now).0)) && CheckEntry(l, known, now).0.burstResetAt <= now + 60000
  {
    var (e, v) := CheckEntry(l, known, now);
    if v.allowed {
      assert e.timestamps[|e.timestamps| - 1] == now;
    } else {
      var times := known.value.timestamps;
      RecentMembers(times, now - 60000);
      assert e.timestamps == Recent(times, now - 60000);
      assert e.timestamps[0] in Recent(times, now - 60000);
      assert e.timestamps[0] > now - 60000;
    }
  }

  /** A single cleanup cannot be noticed and keeps the reason why. */
  lemma CleanupKeepsSame(l: Limits, known: Option<Entry>, t: int)
    requires BurstEndsFirst(known)
    ensures SameFrom(l, Cleaned(known, t), known, t) && BurstEndsFirst(Cleaned(known, t))
  {
    if known.Some? {
      var e := known.value;
      var i :| 0 <= i < |e.timestamps| && e.timestamps[i] + 120000 > e.burstResetAt;
      if Recent(e.timestamps, t - 120000) == [] {
        RemovalUnnoticed(l, e, t, i);
      } else {
        TrimUnnoticed(l, e, t);
        TrimKeepsReason(e, t, i);
      }
    }
  }

  lemma RemovalUnnoticed(l: Limits, e: Entry, t: int, i: nat)
    requires i < |e.timestamps| && e.timestamps[i] + 120000 > e.burstResetAt
    requires Recent(e.timestamps, t - 120000) == []
    ensures SameFrom(l, None, Some(e), t)
  {
    assert e.timestamps[i] in e.timestamps;
    RecentMembers(e.timestamps, t - 120000);
    assert e.timestamps[i] !in Recent(e.timestamps, t - 120000);
    forall now | now >= t ensures CheckEntry(l, None, now) == CheckEntry(l, Some(e), now) {
      RecentOfRecent(e.timestamps, t - 120000, now - 60000);
      assert Recent([], now - 60000) == [];
      hide Recent;
      assert Rolled(e, now) == Rolled(Entry([], 0, now + 60000), now);
    }
  }

  lemma TrimUnnoticed(l: Limits, e: Entry, t: int)
    ensures SameFrom(l, Some(e.(timestamps := Recent(e.timestamps, t - 120000))), Some(e), t)
  {
    hide Recent;
    forall now | now >= t
      ensures CheckEntry(l, Some(e.(timestamps := Recent(e.timestamps, t - 120000))), now)
              == CheckEntry(l, Some(e), now) {
      RecentOfRecent(e.timestamps, t - 120000, now - 60000);
    }
  }

  lemma TrimKeepsReason(e: Entry, t: int, i: nat)
    requires i < |e.timestamps| && e.timestamps[i] + 120000 > e.burstResetAt
    requires Recent(e.timestamps, t - 120000) != []
    ensures BurstEndsFirst(Some(e.(timestamps := Recent(e.timestamps, t - 120000))))
  {
    hide Recent;
    var recent := Recent(e.timestamps, t - 120000);
    RecentMembers(e.timestamps, t - 120000);
    assert e.timestamps[i] in e.timestamps;
    if e.timestamps[i] > t - 120000 {
      var j :| 0 <= j < |recent| && recent[j] == e.timestamps[i];
    } else {
      assert recent[0] in recent;
    }
  }

  lemma ChecksOnlyPush(events: seq<Event>)
    requires events != []
    ensures ChecksOnly(events) == ChecksOnly(events[..|events| - 1])
                                + if events[|events| - 1].Check? then [events[|events| - 1]] else []
  {
  }

  /** What links a run to the same run without its cleanups, at a time no event is later than. */
  ghost predicate Linked(l: Limits, a: Option<Entry>, b: Option<Entry>, t: int) {
    SameFrom(l, a, b, t) && BurstEndsFirst(a) && (a.Some? ==> a.value.burstResetAt <= t + 60000)
  }

  lemma LinkedLater(l: Limits, a: Option<Entry>, b: Option<Entry>, t: int, now: int)
    requires Linked(l, a, b, t) && t <= now
    ensures Linked(l, a, b, now)
  {
  }

  lemma LinkedCheck(l: Limits, a: Option<Entry>, b: Option<Entry>, now: int)
    requires l.maxPerMinute >= 1 && Linked(l, a, b, now)
    ensures CheckEntry(l, a, now) == CheckEntry(l, b, now)
    ensures Linked(l, Some(CheckEntry(l, a, now).0), Some(CheckEntry(l, b, now).0), now)
  {
    CheckMakesBurstEndFirst(l, a, now, now);
  }

  lemma LinkedCleanup(l: Limits, a: Option<Entry>, b: Option<Entry>, now: int)
    requires Linked(l, a, b, now)
    ensures Linked(l, Cleaned(a, now), b, now)
  {
    CleanupKeepsSame(l, a, now);
    SameChains(l, Cleaned(a, now), a, b, now);
  }

  lemma {:induction false} CleanupHidden(l: Limits, events: seq<Event>, t: int)
    requires Nondecreasing(events) && l.maxPerMinute >= 1
    requires forall i | 0 <= i < |events| :: events[i].now <= t
    ensures Run(l, events).1 == Run(l, ChecksOnly(events)).1
    ensures Linked(l, Run(l, events).0, Run(l, ChecksOnly(events)).0, t)
  {
    if events != [] {
      hide Linked, Recent, CheckEntry, Cleaned, Admitted;
      var front, last := events[..|events| - 1], events[|events| - 1];
      CleanupHidden(l, front, last.now);
      ChecksOnlyPush(events);
      var a, b := Run(l, front).0, Run(l, ChecksOnly(front)).0;
      match last {
        case Check(now) =>
          RunPush(l, ChecksOnly(front), now);
          LinkedCheck(l, a, b, now);
        case Cleanup(now) =>
          LinkedCleanup(l, a, b, now);
          assert ChecksOnly(front) + [] == ChecksOnly(front);
      }
      LinkedLater(l, Run(l, events).0, Run(l, ChecksOnly(events)).0, last.now, t);
    }
  }

  lemma SameChains(l: Limits, a: Option<Entry>, b: Option<Entry>, c: Option<Entry>, t: int)
    requires SameFrom(l, a, b, t) && SameFrom(l, b, c, t)
    ensures SameFrom(l, a, c, t)
  {
  }

  ghost predicate Idle(known: Option<Entry>) {
    known.Some? ==> known.value.timestamps == [] && known.value.burstUsed == 0
  }

  lemma IdleDenies(l: Limits, known: Option<Entry>, now: int)
    requires l.maxPerMinute <= 0 && l.maxBurst <= 0 && Idle(known)
    ensures Idle(Some(CheckEntry(l, known, now).0)) && Idle(Cleaned(known, now))
    ensures CheckEntry(l, known, now).1 == Verdict(false, 1000, 0)
  {
  }

  /** Limits that admit nothing always give the same verdict, cleaned up or not. */
  lemma {:induction false} NothingEverAdmitted(l: Limits, events: seq<Event>)
    requires l.maxPerMinute <= 0 && l.maxBurst <= 0
    ensures Run(l, events).1 == Run(l, ChecksOnly(events)).1
    ensures Idle(Run(l, events).0) && Idle(Run(l, ChecksOnly(events)).0)
  {
    if events != [] {
      hide Idle, CheckEntry, Cleaned, Admitted;
      NothingEverAdmitted(l, events[..|events| - 1]);
      ChecksOnlyPush(events);
      var front, last := events[..|events| - 1], events[|events| - 1];
      IdleDenies(l, Run(l, front).0, last.now);
      IdleDenies(l, Run(l, ChecksOnly(front)).0, last.now);
      if last.Check? {
        RunPush(l, ChecksOnly(front), last.now);
      } else {
        assert ChecksOnly(front) + [] == ChecksOnly(front);
      }
    }
  }

  /** A run in which one cleanup lets a request through that would have been refused. */
  function RevealingRun(l: Limits): seq<Event>
    requires l.maxBurst >= 1
  {
    Checks(l.maxBurst, 1) + [Check(60001)] + [Cleanup(60001)] + [Check(60001)]
  }

  lemma BurstStep(l: Limits, k: nat)
    requires l.maxPerMinute <= 0 && 1 <= k <= l.maxBurst
    ensures CheckEntry(l, if k == 1 then None else Some(Entry(Times(k - 1, 1), k - 1, 60001)), 1).0
            == Entry(Times(k, 1), k, 60001)
  {
    RecentIsAll(Times(k - 1, 1), 1 - 60000);
    assert Times(k - 1, 1) + [1] == Times(k, 1);
    assert k == 1 ==> Times(k - 1, 1) == [];
    hide Recent;
  }

  lemma {:induction false} BurstOnly(l: Limits, k: nat)
    requires l.maxPerMinute <= 0 && 1 <= k <= l.maxBurst
    ensures Run(l, Checks(k, 1)).0 == Some(Entry(Times(k, 1), k, 60001))
    ensures ChecksOnly(Checks(k, 1)) == Checks(k, 1)
  {
    assert Run(l, []) == (None, []) && Checks(0, 1) == [] && ChecksOnly([]) == [];
    ChecksOnlyPush(Checks(k, 1));
    assert Checks(k, 1)[..k - 1] == Checks(k - 1, 1) && Checks(k, 1) == Checks(k - 1, 1) + [Check(1)];
    hide Run, CheckEntry, ChecksOnly, Admitted;
    RunPush(l, Checks(k - 1, 1), 1);
    BurstStep(l, k);
    if k > 1 { BurstOnly(l, k - 1); }
  }

  lemma CleanupPush(l: Limits, events: seq<Event>, now: int)
    ensures Run(l, events + [Cleanup(now)]) == (Cleaned(Run(l, events).0, now), Run(l, events).1)
    ensures ChecksOnly(events + [Cleanup(now)]) == ChecksOnly(events)
    ensures ChecksOnly(events + [Check(now)]) == ChecksOnly(events) + [Check(now)]
  {
    assert (events + [Cleanup(now)])[..|events|] == events;
    assert (events + [Check(now)])[..|events|] == events;
  }

  lemma RefusedThenCleaned(l: Limits)
    requires l.maxPerMinute <= 0 && l.maxBurst >= 1
    ensures CheckEntry(l, Some(Entry(Times(l.maxBurst, 1), l.maxBurst, 60001)), 60001).0 == Entry([], l.maxBurst, 60001)
    ensures Cleaned(Some(Entry([], l.maxBurst, 60001)), 60001) == None
    ensures CheckEntry(l, None, 60001).1.allowed
    ensures !CheckEntry(l, Some(Entry([], l.maxBurst, 60001)), 60001).1.allowed
  {
    RecentIsNone(Times(l.maxBurst, 1), 1);
  }

  lemma CleanupRevealed(l: Limits)
    requires l.maxPerMinute <= 0 && l.maxBurst >= 1
    ensures Nondecreasing(RevealingRun(l))
    ensures Run(l, RevealingRun(l)).1 != Run(l, ChecksOnly(RevealingRun(l))).1
  {
    hide Run, CheckEntry, Cleaned, ChecksOnly, Admitted, Recent;
    var burst := Checks(l.maxBurst, 1);
    var one := burst + [Check(60001)];
    var two := one + [Cleanup(60001)];
    BurstOnly(l, l.maxBurst);
    RefusedThenCleaned(l);
    RunPush(l, burst, 60001);
    RunPush(l, one, 60001);
    CleanupPush(l, one, 60001);
    RunPush(l, two, 60001);
    CleanupPush(l, burst, 60001);
    CleanupPush(l, two, 60001);
    var with, without := Run(l, two + [Check(60001)]).1, Run(l, one + [Check(60001)]).1;
    assert with[|with| - 1].verdict.allowed && !without[|without| - 1].verdict.allowed;
  }

  /**
   Cleanup never changes a verdict exactly when the limiter has a per-minute allowance or no
   burst allowance.
   */
  lemma CleanupInvisible(l: Limits)
    ensures (forall events | Nondecreasing(events) :: Run(l, events).1 == Run(l, ChecksOnly(events)).1)
       <==> (l.maxPerMinute >= 1 || l.maxBurst <= 0)
  {
    if l.maxPerMinute >= 1 {
      forall events: seq<Event> | Nondecreasing(events)
        ensures Run(l, events).1 == Run(l, ChecksOnly(events)).1
      {
        CleanupHidden(l, events, if events == [] then 0 else events[|events| - 1].now);
      }
    } else if l.maxBurst <= 0 {
      forall events: seq<Event> | Nondecreasing(events)
        ensures Run(l, events).1 == Run(l, ChecksOnly(events)).1
      {
        NothingEverAdmitted(l, events);
      }
    } else {
      CleanupRevealed(l);
    }
  }

  // ----- many keys -----

  datatype KeyedEvent = KeyCheck(key: string, now: int) | CleanupAll(now: int)

  function RunAll(l: Limits, events: seq<KeyedEvent>): (map<string, Entry>, seq<(string, Decision)>) {
    if events == [] then (map[], [])
    else
      var (entries, log) := RunAll(l, events[..|events| - 1]);
      match events[|events| - 1]
      case KeyCheck(key, now) =>
        var (e, v) := CheckEntry(l, EntryOf(entries, key), now);
        (entries[key := e], log + [(key, Decision(now, v))])
      case CleanupAll(now) => (CleanedAll(entries, now), log)
  }

  function EventsOf(events: seq<KeyedEvent>, key: string): seq<Event> {
    if events == [] then []
    else
      var front := EventsOf(events[..|events| - 1], key);
      match events[|events| - 1]
      case KeyCheck(k, now) => if k == key then front + [Check(now)] else front
      case CleanupAll(now) => front + [Cleanup(now)]
  }

  function LogOf(log: seq<(string, Decision)>, key: string): seq<Decision> {
    if log == [] then []
    else
      var front := LogOf(log[..|log| - 1], key);
      if log[|log| - 1].0 == key then front + [log[|log| - 1].1] else front
  }

  /** Keys do not disturb each other: one key sees only its own checks and the cleanups. */
  lemma {:induction false} KeysAreIndependent(l: Limits, events: seq<KeyedEvent>, key: string)
    ensures EntryOf(RunAll(l, events).0, key) == Run(l, EventsOf(events, key)).0
    ensures LogOf(RunAll(l, events).1, key) == Run(l, EventsOf(events, key)).1
  {
    if events != [] {
      var front := events[..|events| - 1];
      KeysAreIndependent(l, front, key);
      var (entries, log) := RunAll(l, front);
      var own := EventsOf(front, key);
      match events[|events| - 1] {
        case KeyCheck(k, now) =>
          var d := Decision(now, CheckEntry(l, EntryOf(entries, k), now).1);
          assert (log + [(k, d)])[..|log|] == log;
          RunPush(l, own, now);
        case CleanupAll(now) =>
          assert (own + [Cleanup(now)])[..|own|] == own;
      }
    }
  }

  ghost predicate KeyedNondecreasing(events: seq<KeyedEvent>) {
    forall i, j | 0 <= i < j < |events| :: events[i].now <= events[j].now
  }

  lemma {:induction false} EventsOfNondecreasing(events: seq<KeyedEvent>, key: string)
    requires KeyedNondecreasing(events)
    ensures Nondecreasing(EventsOf(events, key))
    ensures events != [] ==> forall i | 0 <= i < |EventsOf(events, key)| ::
            EventsOf(events, key)[i].now <= events[|events| - 1].now
    ensures events == [] ==> EventsOf(events, key) == []
  {
    if events != [] {
      EventsOfNondecreasing(events[..|events| - 1], key);
    }
  }

  /** The bound for the whole limiter: any number of keys, with cleanups anywhere. */
  lemma LimiterBound(l: Limits, events: seq<KeyedEvent>, key: string, end: int)
    requires KeyedNondecreasing(events)
    ensures InWindow(Admitted(LogOf(RunAll(l, events).1, key)), end) <= Pos(l.maxPerMinute) + 2 * Pos(l.maxBurst)
  {
    KeysAreIndependent(l, events, key);
    EventsOfNondecreasing(events, key);
    WindowBound(l, EventsOf(events, key), end);
  }
}
