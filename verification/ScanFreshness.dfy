/**
 How fresh the issue lists of the incremental scanner are, for one file: the file is edited,
 scans overlap and wait for the database in between, writes to the database land late or
 never, and both caches may drop the entry at any time.
 */
module ScanFreshness {
  import opened Basics

  /** The scanners, as a function of the content. */
  type Scanner = string -> Issues

  const OVERLAY_TTL_MS := 120000

  datatype Version = Version(content: string, mtime: int, since: int)

  /**
   A database row; the version it was stat'ed at, the version it was read at and the time of the read
   are kept for reference.
   */
  datatype Row = Row(mtime: int, issues: Issues, statVersion: Option<nat>, readVersion: nat, readAt: int)

  /** An overlay entry; `version` was current at `asOf`. */
  datatype Cached = Cached(issues: Issues, setAt: int, version: nat, asOf: int)

  /**
   A scan of the file between its stat and its end; a failed stat reads as modification time 0.
   `answer` is what the database found for it, once it has answered.
   */
  datatype Lookup = Lookup(mtime: int, statAt: int, statVersion: Option<nat>, answer: Option<Option<Row>>)

  /** An issue list handed out at a time; `version` was current at `asOf`. */
  datatype Served = Served(at: int, issues: Issues, version: nat, asOf: int)

  datatype World = World(now: int, versions: seq<Version>, overlay: Option<Cached>, db: Option<Row>,
                         lookups: seq<Lookup>, writes: seq<Row>, served: seq<Served>)

  datatype Step =
    | Tick(ms: nat)
    | Edit(content: string, mtime: int)
    | Begin(statFails: bool)
    | Answer(lookup: nat, dbFails: bool)
    | Reply(lookup: nat, readFails: bool)
    | WriteLands(write: nat)
    | WriteFails(write: nat)
    | PurgeRow
    | DropOverlay

  function Start(content: string, mtime: int): World {
    World(0, [Version(content, mtime, 0)], None, None, [], [], [])
  }

  function Cut<T>(s: seq<T>, i: nat): seq<T>
    requires i < |s|
  {
    s[..i] + s[i + 1..]
  }

  /** The stat and the overlay check run together; a fresh overlay entry is served whatever the stat said. */
  function BeginStep(w: World, statFails: bool): World
    requires w.versions != []
  {
    if w.overlay.Some? && w.now <= w.overlay.value.setAt + OVERLAY_TTL_MS then
      var e := w.overlay.value;
      w.(served := w.served + [Served(w.now, e.issues, e.version, e.asOf)])
    else
      var current := |w.versions| - 1;
      w.(lookups := w.lookups + [if statFails then Lookup(0, w.now, None, None)
        else Lookup(w.versions[current].mtime, w.now, Some(current), None)])
  }

  /** A time at which the row's version was current, the stat of the lookup if the row was read before it. */
  function HitAsOf(l: Lookup, row: Row): int {
    if l.statVersion.Some? && row.readAt < l.statAt then l.statAt else row.readAt
  }

  /** The database reads the row for a lookup that waits for it; a failure reads as no row. */
  function AnswerStep(w: World, k: nat, dbFails: bool): World {
    if k >= |w.lookups| || w.lookups[k].answer.Some? then w
    else w.(lookups := w.lookups[k := w.lookups[k].(answer := Some(if dbFails then None else w.db))])
  }

  /** The database found a row at least as new as the stat. */
  predicate IsHit(l: Lookup) {
    l.answer.Some? && l.answer.value.Some? && l.answer.value.value.mtime >= l.mtime
  }

  /**
   The answer arrives: a row at least as new as the stat is served and cached, otherwise the file is
   read and scanned.
   */
  function ReplyStep(scan: Scanner, w: World, k: nat, readFails: bool): World
    requires w.versions != []
  {
    if k >= |w.lookups| || w.lookups[k].answer.None? then w
    else
      var l := w.lookups[k];
      var rest := w.(lookups := Cut(w.lookups, k));
      if IsHit(l) then
        var row := l.answer.value.value;
        rest.(overlay := Some(Cached(row.issues, w.now, row.readVersion, HitAsOf(l, row))),
              served := w.served + [Served(w.now, row.issues, row.readVersion, HitAsOf(l, row))])
      else if readFails then rest
      else
        var current := |w.versions| - 1;
        var issues := scan(w.versions[current].content);
        rest.(overlay := Some(Cached(issues, w.now, current, w.now)),
              writes := w.writes + [Row(l.mtime, issues, l.statVersion, current, w.now)],
              served := w.served + [Served(w.now, issues, current, w.now)])
  }

  /** An edit takes effect only with a larger modification time: the assumption on the file system. */
  function Next(scan: Scanner, w: World, step: Step): World
    requires w.versions != []
    ensures Next(scan, w, step).versions != []
  {
    match step
    case Tick(ms) => w.(now := w.now + ms)
    case Edit(content, mtime) =>
      if mtime > w.versions[|w.versions| - 1].mtime then
        w.(versions := w.versions + [Version(content, mtime, w.now)]) else w
    case Begin(statFails) => BeginStep(w, statFails)
    case Answer(k, dbFails) => AnswerStep(w, k, dbFails)
    case Reply(k, readFails) => ReplyStep(scan, w, k, readFails)
    case WriteLands(i) => if i < |w.writes| then w.(db := Some(w.writes[i]), writes := Cut(w.writes, i)) else w
    case WriteFails(i) => if i < |w.writes| then w.(writes := Cut(w.writes, i)) else w
    case PurgeRow => w.(db := None)
    case DropOverlay => w.(overlay := None)
  }

  function Run(scan: Scanner, start: World, steps: seq<Step>): (w: World)
    requires start.versions != []
    ensures w.versions != []
  {
    if steps == [] then start else Next(scan, Run(scan, start, steps[..|steps| - 1]), steps[|steps| - 1])
  }

  // ----- invariants -----

  ghost predicate CurrentAt(versions: seq<Version>, i: nat, t: int) {
    i < |versions| && versions[i].since <= t && (i + 1 < |versions| ==> t <= versions[i + 1].since)
  }

  ghost predicate HistoryOk(w: World) {
    && w.versions != []
    && (forall i, j | 0 <= i < j < |w.versions| ::
        w.versions[i].mtime < w.versions[j].mtime && w.versions[i].since <= w.versions[j].since)
    && (forall i | 0 <= i < |w.versions| :: w.versions[i].since <= w.now && w.versions[i].mtime > 0)
  }

  ghost predicate RowOk(scan: Scanner, w: World, row: Row) {
    && CurrentAt(w.versions, row.readVersion, row.readAt) && row.readAt <= w.now
    && row.issues == scan(w.versions[row.readVersion].content)
    && match row.statVersion
       case Some(v) => v <= row.readVersion && row.mtime == w.versions[v].mtime
       case None => row.mtime == 0
  }

  ghost predicate LookupOk(scan: Scanner, w: World, l: Lookup) {
    && l.statAt <= w.now
    && (match l.statVersion
        case Some(v) => CurrentAt(w.versions, v, l.statAt) && l.mtime == w.versions[v].mtime
        case None => l.mtime == 0)
    && (l.answer.Some? && l.answer.value.Some? ==> RowOk(scan, w, l.answer.value.value))
  }

  /** Lists an issue list as the scan of the version that was current at `asOf`, not longer than `age` before `at`. */
  ghost predicate Fresh(scan: Scanner, w: World, issues: Issues, version: nat, asOf: int, at: int, age: int) {
    && CurrentAt(w.versions, version, asOf)
    && issues == scan(w.versions[version].content)
    && asOf <= at <= w.now && at - asOf <= age
  }

  ghost predicate RowsOk(scan: Scanner, w: World) {
    (w.db.Some? ==> RowOk(scan, w, w.db.value)) && forall i | 0 <= i < |w.writes| :: RowOk(scan, w, w.writes[i])
  }

  ghost predicate LookupsOk(scan: Scanner, w: World) {
    forall i | 0 <= i < |w.lookups| :: LookupOk(scan, w, w.lookups[i])
  }

  ghost predicate OverlayOk(scan: Scanner, w: World, latency: nat) {
    match w.overlay
    case None => true
    case Some(e) => Fresh(scan, w, e.issues, e.version, e.asOf, e.setAt, latency)
  }

  ghost predicate ServedOk(scan: Scanner, w: World, latency: nat) {
    forall i | 0 <= i < |w.served| ::
      Fresh(scan, w, w.served[i].issues, w.served[i].version, w.served[i].asOf, w.served[i].at,
        OVERLAY_TTL_MS + latency)
  }

  /** What holds of the database and of waiting scans in every run, timely or not. */
  ghost predicate DatabaseOk(scan: Scanner, w: World) {
    HistoryOk(w) && RowsOk(scan, w) && LookupsOk(scan, w)
  }

  ghost predicate WorldOk(scan: Scanner, w: World, latency: nat) {
    DatabaseOk(scan, w) && OverlayOk(scan, w, latency) && ServedOk(scan, w, latency)
  }

  /** A database hit is exact: the version it shows was current at some instant between the stat and the reply. */
  lemma HitIsExact(scan: Scanner, w: World, l: Lookup, row: Row)
    requires HistoryOk(w) && RowOk(scan, w, row) && LookupOk(scan, w, l) && l.statVersion.Some?
    requires row.mtime >= l.mtime
    ensures CurrentAt(w.versions, row.readVersion, HitAsOf(l, row))
    ensures l.statAt <= HitAsOf(l, row) <= w.now
  {
    var v := l.statVersion.value;
    assert row.statVersion.Some?;
    assert v <= row.statVersion.value;
    assert forall q | v < q < |w.versions| :: w.versions[v + 1].since <= w.versions[q].since;
  }

  /** Time passes and at most one version is appended. */
  ghost predicate Grows(w: World, t: World) {
    && w.now <= t.now
    && (t.versions == w.versions || (t.versions != [] && t.versions[|t.versions| - 1].since == w.now
        && t.versions[..|t.versions| - 1] == w.versions))
  }

  lemma CurrentStays(w: World, t: World, i: nat, at: int)
    requires Grows(w, t) && CurrentAt(w.versions, i, at) && at <= w.now
    ensures CurrentAt(t.versions, i, at) && t.versions[i] == w.versions[i]
  {
  }

  lemma RowStays(scan: Scanner, w: World, t: World, row: Row)
    requires Grows(w, t) && RowOk(scan, w, row)
    ensures RowOk(scan, t, row)
  {
    CurrentStays(w, t, row.readVersion, row.readAt);
  }

  lemma LookupStays(scan: Scanner, w: World, t: World, l: Lookup)
    requires Grows(w, t) && LookupOk(scan, w, l)
    ensures LookupOk(scan, t, l)
  {
    if l.statVersion.Some? { CurrentStays(w, t, l.statVersion.value, l.statAt); }
    if l.answer.Some? && l.answer.value.Some? { RowStays(scan, w, t, l.answer.value.value); }
  }

  lemma FreshStays(scan: Scanner, w: World, t: World, issues: Issues, version: nat, asOf: int, at: int, age: int)
    requires Grows(w, t) && Fresh(scan, w, issues, version, asOf, at, age)
    ensures Fresh(scan, t, issues, version, asOf, at, age)
  {
    CurrentStays(w, t, version, asOf);
  }

  /** Nothing but the lists handed out, the overlay and the waiting writes and lookups may differ. */
  lemma SameHistory(scan: Scanner, w: World, t: World)
    requires t.now == w.now && t.versions == w.versions
    ensures HistoryOk(w) ==> HistoryOk(t)
    ensures forall r :: RowOk(scan, w, r) ==> RowOk(scan, t, r)
    ensures forall l :: LookupOk(scan, w, l) ==> LookupOk(scan, t, l)
    ensures forall issues, version: nat, asOf, at, age ::
              Fresh(scan, w, issues, version, asOf, at, age) ==> Fresh(scan, t, issues, version, asOf, at, age)
  {
  }

  lemma CutMembers<T>(s: seq<T>, i: nat)
    requires i < |s|
    ensures forall x | x in Cut(s, i) :: x in s
  {
  }

  // ----- the database, in every run -----

  /** Time may pass, a version may be added, and every row and lookup was there before or is right. */
  lemma DatabaseStays(scan: Scanner, w: World, t: World)
    requires DatabaseOk(scan, w) && Grows(w, t) && HistoryOk(t)
    requires forall r | t.db == Some(r) || r in t.writes :: w.db == Some(r) || r in w.writes || RowOk(scan, t, r)
    requires forall l | l in t.lookups :: l in w.lookups || LookupOk(scan, t, l)
    ensures DatabaseOk(scan, t)
  {
    hide RowOk, LookupOk, HistoryOk, Grows;
    forall r | t.db == Some(r) || r in t.writes ensures RowOk(scan, t, r) {
      if w.db == Some(r) {
        RowStays(scan, w, t, r);
      } else if i :| 0 <= i < |w.writes| && w.writes[i] == r {
        RowStays(scan, w, t, w.writes[i]);
      }
    }
    forall l | l in t.lookups ensures LookupOk(scan, t, l) {
      if i :| 0 <= i < |w.lookups| && w.lookups[i] == l { LookupStays(scan, w, t, w.lookups[i]); }
    }
  }

  lemma GrowsStill(w: World, t: World)
    requires t.now == w.now && t.versions == w.versions
    ensures Grows(w, t) && (HistoryOk(w) ==> HistoryOk(t))
  {
  }

  lemma BeginKeepsDatabase(scan: Scanner, w: World, statFails: bool)
    requires DatabaseOk(scan, w)
    ensures DatabaseOk(scan, BeginStep(w, statFails))
  {
    var t := BeginStep(w, statFails);
    GrowsStill(w, t);
    DatabaseStays(scan, w, t);
  }

  lemma AnswerKeepsDatabase(scan: Scanner, w: World, k: nat, dbFails: bool)
    requires DatabaseOk(scan, w)
    ensures DatabaseOk(scan, AnswerStep(w, k, dbFails))
  {
    var t := AnswerStep(w, k, dbFails);
    GrowsStill(w, t);
    if k < |w.lookups| { assert LookupOk(scan, w, w.lookups[k]); }
    SameHistory(scan, w, t);
    hide RowOk, HistoryOk, Grows;
    DatabaseStays(scan, w, t);
  }

  lemma ReplyKeepsDatabase(scan: Scanner, w: World, k: nat, readFails: bool)
    requires DatabaseOk(scan, w)
    ensures DatabaseOk(scan, ReplyStep(scan, w, k, readFails))
  {
    var t := ReplyStep(scan, w, k, readFails);
    if k < |w.lookups| {
      CutMembers(w.lookups, k);
      assert LookupOk(scan, w, w.lookups[k]);
      GrowsStill(w, t);
      forall r | r in t.writes ensures r in w.writes || RowOk(scan, t, r) {
      }
      hide RowOk, LookupOk, HistoryOk, Grows, Cut;
      DatabaseStays(scan, w, t);
    }
  }

  lemma StepKeepsDatabase(scan: Scanner, w: World, step: Step)
    requires DatabaseOk(scan, w)
    ensures DatabaseOk(scan, Next(scan, w, step))
  {
    var t := Next(scan, w, step);
    assert HistoryOk(w);
    hide DatabaseOk, HistoryOk, RowOk, LookupOk, Grows, BeginStep, AnswerStep, ReplyStep;
    match step
    case Begin(statFails) => BeginKeepsDatabase(scan, w, statFails);
    case Answer(k, dbFails) => AnswerKeepsDatabase(scan, w, k, dbFails);
    case Reply(k, readFails) => ReplyKeepsDatabase(scan, w, k, readFails);
    case Edit(content, mtime) => EditHistory(w, content, mtime); DatabaseStays(scan, w, t);
    case Tick(ms) => TickHistory(w, ms); DatabaseStays(scan, w, t);
    case WriteLands(i) => if i < |w.writes| { CutMembers(w.writes, i); GrowsStill(w, t); DatabaseStays(scan, w, t); }
    case WriteFails(i) => if i < |w.writes| { CutMembers(w.writes, i); GrowsStill(w, t); DatabaseStays(scan, w, t); }
    case PurgeRow => GrowsStill(w, t); DatabaseStays(scan, w, t);
    case DropOverlay => GrowsStill(w, t); DatabaseStays(scan, w, t);
  }

  lemma {:induction false} RunKeepsDatabase(scan: Scanner, content: string, mtime: int, steps: seq<Step>)
    requires mtime > 0
    ensures DatabaseOk(scan, Run(scan, Start(content, mtime), steps))
  {
    if steps != [] {
      RunKeepsDatabase(scan, content, mtime, steps[..|steps| - 1]);
      hide DatabaseOk, Next;
      StepKeepsDatabase(scan, Run(scan, Start(content, mtime), steps[..|steps| - 1]), steps[|steps| - 1]);
    }
  }

  /**
   What the database serves is exact in every run, even when the file changed between a stat
   and the read behind the row, and whatever was served before: it is the scan of a version
   current between this stat and this answer.
   */
  lemma DatabaseHitsAreExact(scan: Scanner, content: string, mtime: int, steps: seq<Step>, k: nat)
    requires mtime > 0
    requires var w := Run(scan, Start(content, mtime), steps);
             k < |w.lookups| && IsHit(w.lookups[k]) && w.lookups[k].statVersion.Some?
    ensures var w := Run(scan, Start(content, mtime), steps);
            var row := w.lookups[k].answer.value.value;
            exists t :: w.lookups[k].statAt <= t <= w.now && CurrentAt(w.versions, row.readVersion, t)
                        && row.issues == scan(w.versions[row.readVersion].content)
  {
    RunKeepsDatabase(scan, content, mtime, steps);
    var w := Run(scan, Start(content, mtime), steps);
    assert LookupOk(scan, w, w.lookups[k]);
    HitIsExact(scan, w, w.lookups[k], w.lookups[k].answer.value.value);
  }

  // ----- the overlay and what is handed out, in timely runs -----

  /** A list handed out or cached now, or left over from before, as fresh as it has to be. */
  lemma OverlayStays(scan: Scanner, w: World, t: World, latency: nat)
    requires WorldOk(scan, w, latency) && DatabaseOk(scan, t) && Grows(w, t)
    requires t.overlay == w.overlay || OverlayOk(scan, t, latency)
    requires |t.served| >= |w.served| && t.served[..|w.served|] == w.served
    requires forall i | |w.served| <= i < |t.served| ::
               Fresh(scan, t, t.served[i].issues, t.served[i].version, t.served[i].asOf, t.served[i].at,
                 OVERLAY_TTL_MS + latency)
    ensures WorldOk(scan, t, latency)
  {
    hide DatabaseOk, Fresh, Grows;
    if t.overlay == w.overlay && w.overlay.Some? {
      var e := w.overlay.value;
      FreshStays(scan, w, t, e.issues, e.version, e.asOf, e.setAt, latency);
    }
    forall i | 0 <= i < |t.served|
      ensures Fresh(scan, t, t.served[i].issues, t.served[i].version, t.served[i].asOf, t.served[i].at,
                    OVERLAY_TTL_MS + latency)
    {
      if i < |w.served| {
        var e := w.served[i];
        assert t.served[..|w.served|][i] == e;
        FreshStays(scan, w, t, e.issues, e.version, e.asOf, e.at, OVERLAY_TTL_MS + latency);
      }
    }
  }

  lemma OlderIsFresh(scan: Scanner, w: World, issues: Issues, version: nat, asOf: int, at: int, latency: nat)
    requires Fresh(scan, w, issues, version, asOf, at, latency)
    ensures w.now <= at + OVERLAY_TTL_MS ==> Fresh(scan, w, issues, version, asOf, w.now, OVERLAY_TTL_MS + latency)
  {
  }

  lemma BeginKeepsWorld(scan: Scanner, w: World, statFails: bool, latency: nat)
    requires WorldOk(scan, w, latency)
    ensures WorldOk(scan, BeginStep(w, statFails), latency)
  {
    var t := BeginStep(w, statFails);
    BeginKeepsDatabase(scan, w, statFails);
    GrowsStill(w, t);
    SameHistory(scan, w, t);
    if w.overlay.Some? {
      var e := w.overlay.value;
      OlderIsFresh(scan, w, e.issues, e.version, e.asOf, e.setAt, latency);
    }
    hide DatabaseOk, Fresh, Grows, RowOk, LookupOk, HistoryOk;
    OverlayStays(scan, w, t, latency);
  }

  /** What a reply hands out and caches is fresh within the latency. */
  lemma ReplyIsFresh(scan: Scanner, w: World, k: nat, readFails: bool, latency: nat)
    requires HistoryOk(w) && k < |w.lookups| && LookupOk(scan, w, w.lookups[k])
             && w.now - w.lookups[k].statAt <= latency
    requires IsHit(w.lookups[k]) ==> w.lookups[k].statVersion.Some?
    ensures var l, t := w.lookups[k], ReplyStep(scan, w, k, readFails);
            if l.answer.Some? && (IsHit(l) || !readFails) then
              && t.overlay.Some? && t.overlay.value.setAt == w.now
              && (var e := t.overlay.value;
                  Fresh(scan, t, e.issues, e.version, e.asOf, w.now, latency)
                  && t.served == w.served + [Served(w.now, e.issues, e.version, e.asOf)])
            else t.overlay == w.overlay && t.served == w.served
  {
    var l := w.lookups[k];
    if IsHit(l) && l.statVersion.Some? { HitIsExact(scan, w, l, l.answer.value.value); }
  }

  lemma ReplyKeepsWorld(scan: Scanner, w: World, k: nat, readFails: bool, latency: nat)
    requires WorldOk(scan, w, latency) && k < |w.lookups| && w.now - w.lookups[k].statAt <= latency
    requires IsHit(w.lookups[k]) ==> w.lookups[k].statVersion.Some?
    ensures WorldOk(scan, ReplyStep(scan, w, k, readFails), latency)
  {
    var t := ReplyStep(scan, w, k, readFails);
    assert LookupOk(scan, w, w.lookups[k]) && HistoryOk(w) && DatabaseOk(scan, w);
    hide WorldOk, DatabaseOk, LookupOk, HistoryOk, Grows, ReplyStep, IsHit;
    ReplyKeepsDatabase(scan, w, k, readFails);
    StepGrows(scan, w, Reply(k, readFails));
    ReplyIsFresh(scan, w, k, readFails, latency);
    OverlayStays(scan, w, t, latency);
  }

  lemma EditHistory(w: World, content: string, mtime: int)
    requires HistoryOk(w)
    ensures var t := if mtime > w.versions[|w.versions| - 1].mtime then
            w.(versions := w.versions + [Version(content, mtime, w.now)]) else w;
            HistoryOk(t) && Grows(w, t)
  {
  }

  /**
   A scan ends within the latency after its stat; unless `blind` allows it, no scan whose
   stat failed is answered from the database.
   */
  ghost predicate Timely(w: World, step: Step, latency: nat, blind: bool) {
    step.Reply? && step.lookup < |w.lookups| ==>
      && w.now - w.lookups[step.lookup].statAt <= latency
      && (IsHit(w.lookups[step.lookup]) ==> blind || w.lookups[step.lookup].statVersion.Some?)
  }

  lemma StepGrows(scan: Scanner, w: World, step: Step)
    requires HistoryOk(w)
    ensures Grows(w, Next(scan, w, step))
  {
  }

  lemma StepKeepsWorld(scan: Scanner, w: World, step: Step, latency: nat)
    requires WorldOk(scan, w, latency) && Timely(w, step, latency, false)
    ensures WorldOk(scan, Next(scan, w, step), latency)
  {
    var t := Next(scan, w, step);
    assert DatabaseOk(scan, w) && HistoryOk(w);
    hide WorldOk, DatabaseOk, HistoryOk, Fresh, Grows, BeginStep, ReplyStep, IsHit;
    if step.Begin? {
      BeginKeepsWorld(scan, w, step.statFails, latency);
    } else if step.Reply? && step.lookup < |w.lookups| {
      ReplyKeepsWorld(scan, w, step.lookup, step.readFails, latency);
    } else {
      StepKeepsDatabase(scan, w, step);
      StepGrows(scan, w, step);
      NothingServed(scan, w, step, latency);
      OverlayStays(scan, w, t, latency);
    }
  }

  lemma NothingServed(scan: Scanner, w: World, step: Step, latency: nat)
    requires w.versions != [] && !step.Begin? && !(step.Reply? && step.lookup < |w.lookups|)
    ensures var t := Next(scan, w, step); t.served == w.served && (t.overlay == w.overlay || t.overlay == None)
  {
  }

  lemma TickHistory(w: World, ms: nat)
    ensures HistoryOk(w) ==> HistoryOk(w.(now := w.now + ms)) && Grows(w, w.(now := w.now + ms))
  {
  }

  ghost predicate TimelyRun(scan: Scanner, start: World, steps: seq<Step>, latency: nat, blind: bool)
    requires start.versions != []
  {
    if steps == [] then true
    else
      var front := steps[..|steps| - 1];
      TimelyRun(scan, start, front, latency, blind)
        && Timely(Run(scan, start, front), steps[|steps| - 1], latency, blind)
  }

  lemma {:induction false} RunKeepsWorld(scan: Scanner, content: string, mtime: int, steps: seq<Step>, latency: nat)
    requires mtime > 0 && TimelyRun(scan, Start(content, mtime), steps, latency, false)
    ensures WorldOk(scan, Run(scan, Start(content, mtime), steps), latency)
  {
    if steps != [] {
      RunKeepsWorld(scan, content, mtime, steps[..|steps| - 1], latency);
      hide WorldOk, Next;
      StepKeepsWorld(scan, Run(scan, Start(content, mtime), steps[..|steps| - 1]), steps[|steps| - 1], latency);
    }
  }

  /**
   When modification times strictly grow, scans end within `latency` of their stats and none
   is answered blindly, every issue list served at time t is the scan of a version that was
   current at some instant of the last 120 seconds plus that latency.
   */
  lemma ServedIsFresh(scan: Scanner, content: string, mtime: int, steps: seq<Step>, latency: nat, i: nat)
    requires mtime > 0 && TimelyRun(scan, Start(content, mtime), steps, latency, false)
    requires i < |Run(scan, Start(content, mtime), steps).served|
    ensures var w := Run(scan, Start(content, mtime), steps);
            var s := w.served[i];
            && CurrentAt(w.versions, s.version, s.asOf) && s.issues == scan(w.versions[s.version].content)
            && s.at - 120000 - latency <= s.asOf <= s.at
  {
    RunKeepsWorld(scan, content, mtime, steps, latency);
  }

  // ----- exactly when what is served is fresh -----

  lemma TimelyPush(scan: Scanner, start: World, steps: seq<Step>, step: Step, latency: nat, blind: bool)
    requires start.versions != [] && TimelyRun(scan, start, steps, latency, blind)
    requires Timely(Run(scan, start, steps), step, latency, blind)
    ensures TimelyRun(scan, start, steps + [step], latency, blind)
    ensures Run(scan, start, steps + [step]) == Next(scan, Run(scan, start, steps), step)
  {
    assert (steps + [step])[..|steps|] == steps;
    hide Next, Timely;
  }

  /** Some scan of a version that was current in the last 120 seconds and `age`. */
  ghost predicate IsRecent(scan: Scanner, w: World, s: Served, age: int) {
    exists v: nat, t :: CurrentAt(w.versions, v, t) && s.at - 120000 - age <= t <= s.at
      && s.issues == scan(w.versions[v].content)
  }

  ghost predicate AllRecent(scan: Scanner, w: World, age: int) {
    forall i | 0 <= i < |w.served| :: IsRecent(scan, w, w.served[i], age)
  }

  /** Every list served in any timely run is recent. */
  ghost predicate AlwaysRecent(scan: Scanner, latency: nat, blind: bool, age: int) {
    forall content, mtime, steps | mtime > 0 && TimelyRun(scan, Start(content, mtime), steps, latency, blind) ::
      AllRecent(scan, Run(scan, Start(content, mtime), steps), age)
  }

  /** A scanned file whose row is stored and whose overlay entry is gone. */
  function StoredOnly(scan: Scanner, content: string, mtime: int): World {
    Start(content, mtime).(db := Some(Row(mtime, scan(content), Some(0), 0, 0)),
      served := [Served(0, scan(content), 0, 0)])
  }

  const SCAN_ONCE: seq<Step> :=
    [Begin(false)] + [Answer(0, false)] + [Reply(0, false)] + [WriteLands(0)] + [DropOverlay]

  /** The three steps of a scan that finds no overlay entry, when it is the only one. */
  lemma ScanSteps(scan: Scanner, w: World, l: Lookup)
    requires w.versions != []
    ensures w.overlay == None && w.lookups == [] ==>
              && Next(scan, w, Begin(false))
                 == w.(lookups := [Lookup(w.versions[|w.versions| - 1].mtime, w.now, Some(|w.versions| - 1), None)])
              && Next(scan, w, Begin(true)) == w.(lookups := [Lookup(0, w.now, None, None)])
    ensures w.lookups == [l] && l.answer == None
            ==> Next(scan, w, Answer(0, false)) == w.(lookups := [l.(answer := Some(w.db))])
    ensures w.lookups == [l] && IsHit(l) ==>
              var row := l.answer.value.value;
              Next(scan, w, Reply(0, false)) == w.(lookups := [],
                overlay := Some(Cached(row.issues, w.now, row.readVersion, HitAsOf(l, row))),
                served := w.served + [Served(w.now, row.issues, row.readVersion, HitAsOf(l, row))])
  {
    if w.lookups == [l] { assert Cut(w.lookups, 0) == []; }
  }

  lemma ScanOnceBegins(scan: Scanner, content: string, mtime: int, latency: nat, blind: bool)
    ensures TimelyRun(scan, Start(content, mtime), [Begin(false)] + [Answer(0, false)], latency, blind)
    ensures Run(scan, Start(content, mtime), [Begin(false)] + [Answer(0, false)])
            == Start(content, mtime).(lookups := [Lookup(mtime, 0, Some(0), Some(None))])
  {
    var start := Start(content, mtime);
    var l := Lookup(mtime, 0, Some(0), None);
    assert [] + [Begin(false)] == [Begin(false)];
    assert Run(scan, start, []) == start;
    NoSteps(scan, start, latency, blind);
    ScanSteps(scan, start, l);
    ScanSteps(scan, start.(lookups := [l]), l);
    hide Run, TimelyRun, BeginStep, AnswerStep;
    TimelyPush(scan, start, [], Begin(false), latency, blind);
    TimelyPush(scan, start, [Begin(false)], Answer(0, false), latency, blind);
  }

  lemma ScanOnceSteps(scan: Scanner, content: string, mtime: int, latency: nat, blind: bool)
    ensures TimelyRun(scan, Start(content, mtime), [Begin(false)] + [Answer(0, false)] + [Reply(0, false)], latency,
            blind)
    ensures var row := Row(mtime, scan(content), Some(0), 0, 0);
            Run(scan, Start(content, mtime), [Begin(false)] + [Answer(0, false)] + [Reply(0, false)])
            == Start(content, mtime).(writes := [row], overlay := Some(Cached(scan(content), 0, 0, 0)),
              served := [Served(0, scan(content), 0, 0)])
  {
    ScanOnceBegins(scan, content, mtime, latency, blind);
    hide Run, TimelyRun;
    TimelyPush(scan, Start(content, mtime), [Begin(false)] + [Answer(0, false)], Reply(0, false), latency, blind);
  }

  lemma NoSteps(scan: Scanner, start: World, latency: nat, blind: bool)
    requires start.versions != []
    ensures TimelyRun(scan, start, [], latency, blind)
  {
  }

  lemma ScanOnceStores(scan: Scanner, content: string, mtime: int, latency: nat, blind: bool)
    ensures TimelyRun(scan, Start(content, mtime), SCAN_ONCE, latency, blind)
    ensures Run(scan, Start(content, mtime), SCAN_ONCE) == StoredOnly(scan, content, mtime)
  {
    var start := Start(content, mtime);
    var s3 := [Begin(false)] + [Answer(0, false)] + [Reply(0, false)];
    ScanOnceSteps(scan, content, mtime, latency, blind);
    hide Run, TimelyRun;
    TimelyPush(scan, start, s3, WriteLands(0), latency, blind);
    TimelyPush(scan, start, s3 + [WriteLands(0)], DropOverlay, latency, blind);
  }

  /** A scan is stat'ed and the row read, then the file is edited, and the answer takes all of the latency. */
  function SlowAnswer(edited: string, mtime: int, latency: nat): seq<Step> {
    SCAN_ONCE + [Begin(false)] + [Answer(0, false)] + [Edit(edited, mtime + 1)] + [Tick(latency)] + [Reply(0, false)]
  }

  /** Then the overlay keeps the answer for its whole lifetime. */
  function SlowRun(edited: string, mtime: int, latency: nat): seq<Step> {
    SlowAnswer(edited, mtime, latency) + [Tick(120000)] + [Begin(false)]
  }

  /** Edited at time 0 after a scan of the first version was stored. */
  function EditedWorld(scan: Scanner, content: string, edited: string, mtime: int): World {
    StoredOnly(scan, content, mtime).(versions := [Version(content, mtime, 0), Version(edited, mtime + 1, 0)])
  }

  lemma RowIsRead(scan: Scanner, content: string, mtime: int, latency: nat, blind: bool)
    ensures TimelyRun(scan, Start(content, mtime), SCAN_ONCE + [Begin(false)] + [Answer(0, false)], latency, blind)
    ensures var w := StoredOnly(scan, content, mtime);
            Run(scan, Start(content, mtime), SCAN_ONCE + [Begin(false)] + [Answer(0, false)])
            == w.(lookups := [Lookup(mtime, 0, Some(0), Some(w.db))])
  {
    var start, w := Start(content, mtime), StoredOnly(scan, content, mtime);
    var l := Lookup(mtime, 0, Some(0), None);
    ScanOnceStores(scan, content, mtime, latency, blind);
    ScanSteps(scan, w, l);
    ScanSteps(scan, w.(lookups := [l]), l);
    hide Run, SCAN_ONCE, TimelyRun, BeginStep, AnswerStep, ReplyStep;
    TimelyPush(scan, start, SCAN_ONCE, Begin(false), latency, blind);
    TimelyPush(scan, start, SCAN_ONCE + [Begin(false)], Answer(0, false), latency, blind);
  }

  lemma SlowAnswerServes(scan: Scanner, content: string, edited: string, mtime: int, latency: nat, blind: bool)
    requires mtime > 0
    ensures TimelyRun(scan, Start(content, mtime), SlowAnswer(edited, mtime, latency), latency, blind)
    ensures var w := Run(scan, Start(content, mtime), SlowAnswer(edited, mtime, latency));
            w == EditedWorld(scan, content, edited, mtime).(now := latency,
              overlay := Some(Cached(scan(content), latency, 0, 0)), served := w.served)
            && |w.served| == 2
  {
    var start, read := Start(content, mtime), SCAN_ONCE + [Begin(false)] + [Answer(0, false)];
    var l := Lookup(mtime, 0, Some(0), Some(StoredOnly(scan, content, mtime).db));
    var s4 := read + [Edit(edited, mtime + 1)] + [Tick(latency)];
    var w4 := EditedWorld(scan, content, edited, mtime).(lookups := [l], now := latency);
    RowIsRead(scan, content, mtime, latency, blind);
    ScanSteps(scan, w4, l);
    hide Run, SCAN_ONCE, TimelyRun, BeginStep, AnswerStep, ReplyStep;
    TimelyPush(scan, start, read, Edit(edited, mtime + 1), latency, blind);
    TimelyPush(scan, start, read + [Edit(edited, mtime + 1)], Tick(latency), latency, blind);
    assert Run(scan, start, s4) == w4;
    TimelyPush(scan, start, s4, Reply(0, false), latency, blind);
  }

  /**
   The latency has to be counted: the overlay keeps a database answer for 120 seconds from
   the answer, not from the stat, so a timely run serves a version that ceased to be current
   the latency before those 120 seconds.
   */
  lemma LatencyCounts(scan: Scanner, content: string, edited: string, mtime: int, latency: nat, blind: bool)
    requires mtime > 0
    ensures TimelyRun(scan, Start(content, mtime), SlowRun(edited, mtime, latency), latency, blind)
    ensures var w := Run(scan, Start(content, mtime), SlowRun(edited, mtime, latency));
            && w.versions == [Version(content, mtime, 0), Version(edited, mtime + 1, 0)]
            && |w.served| == 3 && w.served[2].issues == scan(content) && w.served[2].at == latency + 120000
  {
    var start, s5 := Start(content, mtime), SlowAnswer(edited, mtime, latency);
    SlowAnswerServes(scan, content, edited, mtime, latency, blind);
    hide Run, SlowAnswer, TimelyRun;
    TimelyPush(scan, start, s5, Tick(120000), latency, blind);
    TimelyPush(scan, start, s5 + [Tick(120000)], Begin(false), latency, blind);
  }

  /** The file is edited, time passes, and a scan whose stat fails is answered with the old row. */
  function BlindRun(edited: string, mtime: int, wait: nat): seq<Step> {
    SCAN_ONCE + [Edit(edited, mtime + 1)] + [Tick(wait)] + [Begin(true)] + [Answer(0, false)] + [Reply(0, false)]
  }

  /** A failed stat reads as time 0 and makes any row a hit, however old it is. */
  lemma FailedStatServesStale(scan: Scanner, content: string, edited: string, mtime: int, wait: nat, latency: nat)
    requires mtime > 0
    ensures TimelyRun(scan, Start(content, mtime), BlindRun(edited, mtime, wait), latency, true)
    ensures var w := Run(scan, Start(content, mtime), BlindRun(edited, mtime, wait));
            && w.versions == [Version(content, mtime, 0), Version(edited, mtime + 1, 0)]
            && |w.served| == 2 && w.served[1].issues == scan(content) && w.served[1].at == wait
  {
    var start, w0 := Start(content, mtime), StoredOnly(scan, content, mtime);
    var l := Lookup(0, wait, None, None);
    var answered := l.(answer := Some(w0.db));
    var s1 := SCAN_ONCE + [Edit(edited, mtime + 1)];
    var s2 := s1 + [Tick(wait)];
    var s3 := s2 + [Begin(true)];
    var s4 := s3 + [Answer(0, false)];
    var w2 := EditedWorld(scan, content, edited, mtime).(now := wait);
    ScanOnceStores(scan, content, mtime, latency, true);
    ScanSteps(scan, w2, l);
    ScanSteps(scan, w2.(lookups := [l]), l);
    ScanSteps(scan, w2.(lookups := [answered]), answered);
    hide Run, SCAN_ONCE, TimelyRun, BeginStep, AnswerStep, ReplyStep;
    TimelyPush(scan, start, SCAN_ONCE, Edit(edited, mtime + 1), latency, true);
    TimelyPush(scan, start, s1, Tick(wait), latency, true);
    assert Run(scan, start, s2) == w2;
    TimelyPush(scan, start, s2, Begin(true), latency, true);
    TimelyPush(scan, start, s3, Answer(0, false), latency, true);
    TimelyPush(scan, start, s4, Reply(0, false), latency, true);
  }

  /** After an edit at time 0 the first version is recent only until the window has left time 0. */
  lemma OldVersionNotRecent(scan: Scanner, w: World, s: Served, content: string, edited: string, mtime: int, age: int)
    requires w.versions == [Version(content, mtime, 0), Version(edited, mtime + 1, 0)]
    requires scan(content) != scan(edited) && s.issues == scan(content) && s.at - 120000 - age > 0
    ensures !IsRecent(scan, w, s, age)
  {
  }

  /**
   For a scanner that tells two contents apart: in every timely run everything served was
   current within the last 120 seconds plus `age`, exactly when `age` covers the latency and
   failed stats are not answered from the database.
   */
  lemma RecentExactly(scan: Scanner, content: string, edited: string, latency: nat, blind: bool, age: int)
    requires scan(content) != scan(edited)
    ensures AlwaysRecent(scan, latency, blind, age) <==> latency <= age && !blind
  {
    if latency <= age && !blind {
      forall content, mtime, steps | mtime > 0 && TimelyRun(scan, Start(content, mtime), steps, latency, blind)
        ensures AllRecent(scan, Run(scan, Start(content, mtime), steps), age)
      {
        TimelyIsRecent(scan, content, mtime, steps, latency, age);
      }
    } else if latency > age {
      LatencyCounts(scan, content, edited, 1, latency, blind);
      var w := Run(scan, Start(content, 1), SlowRun(edited, 1, latency));
      OldVersionNotRecent(scan, w, w.served[2], content, edited, 1, age);
      assert !AllRecent(scan, w, age);
    } else {
      FailedStatServesStale(scan, content, edited, 1, 120001 + age, latency);
      var w := Run(scan, Start(content, 1), BlindRun(edited, 1, 120001 + age));
      OldVersionNotRecent(scan, w, w.served[1], content, edited, 1, age);
      assert !AllRecent(scan, w, age);
    }
  }

  lemma TimelyIsRecent(scan: Scanner, content: string, mtime: int, steps: seq<Step>, latency: nat, age: int)
    requires mtime > 0 && TimelyRun(scan, Start(content, mtime), steps, latency, false) && latency <= age
    ensures AllRecent(scan, Run(scan, Start(content, mtime), steps), age)
  {
    var w := Run(scan, Start(content, mtime), steps);
    forall i | 0 <= i < |w.served| ensures IsRecent(scan, w, w.served[i], age) {
      ServedIsFresh(scan, content, mtime, steps, latency, i);
    }
  }
}
