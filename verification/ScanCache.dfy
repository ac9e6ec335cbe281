/**
 The incremental scanner over many files: an in-memory overlay in front of database rows,
 both holding unfiltered issue lists. `ScanFreshness` treats time and overlapping scans.
 */
module ScanCache {
  import opened Basics
  import opened Recency
  import MC = MemoryCache

  datatype Row = Row(mtime: int, issues: Issues)

  /**
   What a scan meets at one file: a failed stat gives modification time 0, an unreadable file
   no content. The overlay is asked at `lookupAt` and written at `storeAt`; each time the
   database may fail.
   */
  datatype File = File(path: string, mtime: int, content: Option<string>, lookupAt: int, storeAt: int,
    dbReadFails: bool, dbWriteFails: bool)

  datatype Outcome = Outcome(path: string, issues: Issues, fromCache: bool)

  /** The overlay's contents and the database rows. */
  datatype Caches = Caches(overlay: seq<Slot<Issues>>, rows: map<string, Row>)

  datatype Settings = Settings(maxSize: int, ttlMs: int, scan: (string, string) -> Issues)

  function MemKey(path: string): string {
    "scan:" + path
  }

  /** The database has a row for the file at least as new as the file, and answers. */
  predicate RowServes(c: Caches, f: File) {
    !f.dbReadFails && f.path in c.rows && c.rows[f.path].mtime >= f.mtime
  }

  function Store(s: Settings, overlay: seq<Slot<Issues>>, f: File, issues: Issues): seq<Slot<Issues>> {
    Apply(overlay, s.maxSize, s.ttlMs, f.storeAt, Set(MemKey(f.path), issues, None)).0
  }

  /** The cached issue list of a file: the overlay first, then a row at least as new as the file. */
  function Cached(s: Settings, c: Caches, f: File): (Caches, Option<Issues>) {
    var (overlay, reply) := Apply(c.overlay, s.maxSize, s.ttlMs, f.lookupAt, Op.Get(MemKey(f.path)));
    if reply.Value? && reply.found.Some? then (Caches(overlay, c.rows), reply.found)
    else if RowServes(c, f) then
      (Caches(Store(s, overlay, f, c.rows[f.path].issues), c.rows), Some(c.rows[f.path].issues))
    else (Caches(overlay, c.rows), None)
  }

  lemma CachedCases(s: Settings, c: Caches, f: File)
    ensures var (overlay, reply) := Apply(c.overlay, s.maxSize, s.ttlMs, f.lookupAt, Op.Get(MemKey(f.path)));
            && (forall found ::
                  reply == Value(Some(found)) ==> Cached(s, c, f) == (Caches(overlay, c.rows), Some(found)))
            && (reply == Value(None) && RowServes(c, f) ==>
                  Cached(s, c, f) == (Caches(Store(s, overlay, f, c.rows[f.path].issues), c.rows),
                    Some(c.rows[f.path].issues)))
            && (reply == Value(None) && !RowServes(c, f) ==> Cached(s, c, f) == (Caches(overlay, c.rows), None))
  {
  }

  /** A row that cannot be written stays as it was. */
  function Stored(s: Settings, c: Caches, f: File, issues: Issues): Caches {
    Caches(Store(s, c.overlay, f, issues), if f.dbWriteFails then c.rows else c.rows[f.path := Row(f.mtime, issues)])
  }

  /** One file of a scan: its unfiltered issues, or nothing when it can be neither found cached nor read. */
  function ScanFile(s: Settings, c: Caches, f: File): (Caches, Option<Outcome>) {
    var (looked, cached) := Cached(s, c, f);
    match cached
    case Some(issues) => (looked, Some(Outcome(f.path, issues, true)))
    case None =>
      match f.content
      case None => (looked, None)
      case Some(content) =>
        var issues := s.scan(content, f.path);
        (Stored(s, looked, f, issues), Some(Outcome(f.path, issues, false)))
  }

  /** The overlay holds an entry of the file that has not run out. */
  predicate OverlayHas(c: Caches, f: File) {
    match Lookup(c.overlay, MemKey(f.path))
    case None => false
    case Some(e) => e.expiresAt <= 0 || f.lookupAt <= e.expiresAt
  }

  /**
   Where an answer comes from: the overlay while its entry lasts, then the database if it answers
   and its row is no older than the file, and otherwise the file itself, when it can be read.
   */
  lemma AnswerComesFrom(s: Settings, c: Caches, f: File)
    ensures var outcome := ScanFile(s, c, f).1;
            var current := !f.dbReadFails && f.path in c.rows && c.rows[f.path].mtime >= f.mtime;
            && (OverlayHas(c, f) ==>
                  outcome == Some(Outcome(f.path, Lookup(c.overlay, MemKey(f.path)).value.value, true)))
            && (!OverlayHas(c, f) && current ==> outcome == Some(Outcome(f.path, c.rows[f.path].issues, true)))
            && (!OverlayHas(c, f) && !current ==>
                  outcome == match f.content
                             case None => None
                             case Some(content) => Some(Outcome(f.path, s.scan(content, f.path), false)))
  {
    hide Store, Stored;
  }

  function ScanFiles(s: Settings, c: Caches, files: seq<File>): (Caches, seq<Outcome>) {
    if files == [] then (c, [])
    else
      var (before, outcomes) := ScanFiles(s, c, files[..|files| - 1]);
      var (after, outcome) := ScanFile(s, before, files[|files| - 1]);
      (after, if outcome.Some? then outcomes + [outcome.value] else outcomes)
  }

  /** The statistics of a scan; a rescanned file counts as new only when its stat failed. */
  datatype Tally = Tally(cached: nat, rescanned: nat, added: nat)

  function Counted(t: Tally, f: File, outcome: Option<Outcome>): Tally {
    if outcome.None? then t
    else if outcome.value.fromCache then t.(cached := t.cached + 1)
    else if f.mtime > 0 then t.(rescanned := t.rescanned + 1)
    else t.(added := t.added + 1)
  }

  function TallyFiles(s: Settings, c: Caches, files: seq<File>): Tally {
    if files == [] then Tally(0, 0, 0)
    else
      var front, f := files[..|files| - 1], files[|files| - 1];
      Counted(TallyFiles(s, c, front), f, ScanFile(s, ScanFiles(s, c, front).0, f).1)
  }

  /** Rows of files that the walk no longer finds are dropped. */
  function StillPresent(rows: map<string, Row>, files: seq<File>): map<string, Row> {
    map path | path in rows && path in (set i | 0 <= i < |files| :: files[i].path) :: rows[path]
  }

  lemma RowsDropped(rows: map<string, Row>, files: seq<File>, gone: set<string>)
    requires gone == rows.Keys - set i | 0 <= i < |files| :: files[i].path
    ensures rows - gone == StillPresent(rows, files)
    ensures |gone| == |rows| - |rows - gone|
  {
    var kept := rows - gone;
    assert rows.Keys == kept.Keys + gone;
    hide *;
    assert |rows.Keys| == |kept.Keys| + |gone|;
    assert |rows| == |rows.Keys| && |kept| == |kept.Keys|;
  }

  lemma NextFile(s: Settings, c: Caches, files: seq<File>, i: nat)
    requires i < |files|
    ensures var (before, outcomes) := ScanFiles(s, c, files[..i]);
            var (after, outcome) := ScanFile(s, before, files[i]);
            && ScanFiles(s, c, files[..i + 1]) ==
               (after, if outcome.Some? then outcomes + [outcome.value] else outcomes)
            && TallyFiles(s, c, files[..i + 1]) == Counted(TallyFiles(s, c, files[..i]), files[i], outcome)
  {
    assert files[..i + 1][..i] == files[..i];
  }

  // ----- filters -----

  function Level(severity: string): int {
    if severity == "info" then 0 else if severity == "warning" then 1 else if severity == "error" then 2 else -1
  }

  /** An absent, empty or "all" filter lets everything pass. */
  datatype Filter = Filter(category: Option<string>, severity: Option<string>) {
    predicate Passes(i: Issue) {
      && (category.Some? && category.value != "" && category.value != "all" ==> i.category == category.value)
      && (severity.Some? && severity.value != "" && severity.value != "all"
          ==> Level(i.severity) >= Level(severity.value))
    }
  }

  /** The severities from the one asked for on; an unknown one asks for nothing. */
  predicate AtLeastAsSevere(severity: string, least: string) {
    match least
    case "info" => severity == "info" || severity == "warning" || severity == "error"
    case "warning" => severity == "warning" || severity == "error"
    case "error" => severity == "error"
    case _ => true
  }

  predicate Asks(wanted: Option<string>) {
    wanted.Some? && wanted.value != "" && wanted.value != "all"
  }

  /** What a filter lets through, severity by severity. */
  lemma PassesExactly(filter: Filter, i: Issue)
    ensures filter.Passes(i)
            <==> (Asks(filter.category) ==> i.category == filter.category.value)
                 && (Asks(filter.severity) ==> AtLeastAsSevere(i.severity, filter.severity.value))
  {
  }

  function Filtered(issues: Issues, filter: Filter): Issues {
    if issues == [] then []
    else
      var front := Filtered(issues[..|issues| - 1], filter);
      if filter.Passes(issues[|issues| - 1]) then front + [issues[|issues| - 1]] else front
  }

  /** Files without a passing issue are not listed. */
  function Shown(outcomes: seq<Outcome>, filter: Filter): seq<Outcome> {
    if outcomes == [] then []
    else
      var front, o := Shown(outcomes[..|outcomes| - 1], filter), outcomes[|outcomes| - 1];
      var issues := Filtered(o.issues, filter);
      if issues != [] then front + [Outcome(o.path, issues, o.fromCache)] else front
  }

  ghost predicate Increasing(at: seq<nat>, length: nat) {
    (forall k, l | 0 <= k < l < |at| :: at[k] < at[l]) && forall k | 0 <= k < |at| :: at[k] < length
  }

  /** A filter keeps exactly the issues that pass, in order. */
  lemma {:induction false} FilteredExactly(issues: Issues, filter: Filter) returns (at: seq<nat>)
    ensures var kept := Filtered(issues, filter);
            && Increasing(at, |issues|) && |at| == |kept| && (forall k | 0 <= k < |at| :: kept[k] == issues[at[k]])
            && forall i | 0 <= i < |issues| :: i in at <==> filter.Passes(issues[i])
  {
    at := [];
    if issues != [] {
      var front := issues[..|issues| - 1];
      at := FilteredExactly(front, filter);
      if filter.Passes(issues[|issues| - 1]) { at := at + [|front|]; }
    }
  }

  ghost predicate HasPassing(o: Outcome, filter: Filter) {
    exists n :: 0 <= n < |o.issues| && filter.Passes(o.issues[n])
  }

  lemma PassingAreKept(o: Outcome, filter: Filter)
    ensures Filtered(o.issues, filter) != [] <==> HasPassing(o, filter)
  {
    var at := FilteredExactly(o.issues, filter);
    if at != [] { assert at[0] in at; }
  }

  /** The results are the outcomes that have a passing issue, in order, each with its passing issues. */
  lemma {:induction false} ShownExactly(outcomes: seq<Outcome>, filter: Filter) returns (at: seq<nat>)
    ensures var shown := Shown(outcomes, filter);
            && Increasing(at, |outcomes|) && |at| == |shown|
            && (forall k | 0 <= k < |at| ::
                  shown[k] == outcomes[at[k]].(issues := Filtered(outcomes[at[k]].issues, filter)))
            && forall i | 0 <= i < |outcomes| :: i in at <==> HasPassing(outcomes[i], filter)
  {
    at := [];
    if outcomes != [] {
      var front, o := outcomes[..|outcomes| - 1], outcomes[|outcomes| - 1];
      at := ShownExactly(front, filter);
      PassingAreKept(o, filter);
      ShownPush(front, o, filter);
      assert outcomes == front + [o];
      hide HasPassing, Filtered, Shown;
      if HasPassing(o, filter) { at := at + [|front|]; }
    }
  }

  // ----- statistics -----

  function CachedOutcomes(outcomes: seq<Outcome>): nat {
    if outcomes == [] then 0
    else CachedOutcomes(outcomes[..|outcomes| - 1]) + if outcomes[|outcomes| - 1].fromCache then 1 else 0
  }

  /**
   Every outcome is counted once, those from a cache as such, and the others as rescanned or as
   new according to whether the stat gave a time.
   */
  lemma {:induction false} CountsAddUp(s: Settings, c: Caches, files: seq<File>)
    ensures var t, outcomes := TallyFiles(s, c, files), ScanFiles(s, c, files).1;
            && t.cached + t.rescanned + t.added == |outcomes| && t.cached == CachedOutcomes(outcomes)
            && ((forall i | 0 <= i < |files| :: files[i].mtime > 0) ==> t.added == 0)
            && ((forall i | 0 <= i < |files| :: files[i].mtime <= 0) ==> t.rescanned == 0)
  {
    if files != [] {
      var front, f := files[..|files| - 1], files[|files| - 1];
      CountsAddUp(s, c, front);
      var (before, outcomes) := ScanFiles(s, c, front);
      var outcome := ScanFile(s, before, f).1;
      hide ScanFile;
      if outcome.Some? { assert (outcomes + [outcome.value])[..|outcomes|] == outcomes; }
    }
  }

  lemma ShownPush(outcomes: seq<Outcome>, o: Outcome, filter: Filter)
    ensures var issues := Filtered(o.issues, filter);
            Shown(outcomes + [o], filter) == Shown(outcomes, filter)
              + if issues != [] then [Outcome(o.path, issues, o.fromCache)] else []
  {
    assert (outcomes + [o])[..|outcomes|] == outcomes;
  }

  class IncrementalScanner {
    const overlay: MC.MemoryCache<Issues>
    var rows: map<string, Row>
    const scan: (string, string) -> Issues

    ghost function View(): Caches
      reads this, overlay, overlay.order
    {
      Caches(overlay.Contents(), rows)
    }

    ghost function Limits(): Settings
      reads this
    {
      Settings(overlay.maxSize, overlay.defaultTtlMs, scan)
    }

    constructor (scan: (string, string) -> Issues)
      ensures overlay.Valid() && View() == Caches([], map[])
      ensures Limits() == Settings(1000, 120000, scan)
    {
      this.scan := scan;
      rows := map[];
      overlay := new MC.MemoryCache<Issues>(1000, 120000);
    }

    method GetCachedScan(f: File) returns (cached: Option<Issues>)
      requires overlay.Valid()
      modifies overlay, overlay.order
      ensures overlay.Valid() && (forall n | n in overlay.order :: n in old(overlay.order) || fresh(n))
      ensures (View(), cached) == Cached(Limits(), old(View()), f)
    {
      CachedCases(Limits(), View(), f);
      hide Apply, Cached, MC.MemoryCache.Valid, MC.MemoryCache.Contents;
      cached := overlay.Get(MemKey(f.path), f.lookupAt);
      if cached.Some? { return; }
      if !f.dbReadFails && f.path in rows && rows[f.path].mtime >= f.mtime {
        cached := Some(rows[f.path].issues);
        assert forall i | 0 <= i < |overlay.order| :: overlay.order[i] in old(overlay.order);
        overlay.Set(MemKey(f.path), rows[f.path].issues, None, f.storeAt);
      }
    }

    method SetCachedScan(f: File, issues: Issues)
      requires overlay.Valid()
      modifies this`rows, overlay, overlay.order
      ensures overlay.Valid() && (forall n | n in overlay.order :: n in old(overlay.order) || fresh(n))
      ensures View() == Stored(Limits(), old(View()), f, issues)
    {
      hide Apply, MC.MemoryCache.Valid, MC.MemoryCache.Contents;
      overlay.Set(MemKey(f.path), issues, None, f.storeAt);
      if !f.dbWriteFails {
        rows := rows[f.path := Row(f.mtime, issues)];
      }
    }

    method PurgeDeletedFiles(files: seq<File>, dbFails: bool) returns (deleted: nat)
      modifies this`rows
      ensures rows == if dbFails then old(rows) else StillPresent(old(rows), files)
      ensures deleted == |old(rows)| - |rows|
    {
      if dbFails { return 0; }
      var currentFiles := set i | 0 <= i < |files| :: files[i].path;
      var gone := rows.Keys - currentFiles;
      RowsDropped(rows, files, gone);
      deleted := |gone|;
      rows := rows - gone;
    }

    method ScanOne(f: File) returns (outcome: Option<Outcome>)
      requires overlay.Valid()
      modifies this`rows, overlay, overlay.order
      ensures overlay.Valid() && (forall n | n in overlay.order :: n in old(overlay.order) || fresh(n))
      ensures (View(), outcome) == ScanFile(Limits(), old(View()), f)
    {
      hide Cached, Stored;
      var cached := GetCachedScan(f);
      if cached.Some? {
        return Some(Outcome(f.path, cached.value, true));
      }
      match f.content {
        case None => outcome := None;
        case Some(content) =>
          var issues := scan(content, f.path);
          SetCachedScan(f, issues);
          outcome := Some(Outcome(f.path, issues, false));
      }
    }

    /** The caches after a scan do not depend on its filters; the results are filtered on the way out. */
    method IncrementalScan(files: seq<File>, filter: Filter, purgeFails: bool)
      returns (results: seq<Outcome>, cachedFiles: nat, rescannedFiles: nat, newFiles: nat, deletedFiles: nat)
      requires overlay.Valid()
      modifies this`rows, overlay, overlay.order
      ensures overlay.Valid() && (forall n | n in overlay.order :: n in old(overlay.order) || fresh(n))
      ensures var (after, outcomes) := ScanFiles(Limits(), old(View()), files);
              && View() == Caches(after.overlay, if purgeFails then after.rows else StillPresent(after.rows, files))
              && results == Shown(outcomes, filter)
              && Tally(cachedFiles, rescannedFiles, newFiles) == TallyFiles(Limits(), old(View()), files)
              && deletedFiles == |after.rows| - |rows|
    {
      hide ScanFile, StillPresent, MC.MemoryCache.Valid, MC.MemoryCache.Contents;
      ghost var s, before := Limits(), View();
      assert files[..0] == [];
      results, cachedFiles, rescannedFiles, newFiles := [], 0, 0, 0;
      ghost var outcomes: seq<Outcome> := [];
      for i := 0 to |files|
        invariant overlay.Valid() && (forall n | n in overlay.order :: n in old(overlay.order) || fresh(n))
        invariant (View(), outcomes) == ScanFiles(s, before, files[..i])
        invariant results == Shown(outcomes, filter)
        invariant Tally(cachedFiles, rescannedFiles, newFiles) == TallyFiles(s, before, files[..i])
      {
        hide ScanFiles, TallyFiles, Shown, Filtered;
        NextFile(s, before, files, i);
        assert forall j | 0 <= j < |overlay.order| :: overlay.order[j] in old(overlay.order) || fresh(overlay.order[j]);
        var outcome := ScanOne(files[i]);
        if outcome.Some? {
          if outcome.value.fromCache {
            cachedFiles := cachedFiles + 1;
          } else if files[i].mtime > 0 {
            rescannedFiles := rescannedFiles + 1;
          } else {
            newFiles := newFiles + 1;
          }
          var issues := Filtered(outcome.value.issues, filter);
          ShownPush(outcomes, outcome.value, filter);
          if |issues| > 0 {
            results := results + [Outcome(outcome.value.path, issues, outcome.value.fromCache)];
          }
          outcomes := outcomes + [outcome.value];
        }
      }
      assert files[..|files|] == files;
      deletedFiles := PurgeDeletedFiles(files, purgeFails);
    }
  }

  datatype Request = Request(files: seq<File>, filter: Filter, purgeFails: bool)

  function AfterScan(s: Settings, c: Caches, r: Request): Caches {
    var after := ScanFiles(s, c, r.files).0;
    Caches(after.overlay, if r.purgeFails then after.rows else StillPresent(after.rows, r.files))
  }

  function AfterScans(s: Settings, c: Caches, requests: seq<Request>): Caches {
    if requests == [] then c else AfterScan(s, AfterScans(s, c, requests[..|requests| - 1]), requests[|requests| - 1])
  }

  /** What the last of several scans shows. */
  function LastResult(s: Settings, c: Caches, requests: seq<Request>): seq<Outcome>
    requires requests != []
  {
    var last := requests[|requests| - 1];
    Shown(ScanFiles(s, AfterScans(s, c, requests[..|requests| - 1]), last.files).1, last.filter)
  }

  // ----- agreement with a full scan -----

  /** What each path's issues are while its content stays the same. */
  type Truth = string -> Issues

  /** Both caches hold nothing but the truth. */
  ghost predicate Truthful(s: Settings, c: Caches, truth: Truth) {
    && DistinctKeys(c.overlay) && |c.overlay| <= Cap(s.maxSize)
    && (forall i, path | 0 <= i < |c.overlay| && c.overlay[i].key == MemKey(path) ::
        c.overlay[i].entry.value == truth(path))
    && (forall path | path in c.rows :: c.rows[path].issues == truth(path))
  }

  ghost predicate Unchanged(s: Settings, files: seq<File>, truth: Truth) {
    forall i | 0 <= i < |files| && files[i].content.Some? ::
      s.scan(files[i].content.value, files[i].path) == truth(files[i].path)
  }

  lemma SameKeySamePath(a: string, b: string)
    requires MemKey(a) == MemKey(b)
    ensures a == b
  {
    assert MemKey(a)[5..] == a && MemKey(b)[5..] == b;
  }

  /** The overlay stays truthful under a lookup and under storing the truth. */
  lemma OverlayStaysTruthful(s: Settings, c: Caches, truth: Truth, op: Op<Issues>, now: int, rows: map<string, Row>)
    requires Truthful(s, c, truth) && (op.Get? || op.Set?)
    requires op.Set? ==> forall path | op.key == MemKey(path) :: op.value == truth(path)
    requires forall path | path in rows :: rows[path].issues == truth(path)
    ensures Truthful(s, Caches(Apply(c.overlay, s.maxSize, s.ttlMs, now, op).0, rows), truth)
  {
    var after := Apply(c.overlay, s.maxSize, s.ttlMs, now, op).0;
    ApplyKeepsShape(c.overlay, s.maxSize, s.ttlMs, now, op);
    hide Apply, MemKey;
    forall i, path | 0 <= i < |after| && after[i].key == MemKey(path) ensures after[i].entry.value == truth(path) {
      AfterComesFromBefore(c.overlay, s.maxSize, s.ttlMs, Timed(now, op), after[i]);
    }
  }

  lemma HitIsTrue(s: Settings, c: Caches, truth: Truth, path: string, now: int)
    requires Truthful(s, c, truth)
    ensures var reply := Apply(c.overlay, s.maxSize, s.ttlMs, now, Op.Get(MemKey(path))).1;
            reply == Value(None) || reply == Value(Some(truth(path)))
  {
    if Lookup(c.overlay, MemKey(path)).Some? { FoundIsListed(c.overlay, MemKey(path)); }
  }

  lemma CachedIsTrue(s: Settings, c: Caches, truth: Truth, f: File)
    requires Truthful(s, c, truth)
    ensures var (after, cached) := Cached(s, c, f);
            Truthful(s, after, truth) && (cached.Some? ==> cached.value == truth(f.path))
  {
    CachedCases(s, c, f);
    HitIsTrue(s, c, truth, f.path, f.lookupAt);
    var get: Op<Issues> := Op.Get(MemKey(f.path));
    OverlayStaysTruthful(s, c, truth, get, f.lookupAt, c.rows);
    var looked := Caches(Apply(c.overlay, s.maxSize, s.ttlMs, f.lookupAt, get).0, c.rows);
    hide Truthful, Apply, Cached;
    if RowServes(c, f) {
      StoringTruth(s, looked, truth, f, c.rows[f.path].issues, c.rows);
    }
  }

  lemma StoringTruth(s: Settings, c: Caches, truth: Truth, f: File, issues: Issues, rows: map<string, Row>)
    requires Truthful(s, c, truth)
    requires issues == truth(f.path) && forall p | p in rows :: rows[p].issues == truth(p)
    ensures Truthful(s, Caches(Store(s, c.overlay, f, issues), rows), truth)
  {
    hide MemKey, Truthful, Apply;
    forall p | MemKey(f.path) == MemKey(p) ensures issues == truth(p) { SameKeySamePath(f.path, p); }
    OverlayStaysTruthful(s, c, truth, Set(MemKey(f.path), issues, None), f.storeAt, rows);
  }

  lemma ScanFileIsTrue(s: Settings, c: Caches, truth: Truth, f: File)
    requires Truthful(s, c, truth) && Unchanged(s, [f], truth)
    ensures var (after, outcome) := ScanFile(s, c, f);
            && Truthful(s, after, truth)
            && (f.content.Some? ==> outcome.Some?)
            && (outcome.Some? ==> outcome.value.path == f.path && outcome.value.issues == truth(f.path))
  {
    CachedIsTrue(s, c, truth, f);
    var (looked, cached) := Cached(s, c, f);
    if cached.None? && f.content.Some? {
      assert [f][0] == f;
      var issues := s.scan(f.content.value, f.path);
      hide Apply, Cached;
      StoringTruth(s, looked, truth, f, issues, Stored(s, looked, f, issues).rows);
    }
  }

  /** Files are scanned once each, in order; what is found is the truth, found cached or not. */
  lemma {:induction false} ScanFilesIsTrue(s: Settings, c: Caches, truth: Truth, files: seq<File>)
    requires Truthful(s, c, truth) && Unchanged(s, files, truth)
    ensures var (after, outcomes) := ScanFiles(s, c, files);
            && Truthful(s, after, truth)
            && ((forall i | 0 <= i < |files| :: files[i].content.Some?)
                ==> Unflagged(outcomes) == FullScan(files, truth))
  {
    if files != [] {
      var front, f := files[..|files| - 1], files[|files| - 1];
      ScanFilesIsTrue(s, c, truth, front);
      var (before, outcomes) := ScanFiles(s, c, front);
      assert Unchanged(s, [f], truth);
      hide Truthful, ScanFile;
      ScanFileIsTrue(s, before, truth, f);
      var (after, outcome) := ScanFile(s, before, f);
      if outcome.Some? { UnflaggedPush(outcomes, outcome.value); }
    }
  }

  /** The reference answer: every file read and scanned, nothing cached. */
  function FullScan(files: seq<File>, truth: Truth): seq<Outcome> {
    if files == [] then []
    else
      FullScan(files[..|files| - 1], truth)
      + [Outcome(files[|files| - 1].path, truth(files[|files| - 1].path), false)]
  }

  /** Outcomes without the note where they came from. */
  function Unflagged(outcomes: seq<Outcome>): (r: seq<Outcome>)
    ensures |r| == |outcomes| && forall i | 0 <= i < |r| :: r[i] == outcomes[i].(fromCache := false)
  {
    seq(|outcomes|, i requires 0 <= i < |outcomes| => outcomes[i].(fromCache := false))
  }

  lemma UnflaggedPush(outcomes: seq<Outcome>, o: Outcome)
    ensures Unflagged(outcomes + [o]) == Unflagged(outcomes) + [o.(fromCache := false)]
  {
  }

  lemma {:induction false} ShownUnflagged(outcomes: seq<Outcome>, filter: Filter)
    ensures Unflagged(Shown(outcomes, filter)) == Shown(Unflagged(outcomes), filter)
  {
    if outcomes != [] {
      var front, o := outcomes[..|outcomes| - 1], outcomes[|outcomes| - 1];
      ShownUnflagged(front, filter);
      assert Unflagged(outcomes)[..|outcomes| - 1] == Unflagged(front);
      UnflaggedPush(Shown(front, filter), Outcome(o.path, Filtered(o.issues, filter), o.fromCache));
    }
  }

  lemma {:induction false} ScansStayTruthful(s: Settings, c: Caches, truth: Truth, requests: seq<Request>)
    requires Truthful(s, c, truth) && forall i | 0 <= i < |requests| :: Unchanged(s, requests[i].files, truth)
    ensures Truthful(s, AfterScans(s, c, requests), truth)
  {
    if requests != [] {
      ScansStayTruthful(s, c, truth, requests[..|requests| - 1]);
      var last := requests[|requests| - 1];
      hide ScanFiles;
      ScanFilesIsTrue(s, AfterScans(s, c, requests[..|requests| - 1]), truth, last.files);
    }
  }

  /**
   While contents stay the same, an incremental scan shows what a full scan would show, after
   any history of scans: whatever files they covered, filters they used, entries expired,
   were evicted or purged, or modification times changed in between.
   */
  lemma IncrementalIsFullScan(s: Settings, truth: Truth, requests: seq<Request>)
    requires requests != [] && forall i | 0 <= i < |requests| :: Unchanged(s, requests[i].files, truth)
    requires var last := requests[|requests| - 1].files; forall i | 0 <= i < |last| :: last[i].content.Some?
    ensures var last := requests[|requests| - 1];
            Unflagged(LastResult(s, Caches([], map[]), requests)) == Shown(FullScan(last.files, truth), last.filter)
  {
    var front, last := requests[..|requests| - 1], requests[|requests| - 1];
    var empty := Caches([], map[]);
    assert Truthful(s, empty, truth);
    ScansStayTruthful(s, empty, truth, front);
    ScanFilesIsTrue(s, AfterScans(s, empty, front), truth, last.files);
    ShownUnflagged(ScanFiles(s, AfterScans(s, empty, front), last.files).1, last.filter);
  }

  // ----- earlier filters leave no trace -----

  /**
   Two histories of scans that meet the same at the same files leave the same caches, whatever they
   were filtered by.
   */
  lemma {:induction false} FiltersLeaveNoTrace(s: Settings, c: Caches, a: seq<Request>, b: seq<Request>)
    requires |a| == |b| && forall i | 0 <= i < |a| :: a[i].files == b[i].files && a[i].purgeFails == b[i].purgeFails
    ensures AfterScans(s, c, a) == AfterScans(s, c, b)
    ensures a != [] && a[|a| - 1].filter == b[|b| - 1].filter ==> LastResult(s, c, a) == LastResult(s, c, b)
  {
    if a != [] {
      FiltersLeaveNoTrace(s, c, a[..|a| - 1], b[..|b| - 1]);
    }
  }
}
