/**
 The scanner over many files does, to each one of them, what the one-file model of module
 `ScanFreshness` does; so what is proved there about staleness holds of the scanner's answers.
 */
module ScanRefinement {
  import opened Basics
  import R = Recency
  import C = ScanCache
  import F = ScanFreshness

  // ----- the overlay, key by key -----

  lemma {:induction false} OthersStay<T>(list: seq<R.Slot<T>>, key: string, other: string)
    requires key != other
    ensures R.Lookup(R.Without(list, key), other) == R.Lookup(list, other)
  {
    if list != [] { OthersStay(list[1..], key, other); }
  }

  lemma {:induction false} PrefixLookup<T>(list: seq<R.Slot<T>>, n: nat, key: string)
    requires n <= |list|
    ensures R.Lookup(list[..n], key) == None || R.Lookup(list[..n], key) == R.Lookup(list, key)
  {
    if n > 0 {
      PrefixLookup(list[1..], n - 1, key);
      assert list[..n][1..] == list[1..][..n - 1];
    }
  }

  lemma {:induction false} GoneAfterWithout<T>(list: seq<R.Slot<T>>, key: string)
    ensures R.Lookup(R.Without(list, key), key) == None
  {
    if list != [] { GoneAfterWithout(list[1..], key); }
  }

  lemma InFront<T>(slot: R.Slot<T>, list: seq<R.Slot<T>>, key: string)
    ensures R.Lookup([slot] + list, key) == if slot.key == key then Some(slot.entry) else R.Lookup(list, key)
  {
    assert ([slot] + list)[1..] == list;
  }

  /** A lookup drops an entry that has run out, and counts an access otherwise. */
  lemma AfterGet<T>(list: seq<R.Slot<T>>, maxSize: int, ttlMs: int, now: int, key: string)
    ensures var after := R.Apply(list, maxSize, ttlMs, now, R.Get(key)).0;
            R.Lookup(after, key) == match R.Lookup(list, key)
                                    case None => None
                                    case Some(e) => if R.Expired(e, now) then None else Some(R.Touched(e, now))
    ensures forall other | other != key ::
              R.Lookup(R.Apply(list, maxSize, ttlMs, now, R.Get(key)).0, other) == R.Lookup(list, other)
  {
    GoneAfterWithout(list, key);
    if R.Lookup(list, key).Some? {
      InFront(R.Slot(key, R.Touched(R.Lookup(list, key).value, now)), R.Without(list, key), key);
    }
    forall other | other != key
      ensures R.Lookup(R.Apply(list, maxSize, ttlMs, now, R.Get(key)).0, other) == R.Lookup(list, other)
    {
      OthersStay(list, key, other);
      if R.Lookup(list, key).Some? {
        InFront(R.Slot(key, R.Touched(R.Lookup(list, key).value, now)), R.Without(list, key), other);
      }
    }
  }

  /** A write is found afterwards; it may push out another entry. */
  lemma AfterSet<T>(list: seq<R.Slot<T>>, maxSize: int, ttlMs: int, now: int, key: string, value: T)
    requires maxSize >= 1
    ensures var after := R.Apply(list, maxSize, ttlMs, now, R.Set(key, value, None)).0;
            R.Lookup(after, key) == Some(R.NewEntry(value, None, ttlMs, now))
    ensures var after := R.Apply(list, maxSize, ttlMs, now, R.Set(key, value, None)).0;
            forall other | other != key ::
              R.Lookup(after, other) == None || R.Lookup(after, other) == R.Lookup(list, other)
  {
    var slot := R.Slot(key, R.NewEntry(value, None, ttlMs, now));
    var after := R.Apply(list, maxSize, ttlMs, now, R.Set(key, value, None)).0;
    R.EvictedIsPrefix([slot] + list, maxSize);
    hide R.Lookup, R.Without, R.Evicted;
    InFront(slot, R.Without(list, key), key);
    InFront(slot, list[..if |list| < maxSize then |list| else maxSize - 1], key);
    assert |list| >= maxSize ==> ([slot] + list)[..maxSize] == [slot] + list[..maxSize - 1];
    assert list[..|list|] == list;
    forall other | other != key
      ensures R.Lookup(after, other) == None || R.Lookup(after, other) == R.Lookup(list, other)
    {
      OthersStay(list, key, other);
      InFront(slot, R.Without(list, key), other);
      InFront(slot, list[..if |list| < maxSize then |list| else maxSize - 1], other);
      PrefixLookup(list, if |list| < maxSize then |list| else maxSize - 1, other);
    }
  }

  // ----- one file of the scanner as a world -----

  /** The settings of the scanner: a lifetime of two minutes and room for at least one file. */
  ghost predicate SettingsOk(s: C.Settings) {
    s.ttlMs == 120000 && s.maxSize >= 1
  }

  /** The overlay entries of the file are the same in both. */
  ghost predicate SameOverlay(list: seq<R.Slot<Issues>>, path: string, cached: Option<F.Cached>) {
    match R.Lookup(list, C.MemKey(path))
    case None => cached == None
    case Some(e) => cached.Some? && cached.value.issues == e.value && cached.value.setAt + 120000 == e.expiresAt
                    && cached.value.setAt >= 0
  }

  ghost predicate SameRow(rows: map<string, C.Row>, path: string, row: Option<F.Row>) {
    if path in rows then row.Some? && row.value.mtime == rows[path].mtime && row.value.issues == rows[path].issues
    else row == None
  }

  /** The world shows what the caches hold for the file, and no scan of it is under way. */
  ghost predicate Shows(c: C.Caches, path: string, w: F.World) {
    && w.versions != [] && w.now >= 0 && w.lookups == [] && w.writes == []
    && SameOverlay(c.overlay, path, w.overlay) && SameRow(c.rows, path, w.db)
  }

  /** What a scan of the file meets is what is there, unless the stat or the reading fails. */
  ghost predicate TrueTo(w: F.World, f: C.File, statFails: bool) {
    && w.versions != [] && w.now <= f.lookupAt <= f.storeAt
    && f.mtime == (if statFails then 0 else w.versions[|w.versions| - 1].mtime)
    && (f.content == None || f.content == Some(w.versions[|w.versions| - 1].content))
  }

  /** The steps of one scan of the file that the overlay answers. */
  function HitSteps(w: F.World, f: C.File, statFails: bool): seq<F.Step>
    requires w.now <= f.lookupAt <= f.storeAt
  {
    [F.Tick(f.lookupAt - w.now)] + [F.Begin(statFails)] + [F.Tick(f.storeAt - f.lookupAt)]
  }

  /** The steps of one scan of the file that the overlay does not answer, from the stat to the end of its write. */
  function MissSteps(w: F.World, f: C.File, statFails: bool): seq<F.Step>
    requires w.now <= f.lookupAt <= f.storeAt
  {
    WaitSteps(w, f, statFails) + [F.Reply(0, f.content.None?)]
      + [if f.dbWriteFails then F.WriteFails(0) else F.WriteLands(0)]
  }

  /** The first of them, up to the answer of the database. */
  function WaitSteps(w: F.World, f: C.File, statFails: bool): seq<F.Step>
    requires w.now <= f.lookupAt <= f.storeAt
  {
    BeginSteps(w, f, statFails) + [F.Answer(0, f.dbReadFails)] + [F.Tick(f.storeAt - f.lookupAt)]
  }

  function BeginSteps(w: F.World, f: C.File, statFails: bool): seq<F.Step>
    requires w.now <= f.lookupAt
  {
    [F.Tick(f.lookupAt - w.now)] + [F.Begin(statFails)] + [F.DropOverlay]
  }

  /** A scan of the file is over and handed out this issue list, or none. */
  ghost predicate Scanned(w: F.World, t: F.World, f: C.File, issues: Option<Issues>) {
    && t.versions == w.versions && t.now == f.storeAt && t.lookups == [] && t.writes == []
    && match issues
       case None => t.served == w.served
       case Some(found) =>
         && |t.served| == |w.served| + 1 && t.served[..|w.served|] == w.served
         && t.served[|w.served|].issues == found && f.lookupAt <= t.served[|w.served|].at <= f.storeAt
  }

  lemma Push(scan: F.Scanner, w: F.World, steps: seq<F.Step>, step: F.Step, latency: nat, blind: bool)
    requires w.versions != [] && F.TimelyRun(scan, w, steps, latency, blind)
    requires step.Reply? ==> F.Timely(F.Run(scan, w, steps), step, latency, blind)
    ensures F.TimelyRun(scan, w, steps + [step], latency, blind)
    ensures F.Run(scan, w, steps + [step]) == F.Next(scan, F.Run(scan, w, steps), step)
  {
    F.TimelyPush(scan, w, steps, step, latency, blind);
  }

  lemma First(scan: F.Scanner, w: F.World, step: F.Step, latency: nat, blind: bool)
    requires w.versions != [] && !step.Reply?
    ensures F.TimelyRun(scan, w, [step], latency, blind) && F.Run(scan, w, [step]) == F.Next(scan, w, step)
  {
    F.NoSteps(scan, w, latency, blind);
    assert F.Run(scan, w, []) == w;
    assert [] + [step] == [step];
    hide F.Run, F.TimelyRun, F.Next;
    Push(scan, w, [], step, latency, blind);
  }

  lemma HitRun(scan: F.Scanner, w: F.World, f: C.File, statFails: bool, latency: nat, blind: bool)
    requires w.versions != [] && w.lookups == [] && w.writes == [] && w.now <= f.lookupAt <= f.storeAt
    requires w.overlay.Some? && f.lookupAt <= w.overlay.value.setAt + 120000
    ensures var t := F.Run(scan, w, HitSteps(w, f, statFails));
            && F.TimelyRun(scan, w, HitSteps(w, f, statFails), latency, blind)
            && Scanned(w, t, f, Some(w.overlay.value.issues)) && t.overlay == w.overlay && t.db == w.db
  {
    var tick := F.Tick(f.lookupAt - w.now);
    First(scan, w, tick, latency, blind);
    hide F.Run, F.TimelyRun, F.Timely;
    Push(scan, w, [tick], F.Begin(statFails), latency, blind);
    Push(scan, w, [tick] + [F.Begin(statFails)], F.Tick(f.storeAt - f.lookupAt), latency, blind);
  }

  /** The world once the database has answered and before the reply. */
  ghost predicate Waiting(w: F.World, u: F.World, f: C.File, l: F.Lookup) {
    && u == w.(now := f.storeAt, overlay := None, lookups := [l])
    && l.mtime == f.mtime && l.statAt == f.lookupAt && l.answer == Some(if f.dbReadFails then None else w.db)
  }

  lemma BeginRun(scan: F.Scanner, w: F.World, f: C.File, statFails: bool, latency: nat, blind: bool)
    returns (l: F.Lookup)
    requires TrueTo(w, f, statFails) && w.lookups == [] && w.writes == []
    requires w.overlay.None? || w.overlay.value.setAt + 120000 < f.lookupAt
    ensures F.TimelyRun(scan, w, BeginSteps(w, f, statFails), latency, blind)
    ensures F.Run(scan, w, BeginSteps(w, f, statFails)) == w.(now := f.lookupAt, overlay := None, lookups := [l])
    ensures l.mtime == f.mtime && l.statAt == f.lookupAt && l.answer == None && (!statFails ==> l.statVersion.Some?)
  {
    var tick := F.Tick(f.lookupAt - w.now);
    First(scan, w, tick, latency, blind);
    hide F.Run, F.TimelyRun, F.Timely;
    Push(scan, w, [tick], F.Begin(statFails), latency, blind);
    Push(scan, w, [tick] + [F.Begin(statFails)], F.DropOverlay, latency, blind);
    l := F.Run(scan, w, [tick] + [F.Begin(statFails)]).lookups[0];
  }

  lemma WaitRun(scan: F.Scanner, w: F.World, f: C.File, statFails: bool, latency: nat, blind: bool)
    returns (l: F.Lookup)
    requires TrueTo(w, f, statFails) && w.lookups == [] && w.writes == []
    requires w.overlay.None? || w.overlay.value.setAt + 120000 < f.lookupAt
    ensures F.TimelyRun(scan, w, WaitSteps(w, f, statFails), latency, blind)
    ensures Waiting(w, F.Run(scan, w, WaitSteps(w, f, statFails)), f, l)
    ensures !statFails ==> l.statVersion.Some?
  {
    l := BeginRun(scan, w, f, statFails, latency, blind);
    var begun := BeginSteps(w, f, statFails);
    hide F.Run, F.TimelyRun, F.Timely, BeginSteps;
    Push(scan, w, begun, F.Answer(0, f.dbReadFails), latency, blind);
    l := l.(answer := Some(if f.dbReadFails then None else w.db));
    Push(scan, w, begun + [F.Answer(0, f.dbReadFails)], F.Tick(f.storeAt - f.lookupAt), latency, blind);
  }

  /** What a scan that the overlay does not answer comes to: a row no older than the file, or the file. */
  ghost predicate Replied(scan: F.Scanner, w: F.World, t: F.World, f: C.File) {
    if !f.dbReadFails && w.db.Some? && w.db.value.mtime >= f.mtime then
      && Scanned(w, t, f, Some(w.db.value.issues)) && t.db == w.db
      && t.overlay.Some? && t.overlay.value.issues == w.db.value.issues && t.overlay.value.setAt == f.storeAt
    else if f.content.None? then Scanned(w, t, f, None) && t.overlay == None && t.db == w.db
    else
      && Scanned(w, t, f, Some(scan(f.content.value)))
      && t.overlay.Some? && t.overlay.value.issues == scan(f.content.value) && t.overlay.value.setAt == f.storeAt
      && if f.dbWriteFails then t.db == w.db
         else t.db.Some? && t.db.value.mtime == f.mtime && t.db.value.issues == scan(f.content.value)
  }

  lemma ReplyAndWrite(scan: F.Scanner, w: F.World, u: F.World, f: C.File, l: F.Lookup)
    requires u.versions != [] && w.writes == [] && w.lookups == [] && Waiting(w, u, f, l) && f.lookupAt <= f.storeAt
    requires f.content.Some? ==> f.content.value == w.versions[|w.versions| - 1].content
    ensures Replied(scan, w, F.Next(scan, F.Next(scan, u, F.Reply(0, f.content.None?)),
                                    if f.dbWriteFails then F.WriteFails(0) else F.WriteLands(0)), f)
  {
    assert F.Cut([l], 0) == [];
    var r := F.Next(scan, u, F.Reply(0, f.content.None?));
    if !F.IsHit(l) && f.content.Some? { assert F.Cut(r.writes, 0) == []; }
  }

  lemma MissRun(scan: F.Scanner, w: F.World, f: C.File, statFails: bool, latency: nat, blind: bool)
    requires TrueTo(w, f, statFails) && w.lookups == [] && w.writes == []
    requires w.overlay.None? || w.overlay.value.setAt + 120000 < f.lookupAt
    requires f.storeAt - f.lookupAt <= latency && (statFails ==> blind)
    ensures F.TimelyRun(scan, w, MissSteps(w, f, statFails), latency, blind)
    ensures Replied(scan, w, F.Run(scan, w, MissSteps(w, f, statFails)), f)
  {
    var l := WaitRun(scan, w, f, statFails, latency, blind);
    hide F.Run, F.TimelyRun, F.Next, Replied, WaitSteps;
    var waited := WaitSteps(w, f, statFails);
    Push(scan, w, waited, F.Reply(0, f.content.None?), latency, blind);
    Push(scan, w, waited + [F.Reply(0, f.content.None?)], if f.dbWriteFails then F.WriteFails(0) else F.WriteLands(0),
      latency, blind);
    ReplyAndWrite(scan, w, F.Run(scan, w, waited), f, l);
  }

  // ----- one scan -----

  function IssuesOf(o: Option<C.Outcome>): Option<Issues> {
    match o case None => None case Some(outcome) => Some(outcome.issues)
  }

  function RowCurrent(c: C.Caches, f: C.File): bool {
    !f.dbReadFails && f.path in c.rows && c.rows[f.path].mtime >= f.mtime
  }

  /** The overlay entry and the rows after a scan of the file. */
  lemma CachesAfter(s: C.Settings, c: C.Caches, f: C.File)
    requires SettingsOk(s)
    ensures var after, key := C.ScanFile(s, c, f).0, C.MemKey(f.path);
            var found, before := R.Lookup(after.overlay, key), R.Lookup(c.overlay, key);
            if C.OverlayHas(c, f) then found == Some(R.Touched(before.value, f.lookupAt)) && after.rows == c.rows
            else if RowCurrent(c, f) then
              found == Some(R.NewEntry(c.rows[f.path].issues, None, 120000, f.storeAt)) && after.rows == c.rows
            else if f.content.None? then found == None && after.rows == c.rows
            else
              var issues := s.scan(f.content.value, f.path);
              && found == Some(R.NewEntry(issues, None, 120000, f.storeAt))
              && after.rows == if f.dbWriteFails then c.rows else c.rows[f.path := C.Row(f.mtime, issues)]
  {
    var key := C.MemKey(f.path);
    var looked := R.Apply(c.overlay, s.maxSize, s.ttlMs, f.lookupAt, R.Get(key)).0;
    AfterGet(c.overlay, s.maxSize, s.ttlMs, f.lookupAt, key);
    assert C.OverlayHas(c, f) <==> R.Apply(c.overlay, s.maxSize, s.ttlMs, f.lookupAt, R.Get(key)).1 != R.Value(None);
    if !C.OverlayHas(c, f) {
      if RowCurrent(c, f) {
        AfterSet(looked, s.maxSize, s.ttlMs, f.storeAt, key, c.rows[f.path].issues);
      } else if f.content.Some? {
        AfterSet(looked, s.maxSize, s.ttlMs, f.storeAt, key, s.scan(f.content.value, f.path));
      }
    }
    hide R.Lookup, R.Without, R.Expired, R.NewEntry;
  }

  /** One scan of the file is a timely run of the one-file model: same answer, same caches afterwards. */
  lemma OneScan(s: C.Settings, scan: F.Scanner, c: C.Caches, path: string, w: F.World, f: C.File, statFails: bool,
                latency: nat, blind: bool)
    returns (steps: seq<F.Step>)
    requires SettingsOk(s) && Shows(c, path, w) && TrueTo(w, f, statFails) && f.path == path
    requires forall content :: scan(content) == s.scan(content, path)
    requires f.storeAt - f.lookupAt <= latency && (statFails ==> blind)
    ensures var t := F.Run(scan, w, steps);
            && F.TimelyRun(scan, w, steps, latency, blind)
            && Scanned(w, t, f, IssuesOf(C.ScanFile(s, c, f).1)) && Shows(C.ScanFile(s, c, f).0, path, t)
  {
    hide *;
    TruthInTime(c, path, w, f, statFails);
    if C.OverlayHas(c, f) {
      steps := HitSteps(w, f, statFails);
      HitRun(scan, w, f, statFails, latency, blind);
      HitShows(s, c, path, w, F.Run(scan, w, steps), f);
    } else {
      steps := MissSteps(w, f, statFails);
      MissRun(scan, w, f, statFails, latency, blind);
      MissShows(s, scan, c, path, w, F.Run(scan, w, steps), f);
    }
  }

  lemma TruthInTime(c: C.Caches, path: string, w: F.World, f: C.File, statFails: bool)
    requires Shows(c, path, w) && TrueTo(w, f, statFails) && f.path == path
    ensures w.versions != [] && w.lookups == [] && w.writes == [] && w.now <= f.lookupAt <= f.storeAt
    ensures if C.OverlayHas(c, f) then w.overlay.Some? && f.lookupAt <= w.overlay.value.setAt + 120000
            else w.overlay.None? || w.overlay.value.setAt + 120000 < f.lookupAt
  {
  }

  lemma HitShows(s: C.Settings, c: C.Caches, path: string, w: F.World, t: F.World, f: C.File)
    requires SettingsOk(s) && Shows(c, path, w) && f.path == path && C.OverlayHas(c, f)
    requires w.overlay.Some? && w.now <= f.storeAt
    requires Scanned(w, t, f, Some(w.overlay.value.issues)) && t.overlay == w.overlay && t.db == w.db
    ensures Scanned(w, t, f, IssuesOf(C.ScanFile(s, c, f).1)) && Shows(C.ScanFile(s, c, f).0, path, t)
  {
    CachesAfter(s, c, f);
    C.AnswerComesFrom(s, c, f);
    hide C.ScanFile, Scanned, C.MemKey;
    ScanOver(w, t, f, Some(w.overlay.value.issues));
  }

  lemma ScanOver(w: F.World, t: F.World, f: C.File, issues: Option<Issues>)
    requires Scanned(w, t, f, issues)
    ensures t.versions == w.versions && t.now == f.storeAt && t.lookups == [] && t.writes == []
  {
  }

  lemma MissShows(s: C.Settings, scan: F.Scanner, c: C.Caches, path: string, w: F.World, t: F.World, f: C.File)
    requires SettingsOk(s) && Shows(c, path, w) && f.path == path && !C.OverlayHas(c, f)
    requires forall content :: scan(content) == s.scan(content, path)
    requires w.now <= f.storeAt && Replied(scan, w, t, f)
    ensures Scanned(w, t, f, IssuesOf(C.ScanFile(s, c, f).1)) && Shows(C.ScanFile(s, c, f).0, path, t)
  {
    CachesAfter(s, c, f);
    C.AnswerComesFrom(s, c, f);
    hide C.ScanFile, Scanned, C.MemKey, C.OverlayHas;
    forall issues | Scanned(w, t, f, issues)
      ensures t.versions == w.versions && t.now == f.storeAt && t.lookups == [] && t.writes == [] {
      ScanOver(w, t, f, issues);
    }
    assert RowCurrent(c, f) <==> !f.dbReadFails && w.db.Some? && w.db.value.mtime >= f.mtime;
  }

  // ----- everything else that happens -----

  /** A scan of another file can at most push the entry of this one out of the overlay. */
  lemma OtherScan(s: C.Settings, scan: F.Scanner, c: C.Caches, path: string, w: F.World, f: C.File,
                  latency: nat, blind: bool)
    returns (steps: seq<F.Step>)
    requires SettingsOk(s) && Shows(c, path, w) && f.path != path && w.now <= f.storeAt
    ensures var t := F.Run(scan, w, steps);
            && F.TimelyRun(scan, w, steps, latency, blind) && Shows(C.ScanFile(s, c, f).0, path, t)
            && t.versions == w.versions && t.now == f.storeAt && t.served == w.served
  {
    var after := C.ScanFile(s, c, f).0;
    OthersAfter(s, c, f, path);
    hide C.ScanFile;
    var tick := F.Tick(f.storeAt - w.now);
    First(scan, w, tick, latency, blind);
    steps := [tick];
    if R.Lookup(after.overlay, C.MemKey(path)) == None {
      hide F.Run, F.TimelyRun;
      Push(scan, w, [tick], F.DropOverlay, latency, blind);
      steps := [tick] + [F.DropOverlay];
    }
  }

  lemma OthersAfter(s: C.Settings, c: C.Caches, f: C.File, path: string)
    requires SettingsOk(s) && f.path != path
    ensures var after, key := C.ScanFile(s, c, f).0, C.MemKey(path);
            && (R.Lookup(after.overlay, key) == None || R.Lookup(after.overlay, key) == R.Lookup(c.overlay, key))
            && (path in after.rows <==> path in c.rows) && (path in c.rows ==> after.rows[path] == c.rows[path])
  {
    if C.MemKey(f.path) == C.MemKey(path) { C.SameKeySamePath(f.path, path); }
    var key := C.MemKey(f.path);
    var looked := R.Apply(c.overlay, s.maxSize, s.ttlMs, f.lookupAt, R.Get(key)).0;
    AfterGet(c.overlay, s.maxSize, s.ttlMs, f.lookupAt, key);
    if f.path in c.rows { AfterSet(looked, s.maxSize, s.ttlMs, f.storeAt, key, c.rows[f.path].issues); }
    if f.content.Some? {
      AfterSet(looked, s.maxSize, s.ttlMs, f.storeAt, key, s.scan(f.content.value, f.path));
    }
    hide R.Lookup, R.Without, R.Expired, R.Apply;
  }

  lemma {:induction false} RunOn(scan: F.Scanner, start: F.World, a: seq<F.Step>, b: seq<F.Step>, latency: nat,
                                 blind: bool)
    requires start.versions != []
    ensures F.Run(scan, start, a + b) == F.Run(scan, F.Run(scan, start, a), b)
    ensures F.TimelyRun(scan, start, a, latency, blind) && F.TimelyRun(scan, F.Run(scan, start, a), b, latency, blind)
            ==> F.TimelyRun(scan, start, a + b, latency, blind)
  {
    if b == [] {
      assert a + b == a;
    } else {
      var front := b[..|b| - 1];
      RunOn(scan, start, a, front, latency, blind);
      assert (a + b)[..|a + b| - 1] == a + front;
      hide F.Next, F.Timely;
    }
  }

  // ----- whole histories -----

  /** The file is edited, the scanner scans some file, or it purges the rows of files no longer found. */
  datatype Event =
    | Edit(content: string, mtime: int, at: int)
    | Scan(file: C.File)
    | Purge(files: seq<C.File>, fails: bool)

  function Caches(s: C.Settings, events: seq<Event>): C.Caches {
    if events == [] then C.Caches([], map[])
    else
      var before := Caches(s, events[..|events| - 1]);
      match events[|events| - 1]
      case Edit(_, _, _) => before
      case Scan(f) => C.ScanFile(s, before, f).0
      case Purge(files, fails) => if fails then before else before.(rows := C.StillPresent(before.rows, files))
  }

  /** An issue list given for the file, by a scan of it that began and ended at these times. */
  datatype Given = Given(issues: Issues, began: int, ended: int)

  function GivenFor(s: C.Settings, path: string, events: seq<Event>): seq<Given> {
    if events == [] then []
    else
      var front, last := events[..|events| - 1], events[|events| - 1];
      var earlier := GivenFor(s, path, front);
      if !last.Scan? || last.file.path != path then earlier
      else
        match C.ScanFile(s, Caches(s, front), last.file).1
        case None => earlier
        case Some(outcome) => earlier + [Given(outcome.issues, last.file.lookupAt, last.file.storeAt)]
  }

  function Clock(events: seq<Event>): int {
    if events == [] then 0
    else
      match events[|events| - 1]
      case Edit(_, _, at) => at
      case Scan(f) => f.storeAt
      case Purge(_, _) => Clock(events[..|events| - 1])
  }

  /** The versions of the file, each from the time of its edit on. */
  function Versions(content: string, mtime: int, events: seq<Event>): (v: seq<F.Version>)
    ensures v != []
  {
    if events == [] then [F.Version(content, mtime, 0)]
    else
      var earlier, last := Versions(content, mtime, events[..|events| - 1]), events[|events| - 1];
      if last.Edit? then earlier + [F.Version(last.content, last.mtime, last.at)] else earlier
  }

  function Latest(content: string, mtime: int, events: seq<Event>): F.Version {
    var v := Versions(content, mtime, events);
    v[|v| - 1]
  }

  /**
   The clock does not go back, modification times grow with each edit, and a scan of the file meets
   its latest version, unless its stat or its reading fails.
   */
  ghost predicate IsHistory(path: string, content: string, mtime: int, events: seq<Event>) {
    if events == [] then mtime > 0
    else
      var front := events[..|events| - 1];
      && IsHistory(path, content, mtime, front)
      && match events[|events| - 1]
         case Edit(_, modified, at) => Clock(front) <= at && Latest(content, mtime, front).mtime < modified
         case Purge(_, _) => true
         case Scan(f) =>
           && Clock(front) <= f.lookupAt <= f.storeAt
           && (f.path == path ==>
                 && (f.mtime == 0 || f.mtime == Latest(content, mtime, front).mtime)
                 && (f.content == None || f.content == Some(Latest(content, mtime, front).content)))
  }

  /** Scans of the file take no longer than the latency; unless `blind`, their stats succeed. */
  ghost predicate InTime(path: string, events: seq<Event>, latency: nat, blind: bool) {
    forall i | 0 <= i < |events| && events[i].Scan? && events[i].file.path == path ::
      events[i].file.storeAt - events[i].file.lookupAt <= latency && (events[i].file.mtime == 0 ==> blind)
  }

  /** The world of the file after the events, with everything given handed out by it. */
  ghost predicate Follows(s: C.Settings, path: string, content: string, mtime: int, events: seq<Event>, w: F.World) {
    && Shows(Caches(s, events), path, w)
    && w.versions == Versions(content, mtime, events) && w.now == Clock(events)
    && var given := GivenFor(s, path, events);
       |w.served| == |given| && forall i | 0 <= i < |given| ::
         w.served[i].issues == given[i].issues && given[i].began <= w.served[i].at <= given[i].ended
  }

  /** The scanner refines the one-file model: each history is a timely run of it, with the same answers and caches. */
  lemma {:induction false} HistoryIsARun(s: C.Settings, scan: F.Scanner, path: string, content: string, mtime: int,
                                         events: seq<Event>, latency: nat, blind: bool)
    returns (steps: seq<F.Step>)
    requires SettingsOk(s) && forall c :: scan(c) == s.scan(c, path)
    requires IsHistory(path, content, mtime, events) && InTime(path, events, latency, blind)
    ensures F.TimelyRun(scan, F.Start(content, mtime), steps, latency, blind)
    ensures Follows(s, path, content, mtime, events, F.Run(scan, F.Start(content, mtime), steps))
  {
    var start := F.Start(content, mtime);
    if events == [] {
      steps := [];
      F.NoSteps(scan, start, latency, blind);
    } else {
      var front := events[..|events| - 1];
      var earlier := HistoryIsARun(s, scan, path, content, mtime, front, latency, blind);
      var w := F.Run(scan, start, earlier);
      hide F.Run, F.TimelyRun, Follows;
      var more := EventIsARun(s, scan, path, content, mtime, events, w, latency, blind);
      RunOn(scan, start, earlier, more, latency, blind);
      steps := earlier + more;
    }
  }

  lemma EventIsARun(s: C.Settings, scan: F.Scanner, path: string, content: string, mtime: int,
                    events: seq<Event>, w: F.World, latency: nat, blind: bool)
    returns (steps: seq<F.Step>)
    requires SettingsOk(s) && forall c :: scan(c) == s.scan(c, path)
    requires events != [] && IsHistory(path, content, mtime, events) && InTime(path, events, latency, blind)
    requires w.versions != [] && Follows(s, path, content, mtime, events[..|events| - 1], w)
    ensures F.TimelyRun(scan, w, steps, latency, blind)
    ensures Follows(s, path, content, mtime, events, F.Run(scan, w, steps))
  {
    var last := events[|events| - 1];
    assert last.Scan? && last.file.path == path ==>
      last.file.storeAt - last.file.lookupAt <= latency && (last.file.mtime == 0 ==> blind);
    hide *;
    match last
    case Edit(_, _, _) => steps := EditIsARun(s, scan, path, content, mtime, events, w, latency, blind);
    case Purge(_, _) => steps := PurgeIsARun(s, scan, path, content, mtime, events, w, latency, blind);
    case Scan(f) =>
      if f.path == path {
        steps := ScanIsARun(s, scan, path, content, mtime, events, w, latency, blind);
      } else {
        steps := OtherIsARun(s, scan, path, content, mtime, events, w, latency, blind);
      }
  }

  lemma EditIsARun(s: C.Settings, scan: F.Scanner, path: string, content: string, mtime: int,
                   events: seq<Event>, w: F.World, latency: nat, blind: bool)
    returns (steps: seq<F.Step>)
    requires events != [] && IsHistory(path, content, mtime, events)
    requires w.versions != [] && Follows(s, path, content, mtime, events[..|events| - 1], w)
    requires events[|events| - 1].Edit?
    ensures F.TimelyRun(scan, w, steps, latency, blind)
    ensures Follows(s, path, content, mtime, events, F.Run(scan, w, steps))
  {
    steps := EditRun(scan, w, events[|events| - 1], latency, blind);
    hide F.Run, F.TimelyRun, SameOverlay, SameRow;
  }

  lemma PurgeIsARun(s: C.Settings, scan: F.Scanner, path: string, content: string, mtime: int,
                    events: seq<Event>, w: F.World, latency: nat, blind: bool)
    returns (steps: seq<F.Step>)
    requires events != [] && IsHistory(path, content, mtime, events)
    requires w.versions != [] && Follows(s, path, content, mtime, events[..|events| - 1], w)
    requires events[|events| - 1].Purge?
    ensures F.TimelyRun(scan, w, steps, latency, blind)
    ensures Follows(s, path, content, mtime, events, F.Run(scan, w, steps))
  {
    var last := events[|events| - 1];
    if last.fails || path in (set i | 0 <= i < |last.files| :: last.files[i].path) {
      steps := [];
      F.NoSteps(scan, w, latency, blind);
      assert F.Run(scan, w, []) == w;
    } else {
      steps := [F.PurgeRow];
      First(scan, w, F.PurgeRow, latency, blind);
    }
    hide F.Run, F.TimelyRun, SameOverlay;
  }

  lemma ScanIsARun(s: C.Settings, scan: F.Scanner, path: string, content: string, mtime: int,
                   events: seq<Event>, w: F.World, latency: nat, blind: bool)
    returns (steps: seq<F.Step>)
    requires SettingsOk(s) && forall c :: scan(c) == s.scan(c, path)
    requires events != [] && IsHistory(path, content, mtime, events)
    requires w.versions != [] && Follows(s, path, content, mtime, events[..|events| - 1], w)
    requires var last := events[|events| - 1];
             && last.Scan? && last.file.path == path
             && last.file.storeAt - last.file.lookupAt <= latency && (last.file.mtime == 0 ==> blind)
    ensures F.TimelyRun(scan, w, steps, latency, blind)
    ensures Follows(s, path, content, mtime, events, F.Run(scan, w, steps))
  {
    var front, f := events[..|events| - 1], events[|events| - 1].file;
    hide Shows, F.Run, F.TimelyRun, C.ScanFile, SettingsOk, Follows, Scanned;
    FollowsParts(s, path, content, mtime, front, w);
    steps := OneScan(s, scan, Caches(s, front), path, w, f, f.mtime == 0, latency, blind);
    ScanFollows(s, path, content, mtime, events, w, F.Run(scan, w, steps));
  }

  lemma FollowsParts(s: C.Settings, path: string, content: string, mtime: int, events: seq<Event>, w: F.World)
    requires Follows(s, path, content, mtime, events, w)
    ensures Shows(Caches(s, events), path, w) && w.versions == Versions(content, mtime, events)
            && w.now == Clock(events)
  {
  }

  lemma ScanFollows(s: C.Settings, path: string, content: string, mtime: int, events: seq<Event>, w: F.World,
                    t: F.World)
    requires events != [] && Follows(s, path, content, mtime, events[..|events| - 1], w)
    requires var last := events[|events| - 1];
             && last.Scan? && last.file.path == path
             && var (after, outcome) := C.ScanFile(s, Caches(s, events[..|events| - 1]), last.file);
                Scanned(w, t, last.file, IssuesOf(outcome)) && Shows(after, path, t)
    ensures Follows(s, path, content, mtime, events, t)
  {
    hide Shows, C.ScanFile;
    forall i | 0 <= i < |w.served| && |w.served| <= |t.served| && t.served[..|w.served|] == w.served
      ensures t.served[i] == w.served[i]
    {
      assert t.served[..|w.served|][i] == w.served[i];
    }
  }

  lemma OtherIsARun(s: C.Settings, scan: F.Scanner, path: string, content: string, mtime: int,
                    events: seq<Event>, w: F.World, latency: nat, blind: bool)
    returns (steps: seq<F.Step>)
    requires SettingsOk(s)
    requires events != [] && IsHistory(path, content, mtime, events)
    requires w.versions != [] && Follows(s, path, content, mtime, events[..|events| - 1], w)
    requires events[|events| - 1].Scan? && events[|events| - 1].file.path != path
    ensures F.TimelyRun(scan, w, steps, latency, blind)
    ensures Follows(s, path, content, mtime, events, F.Run(scan, w, steps))
  {
    var front, f := events[..|events| - 1], events[|events| - 1].file;
    hide Shows, F.Run, F.TimelyRun, C.ScanFile, SettingsOk;
    steps := OtherScan(s, scan, Caches(s, front), path, w, f, latency, blind);
  }

  lemma EditRun(scan: F.Scanner, w: F.World, e: Event, latency: nat, blind: bool) returns (steps: seq<F.Step>)
    requires e.Edit? && w.versions != [] && w.now <= e.at && w.versions[|w.versions| - 1].mtime < e.mtime
    ensures F.TimelyRun(scan, w, steps, latency, blind)
    ensures F.Run(scan, w, steps) == w.(now := e.at, versions := w.versions + [F.Version(e.content, e.mtime, e.at)])
  {
    var tick := F.Tick(e.at - w.now);
    First(scan, w, tick, latency, blind);
    hide F.Run, F.TimelyRun;
    Push(scan, w, [tick], F.Edit(e.content, e.mtime), latency, blind);
    steps := [tick] + [F.Edit(e.content, e.mtime)];
  }

  // ----- an incremental scan as events -----

  function ScansOf(files: seq<C.File>): (events: seq<Event>)
    ensures |events| == |files| && forall i | 0 <= i < |files| :: events[i] == Scan(files[i])
  {
    seq(|files|, i requires 0 <= i < |files| => Scan(files[i]))
  }

  /** The issue lists of the file among the outcomes. */
  function ListsOf(path: string, outcomes: seq<C.Outcome>): seq<Issues> {
    if outcomes == [] then []
    else
      var front, last := ListsOf(path, outcomes[..|outcomes| - 1]), outcomes[|outcomes| - 1];
      if last.path == path then front + [last.issues] else front
  }

  function Lists(given: seq<Given>): (r: seq<Issues>)
    ensures |r| == |given| && forall i | 0 <= i < |given| :: r[i] == given[i].issues
  {
    seq(|given|, i requires 0 <= i < |given| => given[i].issues)
  }

  lemma {:induction false} ScansAreEvents(s: C.Settings, path: string, events: seq<Event>, files: seq<C.File>)
    ensures Caches(s, events + ScansOf(files)) == C.ScanFiles(s, Caches(s, events), files).0
    ensures Lists(GivenFor(s, path, events + ScansOf(files)))
            == Lists(GivenFor(s, path, events)) + ListsOf(path, C.ScanFiles(s, Caches(s, events), files).1)
  {
    hide *;
    assert ScansOf(files) == if files == [] then [] else ScansOf(files[..|files| - 1]) + [Scan(files[|files| - 1])];
    if files == [] {
      assert events + ScansOf(files) == events;
      NoFiles(s, Caches(s, events), path);
    } else {
      var front, f := files[..|files| - 1], files[|files| - 1];
      ScansAreEvents(s, path, events, front);
      var before := events + ScansOf(front);
      assert events + ScansOf(files) == before + [Scan(f)];
      OneMoreScan(s, path, before, f);
      OneMoreFile(s, Caches(s, events), path, files);
    }
  }

  lemma NoFiles(s: C.Settings, c: C.Caches, path: string)
    ensures C.ScanFiles(s, c, []) == (c, []) && ListsOf(path, []) == []
  {
  }

  lemma OneMoreScan(s: C.Settings, path: string, before: seq<Event>, f: C.File)
    ensures var (after, outcome) := C.ScanFile(s, Caches(s, before), f);
            && Caches(s, before + [Scan(f)]) == after
            && Lists(GivenFor(s, path, before + [Scan(f)])) == Lists(GivenFor(s, path, before))
               + if outcome.Some? && outcome.value.path == path then [outcome.value.issues] else []
  {
    assert (before + [Scan(f)])[..|before|] == before;
    C.AnswerComesFrom(s, Caches(s, before), f);
    hide C.ScanFile;
  }

  lemma OneMoreFile(s: C.Settings, c: C.Caches, path: string, files: seq<C.File>)
    requires files != []
    ensures var (before, outcomes) := C.ScanFiles(s, c, files[..|files| - 1]);
            var (after, outcome) := C.ScanFile(s, before, files[|files| - 1]);
            && C.ScanFiles(s, c, files).0 == after
            && ListsOf(path, C.ScanFiles(s, c, files).1) == ListsOf(path, outcomes)
               + if outcome.Some? && outcome.value.path == path then [outcome.value.issues] else []
  {
    var (before, outcomes) := C.ScanFiles(s, c, files[..|files| - 1]);
    hide C.ScanFile;
    OneMoreList(path, outcomes, C.ScanFile(s, before, files[|files| - 1]).1);
  }

  lemma OneMoreList(path: string, outcomes: seq<C.Outcome>, outcome: Option<C.Outcome>)
    ensures outcome.Some? ==>
              ListsOf(path, outcomes + [outcome.value])
              == ListsOf(path, outcomes) + if outcome.value.path == path then [outcome.value.issues] else []
  {
    if outcome.Some? { assert (outcomes + [outcome.value])[..|outcomes|] == outcomes; }
  }

  /** A whole incremental scan is a scan of each file and a purge: same caches, same lists given. */
  lemma IncrementalScanIsEvents(s: C.Settings, path: string, events: seq<Event>, r: C.Request)
    ensures var all := events + ScansOf(r.files) + [Purge(r.files, r.purgeFails)];
            && Caches(s, all) == C.AfterScan(s, Caches(s, events), r)
            && Lists(GivenFor(s, path, all))
               == Lists(GivenFor(s, path, events)) + ListsOf(path, C.ScanFiles(s, Caches(s, events), r.files).1)
  {
    var scanned, purge := events + ScansOf(r.files), Purge(r.files, r.purgeFails);
    ScansAreEvents(s, path, events, r.files);
    assert (scanned + [purge])[..|scanned|] == scanned;
    hide C.ScanFiles;
  }

  // ----- freshness of the scanner -----

  /**
   So every issue list the scanner gives for a file, whatever else it scans, caches, evicts and purges
   and whichever reads and writes of the database fail, is the scan of a version of the file that was
   current within the 120 seconds and the latency before it, as long as the stats of that file succeed.
   */
  lemma GivenIsFresh(s: C.Settings, path: string, content: string, mtime: int, events: seq<Event>, latency: nat, i: nat)
    requires SettingsOk(s) && IsHistory(path, content, mtime, events) && InTime(path, events, latency, false)
    requires i < |GivenFor(s, path, events)|
    ensures var g, versions := GivenFor(s, path, events)[i], Versions(content, mtime, events);
            exists v: nat, t :: F.CurrentAt(versions, v, t) && g.began - 120000 - latency <= t <= g.ended
                                && g.issues == s.scan(versions[v].content, path)
  {
    assert F.Start(content, mtime).versions != [];
    hide *;
    var scan := (c: string) => s.scan(c, path);
    var steps := HistoryIsARun(s, scan, path, content, mtime, events, latency, false);
    var w := F.Run(scan, F.Start(content, mtime), steps);
    StartsTimed(path, content, mtime, events);
    SameServed(s, path, content, mtime, events, w);
    F.ServedIsFresh(scan, content, mtime, steps, latency, i);
    assert F.CurrentAt(w.versions, w.served[i].version, w.served[i].asOf);
  }

  lemma SameServed(s: C.Settings, path: string, content: string, mtime: int, events: seq<Event>, w: F.World)
    requires Follows(s, path, content, mtime, events, w)
    ensures var given := GivenFor(s, path, events);
            && w.versions == Versions(content, mtime, events) && |w.served| == |given|
            && forall i | 0 <= i < |given| ::
                 w.served[i].issues == given[i].issues && given[i].began <= w.served[i].at <= given[i].ended
  {
  }

  lemma {:induction false} StartsTimed(path: string, content: string, mtime: int, events: seq<Event>)
    requires IsHistory(path, content, mtime, events)
    ensures mtime > 0
  {
    if events != [] { StartsTimed(path, content, mtime, events[..|events| - 1]); }
  }
}
