/** The writes a recovery makes, and when it survives a power cut: the checkpoint that
    recovery runs does not sync the log first (src/pager.cpp:97-119, 203-224). */
module Redoing {
  import opened Wrappers
  import opened Disk
  import opened Recovery
  import opened Crash

  predicate Ascending(ids: seq<PageId>) { forall i, j | 0 <= i < j < |ids| :: ids[i] < ids[j] }

  ghost predicate PagesOf(ov: map<PageId, Image>, ids: seq<PageId>) {
    Ascending(ids) && (forall i | 0 <= i < |ids| :: ids[i] in ov) && forall id | id in ov :: id in ids
  }

  /** The pages of the log, copied in order. */
  function Copies(ov: map<PageId, Image>, ids: seq<PageId>): (ws: seq<DbWrite>)
    ensures |ws| == |ids|
  {
    seq(|ids|, i requires 0 <= i < |ids| => PutBlock(ids[i], if ids[i] in ov then ov[ids[i]] else PageImage(ZERO_PAGE)))
  }

  /** Then the file is made as long as the meta page says. */
  function Redone(db: seq<Block>, ov: map<PageId, Image>, ids: seq<PageId>, n: nat): seq<DbWrite> {
    Copies(ov, ids) + if |RunDb(db, Copies(ov, ids))| < n then [Grow(n)] else []
  }

  function AfterDb(s: Store, ws: seq<DbWrite>): Store { s.(dbQueue := s.dbQueue + ws) }

  function DbSynced(s: Store): Store { s.(dbSafe := DbNow(s), dbQueue := []) }

  /** The moments at which the writes `ws` are issued. */
  function DbMoments(s: Store, ws: seq<DbWrite>, k: nat): seq<Moment> {
    if ws == [] then []
    else DbMoments(s, ws[..|ws| - 1], k) + [Moment(AfterDb(s, ws[..|ws| - 1]), Some(ToDb(ws[|ws| - 1])), k, k)]
  }

  /** The moments of a checkpoint: the copying, and the new log once the file is synced. */
  function CopyTrace(s: Store, ws: seq<DbWrite>, gen: nat, k: nat): seq<Moment> {
    DbMoments(s, ws, k) + [Moment(DbSynced(AfterDb(s, ws)), Some(ToLog(PutHeader(gen))), k, k)]
  }

  /** The moments of opening the files `s`: found, redone if the log commits anything,
      and the log begun anew. */
  function RecoveryTrace(s: Store, ov: map<PageId, Image>, ids: seq<PageId>, n: nat, gen: nat): seq<Moment> {
    [Moment(s, None, 0, 0)] +
    if ov != map[] then CopyTrace(s, Redone(DbNow(s), ov, ids, n), gen, 0)
    else if LogNow(s).header.Some? then [Moment(s, Some(ToLog(PutHeader(gen))), 0, 0)]
    else []
  }

  /** Opening these files finds one of the contents `h`. */
  ghost predicate FindsOne(d: Files, h: seq<Contents>) { exists k | 0 <= k < |h| :: Finds(d, h[k]) }

  /** So it does however much of the unsynced writes a power cut leaves. */
  ghost predicate AlwaysFinds(s: Store, h: seq<Contents>) { forall d | PowerLeaves(s, d) :: FindsOne(d, h) }

  ghost predicate Survives(trace: seq<Moment>, h: seq<Contents>) { forall m | m in trace :: AlwaysFinds(Issued(m), h) }

  /** Nothing is found after a power cut at any moment but what one could have left of the
      files before. */
  ghost predicate FindsNothingNew(trace: seq<Moment>, s: Store) {
    forall m, d | m in trace && PowerLeaves(Issued(m), d) :: FoundBefore(s, d)
  }

  ghost predicate FoundBefore(s: Store, d: Files) {
    exists e :: PowerLeaves(s, e) && Found(d.db, Overlay(d.log)) == Found(e.db, Overlay(e.log))
  }

  /** The number of pages, by the meta page in force. */
  function PagesFound(db: seq<Block>, ov: map<PageId, Image>): nat {
    if 0 in ov then (if ov[0].MetaImage? then ov[0].meta.pageCount else 0)
    else if db != [] && db[0].MetaImage? then db[0].meta.pageCount else 0
  }

  /** Should the power leave only `log` of a log that commits `ov`: every block the copying
      writes, of the pages the database then has and of its meta page, is one `log` holds a
      frame for, or already there. */
  ghost predicate Sheltered(db: seq<Block>, ov: map<PageId, Image>, log: Log) {
    forall id | id in ov && id !in Overlay(log) && (id == 0 || id < PagesFound(db, Overlay(log))) :: Same(db, id, ov[id])
  }

  predicate Same(db: seq<Block>, id: PageId, image: Image) { id < |db| && db[id] == image }

  ghost predicate AllSheltered(s: Store, ov: map<PageId, Image>) {
    forall j: nat, log | j <= |s.logQueue| && LogCut(s, j, log) :: Sheltered(DbNow(s), ov, log)
  }

  lemma CopiesNext(ov: map<PageId, Image>, ids: seq<PageId>, i: nat)
    requires i < |ids| && ids[i] in ov
    ensures Copies(ov, ids[..i + 1]) == Copies(ov, ids[..i]) + [PutBlock(ids[i], ov[ids[i]])]
  {
  }

  lemma {:induction false} DbMomentsNext(s: Store, ws: seq<DbWrite>, w: DbWrite, k: nat)
    ensures DbMoments(s, ws + [w], k) == DbMoments(s, ws, k) + [Moment(AfterDb(s, ws), Some(ToDb(w)), k, k)]
    ensures AfterDb(s, ws + [w]) == Issue(AfterDb(s, ws), ToDb(w))
  {
    assert (ws + [w])[..|ws + [w]| - 1] == ws;
    assert s.dbQueue + (ws + [w]) == s.dbQueue + ws + [w];
  }

  // ---- the copying, step by step ----

  lemma {:induction false} RunDbAppend(db: seq<Block>, q: seq<DbWrite>, ws: seq<DbWrite>)
    ensures RunDb(db, q + ws) == RunDb(RunDb(db, q), ws)
  {
    if ws == [] {
      assert q + ws == q;
    } else {
      RunDbAppend(db, q, ws[..|ws| - 1]);
      assert (q + ws)[..|q + ws| - 1] == q + ws[..|ws| - 1];
    }
  }

  lemma {:induction false} AfterDbNow(s: Store, ws: seq<DbWrite>)
    ensures DbNow(AfterDb(s, ws)) == RunDb(DbNow(s), ws) && LogNow(AfterDb(s, ws)) == LogNow(s)
  {
    RunDbAppend(s.dbSafe, s.dbQueue, ws);
  }

  /** A cut of the file after more writes is a cut before them, or some of them, the
      next perhaps torn. */
  lemma CutAfterDb(s: Store, ws: seq<DbWrite>, i: nat, db: seq<Block>)
    requires i <= |s.dbQueue| + |ws| && DbCut(AfterDb(s, ws), i, db)
    ensures (i <= |s.dbQueue| && DbCut(s, i, db)) || exists k :: CutAt(DbNow(s), ws, k, db)
  {
    hide TearDb, ApplyDb;
    var q, n := s.dbQueue + ws, |s.dbQueue|;
    if i < n {
      assert q[..i] == s.dbQueue[..i] && q[i] == s.dbQueue[i];
    } else {
      assert q[..i] == s.dbQueue + ws[..i - n];
      RunDbAppend(s.dbSafe, s.dbQueue, ws[..i - n]);
      assert CutAt(DbNow(s), ws, i - n, db);
    }
  }

  ghost predicate CutAt(db0: seq<Block>, ws: seq<DbWrite>, k: nat, db: seq<Block>) {
    && k <= |ws|
    && (db == RunDb(db0, ws[..k]) || (k < |ws| && exists any: Image :: db == TearDb(RunDb(db0, ws[..k]), ws[k], any)))
  }

  lemma CutsAfterDb(s: Store, ws: seq<DbWrite>, k: nat, db: seq<Block>)
    requires CutAt(DbNow(s), ws, k, db)
    ensures k <= |ws| && DbCut(AfterDb(s, ws), |s.dbQueue| + k, db)
  {
    hide TearDb, ApplyDb;
    var q, n := s.dbQueue + ws, |s.dbQueue|;
    assert q[..n + k] == s.dbQueue + ws[..k];
    RunDbAppend(s.dbSafe, s.dbQueue, ws[..k]);
    assert k < |ws| ==> q[n + k] == ws[k];
  }

  ghost predicate OverlayOk(ov: map<PageId, Image>) {
    forall id | id in ov :: (ov[id].MetaImage? <==> id == 0) && (id != 0 ==> Named(id, ov[id].page))
  }

  /** What `cut` is laid over may have changed where `cut` covers it, and past the pages the
      database then has. */
  ghost predicate Alike(db0: seq<Block>, db: seq<Block>, cut: map<PageId, Image>) {
    && |db0| <= |db| && db0 != [] && db0[0].MetaImage? && db[0].MetaImage?
    && (0 !in cut ==> db[0] == db0[0])
    && forall id | 1 <= id < PagesFound(db0, cut) && id !in cut :: PageAt(db, cut, id) == PageAt(db0, cut, id)
  }

  lemma AlikeFound(db0: seq<Block>, db: seq<Block>, cut: map<PageId, Image>)
    requires Alike(db0, db, cut) && Found(db0, cut).Some?
    ensures Found(db, cut) == Found(db0, cut)
  {
    var c0 := Found(db0, cut).value;
    var c := ContentsOf(db, cut, c0.meta);
    assert PagesFound(db0, cut) == c0.meta.pageCount;
    forall id | id in c0.pages ensures id in c.pages && c.pages[id] == c0.pages[id] {
      if id !in cut { assert PageAt(db, cut, id) == PageAt(db0, cut, id); }
    }
    assert c == c0;
  }

  /** A sheltered write, whole or torn. */
  ghost predicate Harmed(db0: seq<Block>, ov: map<PageId, Image>, cut: map<PageId, Image>, id: PageId) {
    id in ov && id !in cut && (id == 0 || id < PagesFound(db0, cut)) && !Same(db0, id, ov[id])
  }

  /** Until its turn comes, a block is as it was. */
  ghost predicate Unmoved(db0: seq<Block>, db: seq<Block>, ov: map<PageId, Image>) {
    forall id | id in ov && Same(db0, id, ov[id]) :: Same(db, id, ov[id])
  }

  lemma AlikeStep(db0: seq<Block>, db: seq<Block>, ov: map<PageId, Image>, cut: map<PageId, Image>, id: PageId, any: Image)
    requires Alike(db0, db, cut) && Unmoved(db0, db, ov) && id in ov && OverlayOk(ov) && !Harmed(db0, ov, cut, id)
    ensures Alike(db0, ApplyDb(db, PutBlock(id, ov[id])), cut) && Unmoved(db0, ApplyDb(db, PutBlock(id, ov[id])), ov)
    ensures Alike(db0, TearDb(db, PutBlock(id, ov[id]), any), cut)
  {
    if id !in cut && (id == 0 || id < PagesFound(db0, cut)) {
      assert Same(db0, id, ov[id]) && Same(db, id, ov[id]);
      assert SetBlock(db, id, ov[id]) == db;
    } else {
      AlikeBlock(db0, db, cut, id, ov[id]);
      AlikeBlock(db0, db, cut, id, Mixture(id, ov[id], any));
    }
  }

  lemma AlikeBlock(db0: seq<Block>, db: seq<Block>, cut: map<PageId, Image>, id: PageId, b: Block)
    requires Alike(db0, db, cut) && (id in cut || (id != 0 && id >= PagesFound(db0, cut))) && (b.MetaImage? <==> id == 0)
    ensures Alike(db0, SetBlock(db, id, b), cut)
  {
  }

  lemma AlikeGrown(db0: seq<Block>, db: seq<Block>, cut: map<PageId, Image>, n: nat)
    requires Alike(db0, db, cut)
    ensures Alike(db0, ApplyDb(db, Grow(n)), cut)
  {
  }

  lemma {:induction false} AlikeCopies(db: seq<Block>, ov: map<PageId, Image>, ids: seq<PageId>, cut: map<PageId, Image>, k: nat)
    requires Alike(db, db, cut) && OverlayOk(ov) && (forall i | 0 <= i < |ids| :: ids[i] in ov) && k <= |ids|
    requires forall i | 0 <= i < k :: !Harmed(db, ov, cut, ids[i])
    ensures Alike(db, RunDb(db, Copies(ov, ids)[..k]), cut) && Unmoved(db, RunDb(db, Copies(ov, ids)[..k]), ov)
  {
    if k > 0 {
      hide Alike, Unmoved, ApplyDb, OverlayOk, Harmed;
      var ws := Copies(ov, ids);
      AlikeCopies(db, ov, ids, cut, k - 1);
      assert ws[..k][..k - 1] == ws[..k - 1];
      AlikeStep(db, RunDb(db, ws[..k - 1]), ov, cut, ids[k - 1], MetaImage(Meta(0, 0, 0, 0, 0)));
    }
  }

  /** The file only grows. */
  lemma {:induction false} RunDbGrows(db: seq<Block>, ws: seq<DbWrite>)
    ensures |db| <= |RunDb(db, ws)|
  {
    if ws != [] { RunDbGrows(db, ws[..|ws| - 1]); }
  }

  /** However a sheltered recovery's writes are cut, opening finds what it found before. */
  lemma ShelteredCut(db0: seq<Block>, ov: map<PageId, Image>, ids: seq<PageId>, n: nat, log: Log, k: nat, db: seq<Block>)
    requires PagesOf(ov, ids) && OverlayOk(ov) && Sheltered(db0, ov, log)
    requires Found(db0, Overlay(log)).Some? && CutAt(db0, Redone(db0, ov, ids, n), k, db)
    ensures Found(db, Overlay(log)) == Found(db0, Overlay(log))
  {
    var cut, cs, ws := Overlay(log), Copies(ov, ids), Redone(db0, ov, ids, n);
    assert Alike(db0, db0, cut);
    assert forall i | 0 <= i < |ids| :: !Harmed(db0, ov, cut, ids[i]);
    hide Overlay, TearDb, ApplyDb, Same, OverlayOk, Alike, Harmed, Unmoved, Sheltered, Found;
    if k < |cs| || db == RunDb(db0, cs) {
      var k' := if k < |cs| then k else |cs|;
      assert ws[..k'] == cs[..k'];
      AlikeCopies(db0, ov, ids, cut, k');
      var now := RunDb(db0, cs[..k']);
      assert cs[..|cs|] == cs;
      if db != now {
        assert ws[k] == cs[k];
        var any :| db == TearDb(now, ws[k], any);
        AlikeStep(db0, now, ov, cut, ids[k], any);
      }
    } else {
      AlikeCopies(db0, ov, ids, cut, |cs|);
      assert cs[..|cs|] == cs;
      GrownCut(db0, cs, n, k, db);
      AlikeGrown(db0, RunDb(db0, cs), cut, n);
    }
    AlikeFound(db0, db, cut);
  }

  lemma {:induction false} GrownCut(db0: seq<Block>, cs: seq<DbWrite>, n: nat, k: nat, db: seq<Block>)
    requires k >= |cs| && db != RunDb(db0, cs)
    requires CutAt(db0, cs + if |RunDb(db0, cs)| < n then [Grow(n)] else [], k, db)
    ensures |RunDb(db0, cs)| < n && db == ApplyDb(RunDb(db0, cs), Grow(n))
  {
    var now := RunDb(db0, cs);
    var ws := cs + if |now| < n then [Grow(n)] else [];
    assert ws[..|cs|] == cs;
    if k > |cs| {
      assert ws[..k] == cs + [Grow(n)];
      RunDbOne(db0, cs, Grow(n));
    }
  }

  // ---- once all is copied ----

  lemma {:induction false} CopiedAt(db: seq<Block>, ov: map<PageId, Image>, ids: seq<PageId>, k: nat)
    requires Ascending(ids) && (forall i | 0 <= i < |ids| :: ids[i] in ov) && k <= |ids|
    ensures var now := RunDb(db, Copies(ov, ids)[..k]);
            && (forall i | 0 <= i < k :: Same(now, ids[i], ov[ids[i]]))
            && (forall id: nat | id < |now| && id !in ids[..k] ::
                  now[id] == if id < |db| then db[id] else PageImage(ZERO_PAGE))
            && |now| == if k > 0 && |db| <= ids[k - 1] then ids[k - 1] + 1 else |db|
  {
    if k > 0 {
      var ws := Copies(ov, ids);
      CopiedAt(db, ov, ids, k - 1);
      assert ws[..k][..k - 1] == ws[..k - 1] && ws[..k][k - 1] == PutBlock(ids[k - 1], ov[ids[k - 1]]);
      assert ids[..k] == ids[..k - 1] + [ids[k - 1]];
    }
  }

  lemma {:induction false} CopiesHold(db: seq<Block>, ov: map<PageId, Image>, ids: seq<PageId>, c: Contents, k: nat)
    requires Holds(db, ov, c) && PagesOf(ov, ids) && OverlayOk(ov) && k <= |ids|
    ensures Holds(RunDb(db, Copies(ov, ids)[..k]), ov, c)
  {
    if k > 0 {
      hide Holds, ApplyDb;
      var ws := Copies(ov, ids);
      CopiesHold(db, ov, ids, c, k - 1);
      assert ws[..k][..k - 1] == ws[..k - 1];
      CoveredWrite(RunDb(db, ws[..k - 1]), ids[k - 1], ov, c);
    }
  }

  lemma {:induction false} CopiedAll(db: seq<Block>, ov: map<PageId, Image>, ids: seq<PageId>, c: Contents)
    requires Holds(db, ov, c) && PagesOf(ov, ids) && OverlayOk(ov)
    ensures var now := RunDb(db, Copies(ov, ids));
            Holds(now, ov, c) && forall id | id in ov :: Same(now, id, ov[id])
  {
    hide Holds, OverlayOk;
    CopiesHold(db, ov, ids, c, |ids|);
    CopiedAt(db, ov, ids, |ids|);
    var now := RunDb(db, Copies(ov, ids));
    assert Copies(ov, ids)[..|ids|] == Copies(ov, ids);
    forall id | id in ov ensures Same(now, id, ov[id]) {
      var i :| 0 <= i < |ids| && ids[i] == id;
      assert Same(now, ids[i], ov[ids[i]]);
    }
  }

  lemma SameGrown(db: seq<Block>, n: nat, id: PageId, image: Image)
    requires Same(db, id, image)
    ensures Same(ApplyDb(db, Grow(n)), id, image)
  {
  }

  /** The file then holds the commit by itself. */
  lemma {:induction false} RedoneHolds(db: seq<Block>, ov: map<PageId, Image>, ids: seq<PageId>, c: Contents)
    requires Holds(db, ov, c) && PagesOf(ov, ids) && OverlayOk(ov) && ov != map[]
    ensures Holds(RunDb(db, Redone(db, ov, ids, c.meta.pageCount)), map[], c)
  {
    var cs, n := Copies(ov, ids), c.meta.pageCount;
    CopiedAll(db, ov, ids, c);
    HoldsMeta(db, ov, c);
    var now := RunDb(db, cs);
    var last := RunDb(db, Redone(db, ov, ids, n));
    hide Holds, ApplyDb, RunDb, Copies;
    if |now| < n {
      RunDbOne(db, cs, Grow(n));
      GrownFile(now, ov, c);
      GrownSize(now, n);
      forall id | id in ov ensures Same(last, id, ov[id]) { SameGrown(now, n, id, ov[id]); }
    } else {
      assert cs + [] == cs;
    }
    forall id | id in ov ensures id < |last| && last[id] == ov[id] { assert Same(last, id, ov[id]); }
    AllCopied(last, ov, c);
  }

  lemma GrownSize(db: seq<Block>, n: nat) requires |db| < n ensures |ApplyDb(db, Grow(n))| == n {}

  lemma HoldsMeta(db: seq<Block>, ov: map<PageId, Image>, c: Contents)
    requires Holds(db, ov, c)
    ensures ov != map[] ==> 0 in ov && ov[0] == MetaImage(c.meta)
  {
  }

  /** A log laid over a file that holds contents holds well-formed pages. */
  lemma HoldsTyped(db: seq<Block>, log: Log, c: Contents)
    requires Holds(db, Overlay(log), c) && Tidy(log)
    ensures OverlayOk(Overlay(log))
  {
    TidyTyped(log);
    hide Overlay, Tidy;
    var ov := Overlay(log);
    forall id | id in ov && id != 0 ensures Named(id, ov[id].page) { assert PageIs(db, ov, id, c.pages[id]); }
  }

  lemma TidyTyped(log: Log)
    requires Tidy(log)
    ensures forall id | id in Overlay(log) :: Overlay(log)[id].MetaImage? <==> id == 0
  {
    if log.header.Some? {
      var at := Latest(log.slots, CommitEnd(log));
      forall id | id in Overlay(log) ensures Overlay(log)[id].MetaImage? <==> id == 0 { assert Typed(log.slots[at[id]]); }
    } else {
      assert Latest(log.slots, 0) == map[];
    }
  }

  // ---- when a recovery survives ----

  /** The files found, and the log's commits: what a recovery starts from. */
  ghost predicate FoundFiles(s: Store, ov: map<PageId, Image>, ids: seq<PageId>, c: Contents, gen: nat) {
    && Recovers(Files(DbNow(s), LogNow(s)), c) && ov == Overlay(LogNow(s)) && PagesOf(ov, ids)
    && CommitsBefore(LogNow(s), gen)
  }

  lemma FoundOk(s: Store, ov: map<PageId, Image>, ids: seq<PageId>, c: Contents, gen: nat)
    requires FoundFiles(s, ov, ids, c, gen)
    ensures OverlayOk(ov) && PagesOf(ov, ids) && Holds(DbNow(s), ov, c) && Found(DbNow(s), Overlay(LogNow(s))) == Some(c)
    ensures Overlay(LogNow(s)) == ov
  {
    HoldsTyped(DbNow(s), LogNow(s), c);
    HoldsFound(DbNow(s), ov, c);
  }

  /** With some first writes of the log lost, and none of the file's. */
  function Base(s: Store, log: Log): Files { Files(DbNow(s), log) }

  lemma BaseOf(s: Store, j: nat, log: Log)
    requires j <= |s.logQueue| && LogCut(s, j, log)
    ensures PowerLeaves(s, Base(s, log))
  {
    hide LogCut;
    assert s.dbQueue[..|s.dbQueue|] == s.dbQueue;
    assert DbCut(s, |s.dbQueue|, DbNow(s));
  }

  /** Whatever of the copying survives, sheltered by the log that does. */
  lemma ShelteredCopies(s: Store, ov: map<PageId, Image>, ids: seq<PageId>, c: Contents, gen: nat, y: nat, d: Files)
    requires FoundFiles(s, ov, ids, c, gen) && AllSheltered(s, ov) && y <= |Redone(DbNow(s), ov, ids, c.meta.pageCount)|
    requires forall e | PowerLeaves(s, e) :: Found(e.db, Overlay(e.log)).Some?
    requires PowerLeaves(AfterDb(s, Redone(DbNow(s), ov, ids, c.meta.pageCount)[..y]), d)
    ensures FoundBefore(s, d)
  {
    FoundOk(s, ov, ids, c, gen);
    hide Recovers, LogCut, DbCut, Redone, Sheltered, Overlay, DbNow, LogNow, CutAt, Found, OverlayOk, Holds;
    var n := c.meta.pageCount;
    var ws := Redone(DbNow(s), ov, ids, n)[..y];
    var t := AfterDb(s, ws);
    var i: nat, j: nat :| i <= |t.dbQueue| && j <= |t.logQueue| && DbCut(t, i, d.db) && LogCut(t, j, d.log);
    LogCutSame(s, t, j, d.log);
    CutAfterDb(s, ws, i, d.db);
    if i <= |s.dbQueue| && DbCut(s, i, d.db) {
      assert PowerLeaves(s, d);
    } else {
      var k :| CutAt(DbNow(s), ws, k, d.db);
      CutOfFewer(DbNow(s), Redone(DbNow(s), ov, ids, n), y, k, d.db);
      BaseOf(s, j, d.log);
      ShelteredCut(DbNow(s), ov, ids, n, d.log, k, d.db);
    }
  }

  lemma CutOfFewer(db0: seq<Block>, ws: seq<DbWrite>, y: nat, k: nat, db: seq<Block>)
    requires y <= |ws| && CutAt(db0, ws[..y], k, db)
    ensures CutAt(db0, ws, k, db)
  {
    hide TearDb, RunDb;
    assert ws[..y][..k] == ws[..k];
  }

  lemma {:induction false} AllOfThem(db: seq<Block>, ws: seq<DbWrite>) ensures CutAt(db, ws, |ws|, RunDb(db, ws)) { assert ws[..|ws|] == ws; }

  lemma LogNowSynced(s: Store, ws: seq<DbWrite>)
    ensures var u := DbSynced(AfterDb(s, ws)); u.logSafe == s.logSafe && u.logQueue == s.logQueue && LogNow(u) == LogNow(s)
  {
  }

  lemma NowIsCut(s: Store)
    ensures LogCut(s, |s.logQueue|, LogNow(s)) && DbCut(s, |s.dbQueue|, DbNow(s))
  {
    assert s.logQueue[..|s.logQueue|] == s.logQueue && s.dbQueue[..|s.dbQueue|] == s.dbQueue;
  }

  /** And when the file is synced and the log begun anew. */
  lemma ShelteredReset(s: Store, ov: map<PageId, Image>, ids: seq<PageId>, c: Contents, gen: nat, d: Files)
    requires FoundFiles(s, ov, ids, c, gen) && ov != map[] && AllSheltered(s, ov)
    requires forall e | PowerLeaves(s, e) :: Found(e.db, Overlay(e.log)).Some?
    requires PowerLeaves(Issue(DbSynced(AfterDb(s, Redone(DbNow(s), ov, ids, c.meta.pageCount))), ToLog(PutHeader(gen))), d)
    ensures FoundBefore(s, d)
  {
    FoundOk(s, ov, ids, c, gen);
    PutHeaderKeeps(LogNow(s), gen);
    RedoneHolds(DbNow(s), ov, ids, c);
    hide Recovers, LogCut, Redone, Sheltered, Overlay, DbNow, LogNow, CutAt, ApplyLog, TearLog, Holds, Tidy, Found, OverlayOk;
    var ws := Redone(DbNow(s), ov, ids, c.meta.pageCount);
    AfterDbNow(s, ws);
    var u := DbSynced(AfterDb(s, ws));
    var t := Issue(u, ToLog(PutHeader(gen)));
    LogNowSynced(s, ws);
    var i: nat, j: nat :| i <= |t.dbQueue| && j <= |t.logQueue| && DbCut(t, i, d.db) && LogCut(t, j, d.log);
    assert d.db == RunDb(DbNow(s), ws);
    LogCutStep(u, PutHeader(gen), j, d.log);
    if j <= |u.logQueue| && LogCut(u, j, d.log) {
      LogCutSame(s, u, j, d.log);
      BaseOf(s, j, d.log);
      AllOfThem(DbNow(s), ws);
      ShelteredCut(DbNow(s), ov, ids, c.meta.pageCount, d.log, |ws|, d.db);
    } else {
      HoldsFound(d.db, map[], c);
      NowIsCut(s);
      BaseOf(s, |s.logQueue|, LogNow(s));
    }
  }

  /** Nothing to redo: only the new header is written. */
  lemma EmptyReset(s: Store, ids: seq<PageId>, c: Contents, gen: nat, d: Files)
    requires FoundFiles(s, map[], ids, c, gen) && PowerLeaves(Issue(s, ToLog(PutHeader(gen))), d)
    ensures FoundBefore(s, d)
  {
    PutHeaderKeeps(LogNow(s), gen);
    NowIsCut(s);
    hide LogCut, DbCut, Tidy, DbNow, LogNow, ApplyLog, TearLog, Holds, Overlay, Found;
    var t := Issue(s, ToLog(PutHeader(gen)));
    var i: nat, j: nat :| i <= |t.dbQueue| && j <= |t.logQueue| && DbCut(t, i, d.db) && LogCut(t, j, d.log);
    DbCutSame(s, t, i, d.db);
    LogCutStep(s, PutHeader(gen), j, d.log);
    if j <= |s.logQueue| && LogCut(s, j, d.log) {
      assert PowerLeaves(s, d);
    } else {
      assert PowerLeaves(s, Files(d.db, LogNow(s)));
    }
  }

  lemma DbCutSame(s: Store, t: Store, i: nat, db: seq<Block>)
    requires s.dbSafe == t.dbSafe && s.dbQueue == t.dbQueue && i <= |s.dbQueue| && DbCut(t, i, db)
    ensures DbCut(s, i, db)
  {
  }

  // ---- and when it does not ----

  /** There is always a page unlike those at `id` in the contents `h`. */
  lemma {:induction false} NewPage(h: seq<Contents>, id: PageId, at: nat) returns (page: Page)
    ensures Named(id, page) && |page.body| >= at
    ensures forall k | 0 <= k < |h| && id in h[k].pages :: h[k].pages[id] != page
  {
    if h == [] {
      page := Page(id, Formatted(0), 0, seq(at, _ => 0));
    } else {
      var first := h[0];
      page := NewPage(h[1..], id, if id in first.pages && |first.pages[id].body| >= at then |first.pages[id].body| + 1 else at);
      forall k | 0 <= k < |h| && id in h[k].pages ensures h[k].pages[id] != page {
        if k > 0 { assert h[k] == h[1..][k - 1]; }
      }
    }
  }

  /** A block that is read, and that no frame of the cut log covers, torn. */
  lemma TornBlock(db: seq<Block>, id: PageId, image: Image, log: Log, h: seq<Contents>) returns (any: Image)
    requires id !in Overlay(log) && !Same(db, id, image) && db != [] && (id == 0 || id < PagesFound(db, Overlay(log)))
    ensures !FindsOne(Files(TearDb(db, PutBlock(id, image), any), log), h)
    ensures id == 0 ==> Found(TearDb(db, PutBlock(id, image), any), Overlay(log)) == None
  {
    if id == 0 {
      any := MetaImage(Meta(|db| + 1, 0, 0, 0, 0));
    } else {
      var page := NewPage(h, id, 0);
      any := PageImage(page);
    }
    var torn := TearDb(db, PutBlock(id, image), any);
    assert torn[id] == any;
    hide Overlay;
    if id == 0 {
      assert 0 !in Overlay(log) && torn[0].meta.pageCount > |torn|;
    } else if Found(torn, Overlay(log)).Some? {
      var c := Found(torn, Overlay(log)).value;
      assert id in c.pages && c.pages[id] == any.page;
    }
  }

  /** A page is not in place before its turn to be copied; and the meta page is the first. */
  lemma {:induction false} NotYet(db: seq<Block>, ov: map<PageId, Image>, ids: seq<PageId>, x: nat)
    requires PagesOf(ov, ids) && x < |ids| && !Same(db, ids[x], ov[ids[x]])
    ensures var now := RunDb(db, Copies(ov, ids)[..x]);
            && !Same(now, ids[x], ov[ids[x]]) && |db| <= |now|
            && (db != [] && (ids[x] == 0 || (0 in ov && Same(db, 0, ov[0]))) ==> now[0] == db[0])
  {
    CopiedAt(db, ov, ids, x);
    RunDbGrows(db, Copies(ov, ids)[..x]);
    assert forall i | 0 <= i < x :: ids[i] < ids[x];
    assert ids[x] !in ids[..x];
    assert Copies(ov, ids)[..0] == [];
    if 0 in ov && x > 0 { FirstIsMeta(ov, ids); assert Same(RunDb(db, Copies(ov, ids)[..x]), ids[0], ov[ids[0]]); }
  }

  lemma FirstIsMeta(ov: map<PageId, Image>, ids: seq<PageId>)
    requires PagesOf(ov, ids) && 0 in ov
    ensures ids != [] && ids[0] == 0
  {
    var i :| 0 <= i < |ids| && ids[i] == 0;
  }

  /** One unsheltered block is enough. */
  lemma TornUncovered(db: seq<Block>, ov: map<PageId, Image>, ids: seq<PageId>, n: nat, log: Log, x: nat, h: seq<Contents>)
      returns (torn: seq<Block>)
    requires PagesOf(ov, ids) && x < |ids| && Harmed(db, ov, Overlay(log), ids[x]) && db != [] && 0 in ov
    requires ids[x] == 0 || 0 in Overlay(log) || Same(db, 0, ov[0])
    ensures CutAt(db, Redone(db, ov, ids, n), x, torn) && !FindsOne(Files(torn, log), h)
    ensures ids[x] == 0 ==> Found(torn, Overlay(log)) == None
  {
    var cs, ws := Copies(ov, ids), Redone(db, ov, ids, n);
    assert ws[..x] == cs[..x] && ws[x] == cs[x] == PutBlock(ids[x], ov[ids[x]]);
    NotYet(db, ov, ids, x);
    var now := RunDb(db, ws[..x]);
    assert ids[x] != 0 ==> PagesFound(now, Overlay(log)) == PagesFound(db, Overlay(log));
    hide TearDb, RunDb, Overlay, FindsOne, Same, PagesFound, Found;
    var any := TornBlock(now, ids[x], ov[ids[x]], log, h);
    torn := TearDb(now, ws[x], any);
    assert CutAt(db, ws, x, torn);
  }

  /** Not sheltered: some cut of the copying finds what is none of `h`. */
  lemma Unsheltered(s: Store, ov: map<PageId, Image>, ids: seq<PageId>, c: Contents, gen: nat, j: nat, log: Log, id: PageId, h: seq<Contents>)
      returns (d: Files)
    requires FoundFiles(s, ov, ids, c, gen) && j <= |s.logQueue| && LogCut(s, j, log)
    requires Harmed(DbNow(s), ov, Overlay(log), id)
    ensures PowerLeaves(AfterDb(s, Redone(DbNow(s), ov, ids, c.meta.pageCount)), d) && !FindsOne(d, h)
    ensures id == 0 ==> Found(d.db, Overlay(d.log)) == None
  {
    FoundOk(s, ov, ids, c, gen);
    FoundSome(s, ov, c);
    var n := c.meta.pageCount;
    var ws := Redone(DbNow(s), ov, ids, n);
    var t := AfterDb(s, ws);
    var y := if 0 !in Overlay(log) && !Same(DbNow(s), 0, ov[0]) then 0 else id;
    assert Harmed(DbNow(s), ov, Overlay(log), y);
    hide Recovers, LogCut, DbCut, Redone, Overlay, DbNow, LogNow, CutAt, OverlayOk, Same, TearDb, Holds, FindsOne, Found, Harmed;
    assert y in ov && y in ids by { HarmedIn(DbNow(s), ov, Overlay(log), y); }
    var x :| 0 <= x < |ids| && ids[x] == y;
    var torn := TornUncovered(DbNow(s), ov, ids, n, log, x, h);
    CutsAfterDb(s, ws, x, torn);
    LogCutSame(t, s, j, log);
    d := Files(torn, log);
    assert PowerLeaves(t, d);
  }

  lemma HarmedIn(db: seq<Block>, ov: map<PageId, Image>, cut: map<PageId, Image>, id: PageId)
    requires Harmed(db, ov, cut, id)
    ensures id in ov
  {
  }

  lemma FoundSome(s: Store, ov: map<PageId, Image>, c: Contents)
    requires Holds(DbNow(s), ov, c)
    ensures DbNow(s) != [] && (ov != map[] ==> 0 in ov)
  {
  }

  // ---- the whole recovery ----

  lemma {:induction false} DbMomentAt(s: Store, ws: seq<DbWrite>, k: nat, m: Moment)
    requires m in DbMoments(s, ws, k)
    ensures exists y :: 1 <= y <= |ws| && Issued(m) == AfterDb(s, ws[..y])
  {
    var v, w := ws[..|ws| - 1], ws[|ws| - 1];
    if m in DbMoments(s, v, k) {
      DbMomentAt(s, v, k, m);
      var y :| 1 <= y <= |v| && Issued(m) == AfterDb(s, v[..y]);
      assert v[..y] == ws[..y];
    } else {
      assert s.dbQueue + v + [w] == s.dbQueue + ws;
      assert ws[..|ws|] == ws;
    }
  }

  lemma {:induction false} LastDbMoment(s: Store, ws: seq<DbWrite>, k: nat)
    requires ws != []
    ensures exists m :: m in DbMoments(s, ws, k) && Issued(m) == AfterDb(s, ws)
  {
    var v, w := ws[..|ws| - 1], ws[|ws| - 1];
    var m := Moment(AfterDb(s, v), Some(ToDb(w)), k, k);
    assert DbMoments(s, ws, k) == DbMoments(s, v, k) + [m];
    assert s.dbQueue + v + [w] == s.dbQueue + ws;
    assert Issued(m) == AfterDb(s, ws);
  }

  /** Sheltered files that open however they are cut: at no moment of their recovery does a
      power cut leave anything else to find. */
  lemma ShelteredFinds(s: Store, ov: map<PageId, Image>, ids: seq<PageId>, c: Contents, gen: nat)
    requires FoundFiles(s, ov, ids, c, gen) && AllSheltered(s, ov)
    requires forall e | PowerLeaves(s, e) :: Found(e.db, Overlay(e.log)).Some?
    ensures FindsNothingNew(RecoveryTrace(s, ov, ids, c.meta.pageCount, gen), s)
  {
    var t := RecoveryTrace(s, ov, ids, c.meta.pageCount, gen);
    var ws := Redone(DbNow(s), ov, ids, c.meta.pageCount);
    hide FoundFiles, AllSheltered, DbMoments, Redone, DbNow, AfterDb, DbSynced, Overlay, Found, PowerLeaves, LogNow;
    forall m, d | m in t && PowerLeaves(Issued(m), d) ensures FoundBefore(s, d) {
      if m == Moment(s, None, 0, 0) {
        assert PowerLeaves(s, d);
      } else if ov == map[] {
        EmptyReset(s, ids, c, gen, d);
      } else if m in DbMoments(s, ws, 0) {
        DbMomentAt(s, ws, 0, m);
        var y :| 1 <= y <= |ws| && Issued(m) == AfterDb(s, ws[..y]);
        ShelteredCopies(s, ov, ids, c, gen, y, d);
      } else {
        ShelteredReset(s, ov, ids, c, gen, d);
      }
    }
  }

  /** A power cut at some moment of the copying leaves what is none of `h`, and if it is the
      meta page that is not sheltered, nothing that opens. */
  lemma UnshelteredAt(s: Store, ov: map<PageId, Image>, ids: seq<PageId>, c: Contents, gen: nat, j: nat, log: Log, id: PageId, h: seq<Contents>)
      returns (m: Moment, d: Files)
    requires FoundFiles(s, ov, ids, c, gen) && j <= |s.logQueue| && LogCut(s, j, log)
    requires Harmed(DbNow(s), ov, Overlay(log), id)
    ensures m in RecoveryTrace(s, ov, ids, c.meta.pageCount, gen) && PowerLeaves(Issued(m), d) && !FindsOne(d, h)
    ensures id == 0 ==> Found(d.db, Overlay(d.log)) == None
  {
    HarmedIn(DbNow(s), ov, Overlay(log), id);
    assert id in ids;
    var ws := Redone(DbNow(s), ov, ids, c.meta.pageCount);
    hide Recovers, DbMoments, DbNow, AfterDb, DbSynced, LogCut, LogNow, Overlay, Same, PowerLeaves, FindsOne, Harmed, FoundFiles, Found;
    d := Unsheltered(s, ov, ids, c, gen, j, log, id, h);
    LastDbMoment(s, ws, 0);
    m :| m in DbMoments(s, ws, 0) && Issued(m) == AfterDb(s, ws);
  }

  /** The log may be left without the commit whose meta page is to be copied. */
  ghost predicate MetaExposed(s: Store, ov: map<PageId, Image>) {
    exists j: nat, log :: j <= |s.logQueue| && LogCut(s, j, log) && Harmed(DbNow(s), ov, Overlay(log), 0)
  }

  /** Opening these files fails. */
  ghost predicate Refused(d: Files) { Found(d.db, Overlay(d.log)) == None }

  lemma MetaLost(s: Store, ov: map<PageId, Image>, ids: seq<PageId>, c: Contents, gen: nat) returns (m: Moment, d: Files)
    requires FoundFiles(s, ov, ids, c, gen) && MetaExposed(s, ov)
    ensures m in RecoveryTrace(s, ov, ids, c.meta.pageCount, gen) && PowerLeaves(Issued(m), d) && Refused(d)
  {
    var j: nat, log :| j <= |s.logQueue| && LogCut(s, j, log) && Harmed(DbNow(s), ov, Overlay(log), 0);
    hide FoundFiles, LogCut, Harmed, RecoveryTrace, PowerLeaves, Overlay, Found;
    m, d := UnshelteredAt(s, ov, ids, c, gen, j, log, 0, []);
  }

  lemma UnshelteredFinds(s: Store, ov: map<PageId, Image>, ids: seq<PageId>, c: Contents, gen: nat, h: seq<Contents>)
      returns (m: Moment, d: Files)
    requires FoundFiles(s, ov, ids, c, gen) && !AllSheltered(s, ov)
    ensures m in RecoveryTrace(s, ov, ids, c.meta.pageCount, gen) && PowerLeaves(Issued(m), d) && !FindsOne(d, h)
  {
    var j: nat, log :| j <= |s.logQueue| && LogCut(s, j, log) && !Sheltered(DbNow(s), ov, log);
    var id :| id in ov && id !in Overlay(log) && (id == 0 || id < PagesFound(DbNow(s), Overlay(log))) && !Same(DbNow(s), id, ov[id]);
    assert Harmed(DbNow(s), ov, Overlay(log), id);
    hide FoundFiles, LogCut, Harmed, RecoveryTrace, PowerLeaves, Overlay, FindsOne;
    m, d := UnshelteredAt(s, ov, ids, c, gen, j, log, id, h);
  }

  lemma BeforeIsOne(s: Store, d: Files, h: seq<Contents>)
    requires FoundBefore(s, d) && AlwaysFinds(s, h)
    ensures FindsOne(d, h)
  {
    hide PowerLeaves, Found, Overlay;
    var e :| PowerLeaves(s, e) && Found(d.db, Overlay(d.log)) == Found(e.db, Overlay(e.log));
    assert FindsOne(e, h);
  }

  /** Files found with unsynced writes in them: a power cut at any moment of their recovery
      leaves one of the contents `h` if and only if one before it did, and all that is
      copied is sheltered by whatever part of the log would be left. */
  lemma RecoverySurvives(s: Store, ov: map<PageId, Image>, ids: seq<PageId>, c: Contents, gen: nat, h: seq<Contents>)
    requires FoundFiles(s, ov, ids, c, gen)
    ensures Survives(RecoveryTrace(s, ov, ids, c.meta.pageCount, gen), h) <==> AlwaysFinds(s, h) && AllSheltered(s, ov)
  {
    var t := RecoveryTrace(s, ov, ids, c.meta.pageCount, gen);
    assert t[0] in t && Issued(t[0]) == s;
    hide FoundFiles, AllSheltered, RecoveryTrace, PowerLeaves, Found, Overlay;
    if AlwaysFinds(s, h) && AllSheltered(s, ov) {
      forall e | PowerLeaves(s, e) ensures Found(e.db, Overlay(e.log)).Some? { assert FindsOne(e, h); }
      ShelteredFinds(s, ov, ids, c, gen);
      forall m, d | m in t && PowerLeaves(Issued(m), d) ensures FindsOne(d, h) {
        assert FoundBefore(s, d);
        BeforeIsOne(s, d, h);
      }
    }
    if Survives(t, h) {
      assert AlwaysFinds(s, h);
      if !AllSheltered(s, ov) { var m, d := UnshelteredFinds(s, ov, ids, c, gen, h); }
    }
  }

  /** So where a power cut could leave only some commits before, recovering costs nothing
      more if and only if all that is copied is sheltered. */
  lemma RecoveryLosesNothing(s: Store, ov: map<PageId, Image>, ids: seq<PageId>, c: Contents, gen: nat, h: seq<Contents>)
    requires FoundFiles(s, ov, ids, c, gen) && AlwaysFinds(s, h)
    ensures FindsNothingNew(RecoveryTrace(s, ov, ids, c.meta.pageCount, gen), s) <==> AllSheltered(s, ov)
  {
    hide FoundFiles, AllSheltered, RecoveryTrace, PowerLeaves, Found, Overlay;
    if AllSheltered(s, ov) {
      forall e | PowerLeaves(s, e) ensures Found(e.db, Overlay(e.log)).Some? { assert FindsOne(e, h); }
      ShelteredFinds(s, ov, ids, c, gen);
    } else {
      var m, d := UnshelteredFinds(s, ov, ids, c, gen, h);
      if FoundBefore(s, d) { BeforeIsOne(s, d, h); }
    }
  }
}
