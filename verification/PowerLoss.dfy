/** A session that syncs every commit, and a power cut that may keep or lose any of the
    unsynced writes: when it is safe at rest, in a checkpoint and in a commit, and the
    runs after which it is not. */
module PowerLoss {
  import opened Wrappers
  import opened Disk
  import opened Recovery
  import opened Crash
  import opened Redoing
  import opened Unordered
  import opened WriteAheadLog
  import opened PageStore

  // ---- with no commit in flight ----

  /** What the synced files of such a session hold: the last commit, with the synced log;
      and without it, unless it is the log in use. */
  lemma SafeHolds(p: Pager)
    requires p.Valid() && p.Syncing()
    ensures p.dbQueue == [] && SessionOf(p.wal.safe, p.wal.queue, p.wal.generation, p.wal.commitEnd)
    ensures Holds(p.dbSafe, Overlay(p.wal.safe), p.Committed())
    ensures p.wal.safe.header != Some(p.wal.generation) ==> Holds(p.dbSafe, map[], p.Committed())
  {
    var s, c := p.Files(), p.Committed();
    hide Overlay, Tidy, Holds, Indexed, TraceSafe, SessionOf;
    assert p.dbQueue == [] && Holds(DbNow(s), p.wal.Committed(), c);
    SafeIsCut(s);
    assert Allowed(p.history, |p.history| - 1, |p.history| - 1, Files(p.dbSafe, p.wal.safe));
    if p.wal.safe.header != Some(p.wal.generation) { NoCommits(p); }
  }

  lemma SafeIsCut(s: Store)
    requires s.dbQueue == []
    ensures PowerLeaves(s, Files(s.dbSafe, s.logSafe))
  {
    assert s.logQueue[..0] == [];
    assert DbCut(s, 0, s.dbSafe) && LogCut(s, 0, s.logSafe);
  }

  lemma NoCommits(p: Pager)
    requires p.Valid() && p.Syncing() && p.wal.safe.header != Some(p.wal.generation)
    ensures p.wal.Committed() == map[]
  {
    assert p.wal.commitEnd == 0;
    LatestNone(p.wal.Now().slots);
  }

  /** Last versions of some pages, laid over a file that holds them all. */
  lemma WithinHolds(db: seq<Block>, big: map<PageId, Image>, small: map<PageId, Image>, c: Contents)
    requires Holds(db, big, c) && Holds(db, map[], c) && Within(small, big) && (small != map[] ==> 0 in small)
    ensures Holds(db, small, c)
  {
    forall id | id in c.pages ensures PageIs(db, small, id, c.pages[id]) {
      assert PageIs(db, big, id, c.pages[id]) && PageIs(db, map[], id, c.pages[id]);
    }
  }

  /** An older version of a page shows. */
  lemma NotWithinFound(db: seq<Block>, big: map<PageId, Image>, small: map<PageId, Image>, c: Contents)
    requires Holds(db, big, c) && !Within(small, big) && small.Keys <= big.Keys && 0 in small && MetaFirst(big) && MetaFirst(small)
    ensures Found(db, small) != Some(c)
  {
    var id :| id in small && big[id] != small[id];
    if Found(db, small).Some? {
      var c' := Found(db, small).value;
      assert c'.meta == small[0].meta;
      if c'.meta == c.meta && id != 0 {
        assert PageIs(db, big, id, c.pages[id]) && PageAt(db, small, id) == small[id].page;
        assert c'.pages[id] != c.pages[id];
      }
    }
  }

  ghost predicate MetaFirst(ov: map<PageId, Image>) { forall id | id in ov :: ov[id].MetaImage? <==> id == 0 }

  /** What a log commits before one of its slots. */
  lemma EarlierIs(safe: Log, k: nat)
    requires safe.header.Some? && CommitsBefore(safe, safe.header.value + 1) && k < CommitEnd(safe)
    ensures Earlier(safe, k).Keys <= Overlay(safe).Keys && (Earlier(safe, k) != map[] ==> 0 in Earlier(safe, k))
    ensures MetaFirst(Earlier(safe, k)) && MetaFirst(Overlay(safe))
  {
    var e, r := CommitEnd(safe), LastCommit(safe.slots, k);
    LatestIs(safe.slots, e);
    LatestIs(safe.slots, r);
    LastCommitIs(safe.slots, k);
    var early, all := Latest(safe.slots, r), Latest(safe.slots, e);
    hide LastCommit, CommitEnd, ScanEnd;
    if r == 0 { LatestNone(safe.slots); } else { assert safe.slots[r - 1].id == 0; }
    forall id | id in early ensures id in all { assert safe.slots[early[id]].id == id; }
    forall id | id in early ensures Typed(safe.slots[early[id]]) {}
    forall id | id in all ensures Typed(safe.slots[all[id]]) {}
  }

  /** Between commits: opening finds the last acknowledged commit, whatever of the unsynced
      writes survives, if and only if no slot written over separates two versions of a page
      committed in the synced log. */
  lemma AtRestInAnyOrder(p: Pager)
    requires p.Valid() && p.Syncing()
    ensures (forall d | AnyPowerLeaves(p.Files(), d) :: Finds(d, p.Committed())) <==> PrefixesAgree(p.wal.safe, p.wal.queue)
  {
    var safe, q, c := p.wal.safe, p.wal.queue, p.Committed();
    SafeHolds(p);
    hide Pager.Valid, AnyLog, SessionOf, Overlay, Tidy, Holds, PrefixesAgree, Found;
    if PrefixesAgree(safe, q) {
      AtRestRecovers(p);
      forall d | AnyPowerLeaves(p.Files(), d) ensures Finds(d, c) { RecoversFinds(d, c); }
    } else {
      var d := OldVersions(p);
    }
  }

  /** And then the next session may go on from what it finds; so it may in any case: a log
      begun anew over what is left commits nothing. */
  lemma AtRestRecovers(p: Pager)
    requires p.Valid() && p.Syncing()
    ensures PrefixesAgree(p.wal.safe, p.wal.queue) ==> forall d | AnyPowerLeaves(p.Files(), d) :: Recovers(d, p.Committed())
    ensures forall d | AnyPowerLeaves(p.Files(), d) :: Tidy(d.log)
  {
    var safe, q, gen, c := p.wal.safe, p.wal.queue, p.wal.generation, p.Committed();
    SafeHolds(p);
    hide Pager.Valid, AnyLog, SessionOf, Overlay, Tidy, Holds, CommitEnd, Earlier;
    forall d | AnyPowerLeaves(p.Files(), d) ensures Tidy(d.log) && (PrefixesAgree(safe, q) ==> Recovers(d, c)) {
      assert d.db == p.dbSafe;
      RestCut(safe, q, gen, p.wal.commitEnd, d.log);
      if PrefixesAgree(safe, q) && Overlay(d.log) != Overlay(safe) && Overlay(d.log) != map[] {
        var k: nat :| Touched(q, k) && k < CommitEnd(safe) && Overlay(d.log) == Earlier(safe, k);
        assert AgreesAt(safe, k);
        HeaderOfCommits(safe, k);
        SessionForeign(safe, q, gen, p.wal.commitEnd);
        EarlierIs(safe, k);
        WithinHolds(d.db, Overlay(safe), Earlier(safe, k), c);
      }
    }
  }

  lemma HeaderOfCommits(safe: Log, k: nat)
    requires k < CommitEnd(safe)
    ensures safe.header.Some?
  {
  }

  /** Otherwise an older version of some page is found. */
  lemma OldVersions(p: Pager) returns (d: Files)
    requires p.Valid() && p.Syncing() && !PrefixesAgree(p.wal.safe, p.wal.queue)
    ensures AnyPowerLeaves(p.Files(), d) && !Finds(d, p.Committed())
  {
    var safe, q := p.wal.safe, p.wal.queue;
    SafeHolds(p);
    var k: nat :| Touched(q, k) && !AgreesAt(safe, k);
    HeaderOfCommits(safe, k);
    SessionForeign(safe, q, p.wal.generation, p.wal.commitEnd);
    EarlierIs(safe, k);
    hide Pager.Valid, AnyLog, SessionOf, Overlay, Holds, CommitEnd, Earlier, Found, Foreign;
    var log := EarlierCut(safe, q, k);
    assert Earlier(safe, k) != map[];
    NotWithinFound(p.dbSafe, Overlay(safe), Earlier(safe, k), p.Committed());
    d := Files(p.dbSafe, log);
  }

  /** A synced log of a single commit, the usual one after a checkpoint of a small
      transaction, agrees everywhere. */
  lemma OneCommitAgrees(safe: Log, k: nat)
    requires CommitEnd(safe) > 0 ==> LastCommit(safe.slots, CommitEnd(safe) - 1) == 0
    ensures AgreesAt(safe, k)
  {
    if k < CommitEnd(safe) {
      NoneEarlier(safe.slots, k, CommitEnd(safe) - 1);
      LatestNone(safe.slots);
    }
  }

  lemma {:induction false} NoneEarlier(slots: seq<Slot>, k: nat, n: nat)
    requires k <= n <= |slots| && LastCommit(slots, n) == 0
    ensures LastCommit(slots, k) == 0
    decreases n
  {
    if k < n { NoneEarlier(slots, k, n - 1); }
  }

  // ---- in a checkpoint ----

  lemma {:induction false} AnyCopies(db: seq<Block>, ov: map<PageId, Image>, c: Contents, ws: seq<DbWrite>, now: seq<Block>)
    requires Holds(db, ov, c) && OverlayOk(ov) && AnyDb(db, ws, now) && 0 in ov
    requires forall w | w in ws :: w == Grow(c.meta.pageCount) || (w.PutBlock? && w.id in ov && w.image == ov[w.id])
    ensures Holds(now, ov, c)
  {
    if ws != [] {
      hide Holds, OverlayOk;
      var v, w := ws[..|ws| - 1], ws[|ws| - 1];
      var prev :| AnyDb(db, v, prev) && AnyBlock(prev, w, now);
      assert w in ws && forall x | x in v :: x in ws;
      AnyCopies(db, ov, c, v, prev);
      AnyCopy(prev, ov, c, w, now);
    }
  }

  lemma AnyCopy(db: seq<Block>, ov: map<PageId, Image>, c: Contents, w: DbWrite, now: seq<Block>)
    requires Holds(db, ov, c) && OverlayOk(ov) && AnyBlock(db, w, now) && 0 in ov
    requires w == Grow(c.meta.pageCount) || (w.PutBlock? && w.id in ov && w.image == ov[w.id])
    ensures Holds(now, ov, c)
  {
    hide Holds;
    if w == Grow(c.meta.pageCount) { CoveredGrow(db, ov, c); } else { CoveredWrite(db, w.id, ov, c); }
  }

  /** While pages are copied the log is synced: however many of the copies, and of the
      frames of transactions rolled back, are lost, the last commit is there. */
  lemma CopyingInAnyOrder(p: Pager, ids: seq<PageId>)
    requires p.Valid() && p.Syncing() && p.wal.Committed() != map[] && PagesOf(p.wal.Committed(), ids)
    ensures var s := AfterDb(p.Files(), Redone(p.Db(), p.wal.Committed(), ids, p.Committed().meta.pageCount));
            forall d | AnyPowerLeaves(s, d) :: Recovers(d, p.Committed())
  {
    hide TraceSafe, Recorded, Resting, Redone, RunLog, RunDb;
    var safe, q, gen, c, ov := p.wal.safe, p.wal.queue, p.wal.generation, p.wal.commitEnd, p.wal.Committed();
    SafeHolds(p);
    SyncedCommits(p);
    var ws := Redone(p.Db(), ov, ids, p.Committed().meta.pageCount);
    var s := AfterDb(p.Files(), ws);
    assert [] + ws == ws;
    RedoneWrites(p.Db(), ov, ids, p.Committed().meta.pageCount);
    hide Pager.Valid, AnyLog, AnyDb, SessionOf, Overlay, Tidy, Holds, Redone, PagesOf;
    forall d | AnyPowerLeaves(s, d) ensures Recovers(d, p.Committed()) {
      RestCut(safe, q, gen, c, d.log);
      AnyCopies(p.dbSafe, ov, p.Committed(), ws, d.db);
      RecoversHolds(d.db, d.log, ov, p.Committed());
    }
  }

  lemma RedoneWrites(db: seq<Block>, ov: map<PageId, Image>, ids: seq<PageId>, n: nat)
    requires PagesOf(ov, ids)
    ensures forall w | w in Redone(db, ov, ids, n) :: w == Grow(n) || (w.PutBlock? && w.id in ov && w.image == ov[w.id])
  {
  }

  lemma SyncedCommits(p: Pager)
    requires p.Valid() && p.Syncing() && p.wal.Committed() != map[]
    ensures p.wal.safe.header == Some(p.wal.generation)
    ensures Overlay(p.wal.safe) == p.wal.Committed() && OverlayOk(p.wal.Committed()) && 0 in p.wal.Committed()
    ensures Holds(p.dbSafe, p.wal.Committed(), p.Committed())
  {
    var safe, q, gen, c := p.wal.safe, p.wal.queue, p.wal.generation, p.wal.commitEnd;
    if safe.header != Some(gen) { NoCommits(p); }
    SafeHolds(p);
    p.wal.ValidIsOpened();
    hide Overlay, Holds, Indexed, Pager.Valid, AnyLog, SessionOf, Images, IndexedFound, Tidy;
    p.wal.CommittedIsOverlay();
    RunIsCut(safe, q);
    RestCut(safe, q, gen, c, p.wal.Now());
    assert Tidy(safe) by { SafeIsAnyCut(safe, q); RestCut(safe, q, gen, c, safe); }
    HoldsTyped(p.dbSafe, safe, p.Committed());
  }

  lemma {:induction false} SafeIsAnyCut(safe: Log, q: seq<LogWrite>) ensures AnyLog(safe, q, safe) { NoneAtAll(safe, q); }

  // ---- in a commit ----

  /** The log while a commit's writes are issued. */
  lemma PagerCommits(p: Pager)
    requires p.Valid() && p.Syncing()
    ensures p.dbQueue == []
    ensures Committing(p.wal.safe, p.wal.queue, p.wal.headerOk, p.wal.generation, p.wal.commitEnd, p.wal.end, p.meta,
                       p.wal.queue + p.CommitWrites())
  {
    RestingRecovers(p.Files(), p.history, p.wal.Committed(), p.promise);
  }

  /** The files once all of a commit's writes are issued, none synced. */
  ghost function InCommit(p: Pager): Store
    reads p, p.wal
  {
    AfterLog(p.Files(), p.CommitWrites())
  }

  /** What the log redoes with the commit. */
  ghost function After(p: Pager): seq<Slot> reads p, p.wal { Kept(RunLog(p.wal.safe, p.wal.queue + p.CommitWrites())) }

  ghost predicate Alone(p: Pager)
    reads p, p.wal
  {
    && PrefixesAgree(p.wal.safe, p.wal.queue + p.CommitWrites())
    && OneFrameEach(p.wal.safe, p.wal.queue, p.wal.generation, p.wal.commitEnd, p.wal.end)
  }

  ghost predicate OldOrNew(p: Pager, d: Files)
    reads p, p.wal
  {
    KeepsOld(p.wal.safe, p.wal.generation, d.log) || Kept(d.log) == After(p)
  }

  /** A commit, its writes cut in any order before they are synced. Recovery redoes exactly
      the new commit, or only frames committed before, each page's last version, if and only
      if what the commit writes over separates no two versions of a page in the synced log,
      and its slots can hold nothing else of the generation; opening then finds the old
      contents or the new. What is left can be gone on from if and only if the header left
      is never older than the commit. Once the commit returns opening finds the new. */
  method CommitInAnyOrder(p: Pager)
    requires p.Valid() && p.Syncing()
    modifies p`trace, p`history, p`committedMeta, p`metaDirty, p.wal
    ensures p.Valid() && p.trace == old(p.CommitTrace()) && p.history == old(p.history) + [old(p.Current())]
    ensures (forall d | AnyPowerLeaves(old(InCommit(p)), d) :: old(OldOrNew(p, d))) <==> old(Alone(p))
    ensures old(Alone(p)) ==>
              forall d | AnyPowerLeaves(old(InCommit(p)), d) :: Finds(d, old(p.Committed())) || Finds(d, old(p.Current()))
    ensures (forall d | AnyPowerLeaves(old(InCommit(p)), d) :: Tidy(d.log)) <==> old(OneHeader(p.wal.safe, p.wal.queue, p.wal.generation))
    ensures forall d | AnyPowerLeaves(p.Files(), d) :: Recovers(d, p.Committed())
  {
    hide Pager.Valid, Pager.CommitTrace, Pager.CommitWrites, AnyPowerLeaves, Recovers, Alone, ContentsOf, RunLog, OneHeader, OldOrNew, Tidy, Found;
    BeforeCommit(p);
    ghost var s, c0 := InCommit(p), p.Committed();
    ghost var alone, oldFound := Alone(p), forall d | AnyPowerLeaves(s, d) && OldOrNew(p, d) :: Finds(d, c0) || Kept(d.log) == Kept(LogNow(s));
    p.WriteCommit();
    AfterCommitted(p, s);
    forall d | alone && AnyPowerLeaves(s, d) ensures Finds(d, c0) || Finds(d, p.Committed()) {
      if !Finds(d, c0) { NewFinds(d, s, p.Committed()); }
    }
  }

  lemma BeforeCommit(p: Pager)
    requires p.Valid() && p.Syncing()
    ensures |p.history| > 0 && InCommit(p).dbSafe == p.dbSafe && InCommit(p).dbQueue == []
    ensures (forall d | AnyPowerLeaves(InCommit(p), d) :: OldOrNew(p, d)) <==> Alone(p)
    ensures (forall d | AnyPowerLeaves(InCommit(p), d) :: Tidy(d.log)) <==> OneHeader(p.wal.safe, p.wal.queue, p.wal.generation)
    ensures forall d | AnyPowerLeaves(InCommit(p), d) && OldOrNew(p, d) :: Finds(d, p.Committed()) || Kept(d.log) == Kept(LogNow(InCommit(p)))
  {
    PagerCommits(p);
    SafeHolds(p);
    var w := p.wal;
    var all := w.queue + p.CommitWrites();
    assert InCommit(p) == Store(p.dbSafe, [], w.safe, all);
    assert LogNow(InCommit(p)) == RunLog(w.safe, all);
    hide Pager.Valid, Committing, AnyLog, KeepsOld, OneHeader, RunLog, Kept, PrefixesAgree, OneFrameEach, Pager.CommitWrites, Tidy, SessionOf, Holds, Found, Overlay;
    CommitAnyOrder(w.safe, w.queue, w.headerOk, w.generation, w.commitEnd, w.end, p.meta, all);
    TidyAnyOrder(w.safe, w.queue, w.headerOk, w.generation, w.commitEnd, w.end, p.meta, all);
    AnyFiles(InCommit(p), w.generation);
    forall d | AnyPowerLeaves(InCommit(p), d) && OldOrNew(p, d) ensures Finds(d, p.Committed()) || Kept(d.log) == Kept(LogNow(InCommit(p))) {
      assert d.db == p.dbSafe;
      if KeepsOld(w.safe, w.generation, d.log) { OldFinds(p, d.log); }
    }
  }

  /** What keeps to the frames committed before is still the last commit. */
  lemma OldFinds(p: Pager, log: Log)
    requires p.Valid() && p.Syncing() && KeepsOld(p.wal.safe, p.wal.generation, log)
    ensures Finds(Files(p.dbSafe, log), p.Committed())
  {
    SafeHolds(p);
    var safe, c, r := p.wal.safe, p.Committed(), CommitEnd(log);
    forall k | 0 <= k < r ensures log.slots[k] == safe.slots[k] { assert log.slots[..r][k] == safe.slots[..r][k]; }
    hide Pager.Valid, SessionOf, Holds, Overlay, Found, ScanEnd;
    if CommitEnd(log) == CommitEnd(safe) {
      SameOverlay(safe, log);
    } else {
      CommitsMeta(p, log);
      WithinHolds(p.dbSafe, Overlay(safe), Overlay(log), c);
    }
    HoldsFound(p.dbSafe, Overlay(log), c);
  }

  lemma CommitsMeta(p: Pager, log: Log)
    requires p.Valid() && p.Syncing() && CommitEnd(log) <= CommitEnd(p.wal.safe)
    requires forall k | 0 <= k < CommitEnd(log) :: log.slots[k] == p.wal.safe.slots[k]
    ensures Overlay(log) != map[] ==> 0 in Overlay(log)
  {
    var r := CommitEnd(log);
    LatestIs(log.slots, r);
    if r == 0 {
      LatestNone(log.slots);
    } else {
      SafeHolds(p);
      SessionForeign(p.wal.safe, p.wal.queue, p.wal.generation, p.wal.commitEnd);
      LastCommitIs(log.slots, ScanEnd(log.slots, log.header.value, 0));
      hide ScanEnd, LastCommit, SessionOf, Pager.Valid, Foreign;
      assert IsCommit(log.slots[r - 1]) && Typed(p.wal.safe.slots[r - 1]);
      assert log.slots[r - 1].id == 0;
    }
  }

  /** With nothing of the file unsynced, what is left is what is left of the log. */
  lemma AnyFiles(s: Store, gen: nat)
    requires s.dbQueue == []
    ensures (forall d | AnyPowerLeaves(s, d) :: KeepsOld(s.logSafe, gen, d.log) || Kept(d.log) == Kept(RunLog(s.logSafe, s.logQueue))) <==>
            Atomic(s.logSafe, gen, s.logQueue)
    ensures (forall d | AnyPowerLeaves(s, d) :: Tidy(d.log)) <==> forall log | AnyLog(s.logSafe, s.logQueue, log) :: Tidy(log)
  {
    hide AnyLog, KeepsOld, Kept, RunLog, Tidy;
    forall log | AnyLog(s.logSafe, s.logQueue, log) ensures AnyPowerLeaves(s, Files(s.dbSafe, log)) {}
    assert forall log :: Files(s.dbSafe, log).log == log;
  }

  lemma AfterCommitted(p: Pager, s: Store)
    requires p.Valid() && p.Files() == Synced(s) && s.dbQueue == []
    ensures |p.history| > 0 && Recovers(Files(s.dbSafe, LogNow(s)), p.Committed())
    ensures forall d | AnyPowerLeaves(p.Files(), d) :: Recovers(d, p.Committed())
  {
    RestingRecovers(p.Files(), p.history, p.wal.Committed(), p.promise);
    SyncedCut(p.Files(), p.Committed());
  }

  lemma NewFinds(d: Files, s: Store, c: Contents)
    requires AnyPowerLeaves(s, d) && s.dbQueue == [] && Kept(d.log) == Kept(LogNow(s)) && Recovers(Files(s.dbSafe, LogNow(s)), c)
    ensures Finds(d, c)
  {
    KeptOverlay(d.log, LogNow(s));
    assert d.db == s.dbSafe;
    hide AnyLog, Overlay, Tidy, Holds, Found, LogNow;
    RecoversFinds(Files(s.dbSafe, LogNow(s)), c);
  }

  lemma SyncedCut(s: Store, c: Contents)
    requires s.dbQueue == [] && s.logQueue == [] && Recovers(Files(s.dbSafe, s.logSafe), c)
    ensures forall d | AnyPowerLeaves(s, d) :: Recovers(d, c)
  {
    forall d | AnyPowerLeaves(s, d) ensures Recovers(d, c) { assert d == Files(s.dbSafe, s.logSafe); }
  }

  // ---- what makes a commit safe, write by write ----

  function CommitFrame(w: Wal, meta: Meta): seq<LogWrite> reads w {
    FrameWrites(w.headerOk, w.generation, w.end, Frame(0, w.generation, true, MetaImage(meta)))
  }

  /** Should the transaction be committed now, whatever of the unsynced writes survive, the
      old commits or the new are kept. */
  ghost predicate CommitAtomic(w: Wal, meta: Meta) reads w { Atomic(w.safe, w.generation, w.queue + CommitFrame(w, meta)) }

  /** And what is left can be gone on from. */
  ghost predicate CommitTidy(w: Wal, meta: Meta) reads w {
    forall log | AnyLog(w.safe, w.queue + CommitFrame(w, meta), log) :: Tidy(log)
  }

  ghost predicate OwnHeader(w: Wal) reads w { OneHeader(w.safe, w.queue, w.generation) }
  ghost predicate OwnSlots(w: Wal) reads w { OneFrameEach(w.safe, w.queue, w.generation, w.commitEnd, w.end) }
  ghost predicate Agreeing(w: Wal) reads w { PrefixesAgree(w.safe, w.queue) }

  /** A commit of the log is atomic if and only if no slot written over, nor the next one,
      separates two versions of a page in the synced log, and each slot of the transaction
      can hold no other frame of the generation; and tidy if and only if no older header
      can be left. */
  lemma AtomicIff(w: Wal, meta: Meta)
    requires w.Valid() && w.Session()
    ensures CommitAtomic(w, meta) <==> Agreeing(w) && AgreesAt(w.safe, w.end) && OwnSlots(w)
    ensures CommitTidy(w, meta) <==> OwnHeader(w)
  {
    var all := w.queue + CommitFrame(w, meta);
    assert Committing(w.safe, w.queue, w.headerOk, w.generation, w.commitEnd, w.end, meta, all);
    hide Atomic, OneHeader, OneFrameEach, Committing, AgreesAt, AnyLog, Tidy;
    CommitAnyOrder(w.safe, w.queue, w.headerOk, w.generation, w.commitEnd, w.end, meta, all);
    TidyAnyOrder(w.safe, w.queue, w.headerOk, w.generation, w.commitEnd, w.end, meta, all);
    AgreeAfter(w.safe, w.queue, w.headerOk, w.generation, w.end, Frame(0, w.generation, true, MetaImage(meta)));
  }

  lemma AgreeAfter(safe: Log, q: seq<LogWrite>, headerOk: bool, gen: nat, slot: nat, f: Slot)
    ensures PrefixesAgree(safe, q + FrameWrites(headerOk, gen, slot, f)) <==> PrefixesAgree(safe, q) && AgreesAt(safe, slot)
  {
    var ws := FrameWrites(headerOk, gen, slot, f);
    assert ws == if headerOk then [PutSlot(slot, f)] else [PutHeader(gen), PutSlot(slot, f)];
    assert forall w :: w in q + ws <==> w in q || w in ws;
    hide AgreesAt;
    assert PutSlot(slot, f) in q + ws;
    forall k: nat ensures Touched(q + ws, k) <==> Touched(q, k) || k == slot {
      if Touched(q, k) { var x :| PutSlot(k, x) in q; assert PutSlot(k, x) in q + ws; }
    }
  }

  /** Nothing but `f` of the generation can be in slot `k`. */
  ghost predicate OnlyThis(w: Wal, k: nat, f: Slot) reads w {
    forall x | MayHold(w.safe, w.queue, k, x) && ValidFrame(x, w.generation) :: x == f
  }

  function FrameOf(w: Wal, id: PageId, page: Page): Slot reads w { Frame(id, w.generation, false, PageImage(page)) }

  /** A page written keeps the commit to come safe if and only if its slot can hold no
      other frame of the generation, not one a rollback left, and not an earlier version;
      and separates no two versions of a page in the synced log. */
  method WriteInAnyOrder(w: Wal, id: PageId, page: Page)
    requires w.Valid() && w.Session() && id != 0
    modifies w
    ensures w.Valid() && w.Session() && w.generation == old(w.generation) && w.commitEnd == old(w.commitEnd) && w.safe == old(w.safe)
    ensures w.end == if id in old(w.pending) then old(w.end) else old(w.end) + 1
    ensures w.pending == old(w.pending)[id := SlotFor(old(w.pending), old(w.end), id)]
    ensures OwnSlots(w) <==> old(OwnSlots(w)) && old(OnlyThis(w, SlotFor(w.pending, w.end, id), FrameOf(w, id, page)))
    ensures Agreeing(w) <==> old(Agreeing(w)) && AgreesAt(w.safe, SlotFor(old(w.pending), old(w.end), id))
    ensures OwnHeader(w) <==> old(OwnHeader(w))
    ensures w.queue == old(w.queue) + FrameWrites(old(w.headerOk), w.generation, SlotFor(old(w.pending), old(w.end), id), FrameOf(w, id, page))
  {
    hide Indexed, SessionOf, OneFrameEach, MayHold, LogIs, Harmless, OneHeader, FrameWrites, RunLog, PrefixesAgree, AgreesAt;
    WriteStepOrder(w, id, page);
    AgreeAfter(w.safe, w.queue, w.headerOk, w.generation, SlotFor(w.pending, w.end, id), FrameOf(w, id, page));
    ghost var ws := w.Write(id, page);
  }

  lemma WriteStepOrder(w: Wal, id: PageId, page: Page)
    requires w.Valid() && w.Session() && id != 0
    ensures var slot, f := SlotFor(w.pending, w.end, id), FrameOf(w, id, page);
            var q', e' := w.queue + FrameWrites(w.headerOk, w.generation, slot, f), if id in w.pending then w.end else w.end + 1;
            && (OneFrameEach(w.safe, q', w.generation, w.commitEnd, e') <==> OwnSlots(w) && OnlyThis(w, slot, f))
            && (OneHeader(w.safe, q', w.generation) <==> OwnHeader(w))
  {
    var slot, f := SlotFor(w.pending, w.end, id), FrameOf(w, id, page);
    NoTruncate(w.safe, w.queue, w.generation, w.commitEnd);
    PendingSlot(w.Now().slots, w.generation, w.commitEnd, w.end, w.pending, id);
    assert slot < w.end ==> ValidFrame(SlotAt(RunLog(w.safe, w.queue), slot), w.generation);
    assert w.commitEnd <= slot <= w.end && (slot == w.end <==> id !in w.pending);
    hide Wal.Valid, Wal.Session, MayHold, OneFrameEach, RunLog, SlotAt;
    OneFrameStep(w.safe, w.queue, w.headerOk, w.generation, w.commitEnd, w.end, slot, f);
    HeadersAfter(w.safe, w.queue, w.headerOk, w.generation, slot, f);
  }

  lemma HeadersAfter(safe: Log, q: seq<LogWrite>, headerOk: bool, gen: nat, slot: nat, f: Slot)
    ensures OneHeader(safe, q + FrameWrites(headerOk, gen, slot, f), gen) <==> OneHeader(safe, q, gen)
    ensures forall i: nat, x :: MayHold(safe, q + FrameWrites(headerOk, gen, slot, f), i, x) <==> MayHold(safe, q, i, x) || (i == slot && x == f)
  {
    var ws := FrameWrites(headerOk, gen, slot, f);
    var q' := q + ws;
    assert forall w :: w in q' <==> w in q || w in ws;
    assert ws == if headerOk then [PutSlot(slot, f)] else [PutHeader(gen), PutSlot(slot, f)];
    assert forall g: nat :: MayHead(safe, q', g) <==> MayHead(safe, q, g) || (!headerOk && g == gen);
    hide MayHead;
    if OneHeader(safe, q', gen) { forall g: nat | MayHead(safe, q, g) ensures g == gen { assert MayHead(safe, q', g); } }
  }

  /** No slot from `k` on can hold a frame of the generation. */
  ghost predicate Unused(w: Wal, k: nat) reads w {
    forall i: nat, x | k <= i && MayHold(w.safe, w.queue, i, x) :: !ValidFrame(x, w.generation)
  }

  /** A transaction that writes every page once, in slots no transaction rolled back has
      used and that separate no two versions of a page in the synced log, commits atomically
      even so: under a header that is synced, or the first, or over a log of one commit. */
  method WriteOnce(w: Wal, pages: seq<(PageId, Page)>, ghost meta: Meta)
    requires w.Valid() && w.Session() && w.pending == map[] && w.end == w.commitEnd && Unused(w, w.end)
    requires Agreeing(w) && forall k | w.end <= k <= w.end + |pages| :: AgreesAt(w.safe, k)
    requires forall i | 0 <= i < |pages| :: pages[i].0 != 0
    requires forall i, j | 0 <= i < j < |pages| :: pages[i].0 != pages[j].0
    modifies w
    ensures w.Valid() && w.Session() && w.end == old(w.end) + |pages| && CommitAtomic(w, meta)
    ensures CommitTidy(w, meta) <==> old(OwnHeader(w))
  {
    hide Indexed, SessionOf, OneHeader, FrameWrites, PrefixesAgree, AgreesAt;
    assert OwnSlots(w);
    hide MayHold, OneFrameEach;
    for i := 0 to |pages|
      invariant w.Valid() && w.Session() && OwnSlots(w) && Unused(w, w.end) && w.end == old(w.end) + i && w.safe == old(w.safe)
      invariant Agreeing(w) && (OwnHeader(w) <==> old(OwnHeader(w)))
      invariant forall id | id in w.pending :: exists j :: 0 <= j < i && pages[j].0 == id
    {
      UnusedNext(w, pages[i].0, pages[i].1);
      WriteInAnyOrder(w, pages[i].0, pages[i].1);
    }
    AtomicIff(w, meta);
  }

  lemma UnusedNext(w: Wal, id: PageId, page: Page)
    requires Unused(w, w.end) && id !in w.pending
    ensures OnlyThis(w, w.end, FrameOf(w, id, page))
    ensures var q' := w.queue + FrameWrites(w.headerOk, w.generation, w.end, FrameOf(w, id, page));
            forall i: nat, x | w.end + 1 <= i && MayHold(w.safe, q', i, x) :: !ValidFrame(x, w.generation)
  {
    HeadersAfter(w.safe, w.queue, w.headerOk, w.generation, w.end, FrameOf(w, id, page));
    hide MayHold;
  }

  // ---- runs after which it is not safe ----

  /** A cut with the commit frame and another frame of one slot: what is redone then was
      never committed. */
  ghost predicate RedoesOther(w: Wal, meta: Meta, k: nat, f: Slot, log: Log)
    reads w
  {
    && AnyLog(w.safe, w.queue + CommitFrame(w, meta), log) && k < CommitEnd(log) && log.slots[k] == f
    && !KeepsOld(w.safe, w.generation, log) && Kept(log) != Kept(RunLog(w.safe, w.queue + CommitFrame(w, meta)))
  }

  lemma OtherRedone(w: Wal, meta: Meta, k: nat, f: Slot) returns (log: Log)
    requires w.Valid() && w.Session() && w.commitEnd <= k < w.end
    requires MayHold(w.safe, w.queue, k, f) && ValidFrame(f, w.generation) && f != SlotAt(w.Now(), k)
    ensures RedoesOther(w, meta, k, f, log)
  {
    log := OtherFrame(w.safe, w.queue, w.headerOk, w.generation, w.commitEnd, w.end, meta, w.queue + CommitFrame(w, meta), k, f);
  }

  /** A new log, ready to be written. */
  method NewLog() returns (w: Wal)
    ensures fresh(w) && w.Valid() && w.Session() && w.pending == map[] && w.end == w.commitEnd == 0 && w.generation == 7
    ensures w.safe == Log(None, []) && w.queue == [] && !w.headerOk
  {
    w := new Wal(Log(None, []), [], 7);
    var found, transactions := w.Recover();
    LatestNone([]);
  }

  /** A page written twice in a transaction: its first version may be what is redone. */
  method RewrittenSlot(first: Page, second: Page, ghost meta: Meta) returns (w: Wal, ghost log: Log)
    requires first != second
    ensures w.Valid() && w.Session() && w.Written() == map[1 := PageImage(second)]
    ensures RedoesOther(w, meta, 0, Frame(1, 7, false, PageImage(first)), log)
  {
    w := NewLog();
    TwoInOneSlot(w, 1, first, 1, second, false);
    log := OtherRedone(w, meta, 0, Frame(1, 7, false, PageImage(first)));
  }

  /** A transaction rolled back, and another: the first one's page may be redone with the
      second one's commit. */
  method RolledBackSlot(first: Page, second: Page, ghost meta: Meta) returns (w: Wal, ghost log: Log)
    ensures w.Valid() && w.Session() && w.Written() == map[2 := PageImage(second)]
    ensures RedoesOther(w, meta, 0, Frame(1, 7, false, PageImage(first)), log)
  {
    w := NewLog();
    TwoInOneSlot(w, 1, first, 2, second, true);
    log := OtherRedone(w, meta, 0, Frame(1, 7, false, PageImage(first)));
  }

  method TwoInOneSlot(w: Wal, id: PageId, first: Page, id': PageId, second: Page, rollback: bool)
    requires w.Valid() && w.Session() && w.pending == map[] && w.end == w.commitEnd == 0 && id != 0 && id' != 0
    requires rollback || id == id'
    modifies w
    ensures w.Valid() && w.Session() && w.generation == old(w.generation) && w.commitEnd == 0 && w.end == 1
    ensures w.Written() == map[id' := PageImage(second)]
    ensures MayHold(w.safe, w.queue, 0, FrameOf(w, id, first)) && SlotAt(w.Now(), 0) == FrameOf(w, id', second)
  {
    hide Wal.Valid, Wal.Session, Wal.Committed, LogIs, Harmless, RunLog;
    assert w.Written() == map[];
    FirstWrite(w, id, first);
    if rollback { w.Rollback(); }
    FrameNow(w.safe, w.queue, w.headerOk, w.generation, 0, FrameOf(w, id', second));
    assert PutSlot(0, FrameOf(w, id, first)) in w.queue;
    ghost var q := w.queue + FrameWrites(w.headerOk, w.generation, 0, FrameOf(w, id', second));
    assert SlotAt(RunLog(w.safe, q), 0) == FrameOf(w, id', second) && SlotFor(w.pending, w.end, id') == 0;
    ghost var ws := w.Write(id', second);
    assert w.queue == q && w.Now() == RunLog(w.safe, q);
    assert PutSlot(0, FrameOf(w, id, first)) in w.queue;
  }

  method FirstWrite(w: Wal, id: PageId, page: Page)
    requires w.Valid() && w.Session() && w.pending == map[] && w.end == w.commitEnd == 0 && id != 0
    modifies w
    ensures w.Valid() && w.Session() && w.generation == old(w.generation) && w.commitEnd == 0 && w.end == 1
    ensures w.pending == map[id := 0] && w.Written() == map[id := PageImage(page)]
    ensures w.queue == old(w.queue) + FrameWrites(old(w.headerOk), w.generation, 0, FrameOf(w, id, page))
    ensures PutSlot(0, FrameOf(w, id, page)) in w.queue && w.safe == old(w.safe) && w.headerOk
  {
    hide Wal.Valid, Wal.Session, Wal.Committed, LogIs, Harmless, RunLog;
    assert w.Written() == map[];
    ghost var ws := w.Write(id, page);
  }

  /** The first commit after a log is begun anew, the header not synced: the commit is
      atomic, but the old header may be left with the commit frame alone. */
  method UnsyncedHeader(page: Page, ghost meta: Meta) returns (w: Wal, ghost log: Log)
    ensures w.Valid() && w.Session() && w.safe == Log(Some(7), []) && w.Written() == map[1 := PageImage(page)]
    ensures AnyLog(w.safe, w.queue + CommitFrame(w, meta), log) && log == Leftover(meta)
    ensures CommitAtomic(w, meta) && !Tidy(log) && !CommitTidy(w, meta)
  {
    hide Wal.Valid, Wal.Session, Wal.Committed, LogIs, Harmless, RunLog, CommitAtomic, AnyLog;
    w := BegunLog();
    FirstWrite(w, 1, page);
    assert w.queue == [PutHeader(8), PutSlot(0, Frame(1, 8, false, PageImage(page)))];
    log := Leftover(meta);
    LeftoverIsCut(page, meta);
    assert w.queue + CommitFrame(w, meta) == BegunWrites(page, meta);
    assert IsCommit(log.slots[1]) && !Tidy(log);
    BegunFirst(page);
    AtomicIff(w, meta);
  }

  lemma BegunFirst(page: Page)
    ensures var safe, q := Log(Some(7), []), [PutHeader(8), PutSlot(0, Frame(1, 8, false, PageImage(page)))];
            CommitEnd(safe) == 0 && PrefixesAgree(safe, q) && AgreesAt(safe, 1) && OneFrameEach(safe, q, 8, 0, 1)
  {
    var safe, q, f := Log(Some(7), []), [PutHeader(8), PutSlot(0, Frame(1, 8, false, PageImage(page)))], Frame(1, 8, false, PageImage(page));
    FrameNow(safe, [PutHeader(8)], true, 8, 0, f);
    assert FrameWrites(true, 8, 0, f) == [PutSlot(0, f)];
    assert [PutHeader(8)] + [PutSlot(0, f)] == q;
    hide RunLog;
    assert SlotAt(RunLog(safe, q), 0) == f;
    forall k: nat, x | MayHold(safe, q, k, x) && 0 <= k < 1 ensures x == f { assert PutSlot(k, x) in q; }
  }

  /** A log found with a header and no frames, and begun anew. */
  method BegunLog() returns (w: Wal)
    ensures fresh(w) && w.Valid() && w.Session() && w.pending == map[] && w.end == w.commitEnd == 0 && w.generation == 8
    ensures w.safe == Log(Some(7), []) && w.queue == [PutHeader(8)] && w.headerOk
  {
    hide CommitsBefore, Indexed, SessionOf, LogIs, IndexedFound;
    EmptyLog();
    w := new Wal(Log(Some(7), []), [], 8);
    var found, transactions := w.Recover();
    ghost var put := w.Reset();
    assert w.Written() == map[];
  }

  lemma EmptyLog()
    ensures RunLog(Log(Some(7), []), []) == Log(Some(7), []) && CommitsBefore(Log(Some(7), []), 8)
  {
  }

  function BegunWrites(page: Page, meta: Meta): seq<LogWrite> {
    [PutHeader(8), PutSlot(0, Frame(1, 8, false, PageImage(page))), PutSlot(1, Frame(0, 8, true, MetaImage(meta)))]
  }

  function Leftover(meta: Meta): Log { Log(Some(7), [Junk, Frame(0, 8, true, MetaImage(meta))]) }

  lemma LeftoverIsCut(page: Page, meta: Meta)
    ensures AnyLog(Log(Some(7), []), BegunWrites(page, meta), Leftover(meta))
  {
    var safe, q := Log(Some(7), []), BegunWrites(page, meta);
    assert q[..2][..1] == q[..1] && q[..1][..0] == [];
    assert AnyLog(safe, [], safe);
    assert AnyLog(safe, q[..1], safe);
    assert AnyLog(safe, q[..2], safe);
    assert ApplyLog(safe, q[2]) == Leftover(meta);
  }

  /** What comes of it. The next process finds the log committing nothing, begins it anew
      under the same generation, and writes a page; dying then, it leaves that page committed,
      by a commit that was never acknowledged and with another transaction's meta page. */
  method LeftoverCommits(meta: Meta, other: Page) returns (w: Wal)
    ensures fresh(w) && w.pending == map[2 := 0] && w.committed == map[]
    ensures w.safe == Leftover(meta) && w.queue == [PutHeader(8), PutSlot(0, Frame(2, 8, false, PageImage(other)))]
    ensures Overlay(w.Now()) == map[0 := MetaImage(meta), 2 := PageImage(other)]
  {
    LeftoverScan(meta, other);
    hide RunLog, ScanEnd, LastCommit, Latest, Overlay, CommitsBefore;
    w := new Wal(Leftover(meta), [], 9);
    var found, transactions := w.ScanLog();
    ghost var put := w.Begin();
    ghost var ws := w.PutPage(2, other);
    assert w.queue == [PutHeader(8), PutSlot(0, Frame(2, 8, false, PageImage(other)))];
    assert w.pending == map[][2 := 0];
  }

  lemma LeftoverScan(meta: Meta, other: Page)
    ensures RunLog(Leftover(meta), []) == Leftover(meta) && CommitsBefore(Leftover(meta), 9)
    ensures LastCommit(Leftover(meta).slots, ScanEnd(Leftover(meta).slots, 7, 0)) == 0
    ensures var next := RunLog(Leftover(meta), [PutHeader(8), PutSlot(0, Frame(2, 8, false, PageImage(other)))]);
            Overlay(next) == map[0 := MetaImage(meta), 2 := PageImage(other)]
  {
    var found, f := Leftover(meta), Frame(2, 8, false, PageImage(other));
    hide Overlay, CommitEnd;
    assert [PutHeader(8), PutSlot(0, f)][..1] == [PutHeader(8)] && [PutHeader(8)][..0] == [];
    assert RunLog(found, [PutHeader(8)]) == found.(header := Some(8));
    assert RunLog(found, [PutHeader(8), PutSlot(0, f)]).slots == [f, Frame(0, 8, true, MetaImage(meta))];
    TwoFrames(meta, other);
  }

  lemma TwoFrames(meta: Meta, other: Page)
    ensures Overlay(Log(Some(8), [Frame(2, 8, false, PageImage(other)), Frame(0, 8, true, MetaImage(meta))]))
            == map[0 := MetaImage(meta), 2 := PageImage(other)]
  {
    var slots := [Frame(2, 8, false, PageImage(other)), Frame(0, 8, true, MetaImage(meta))];
    assert ScanEnd(slots, 8, 1) == 2;
    assert CommitEnd(Log(Some(8), slots)) == 2;
    assert Latest(slots, 0) == map[];
    assert Latest(slots, 1) == map[2 := 0];
    assert Latest(slots, 2) == map[2 := 0, 0 := 1];
  }
}
