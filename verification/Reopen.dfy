/** The crash guarantees of a whole run, when what is left of it survives the next one,
    and a run after which it does not. */
module Reopen {
  import opened Wrappers
  import opened Disk
  import opened Recovery
  import opened Crash
  import opened Redoing
  import opened PageStore

  /** Whatever a session did, and wherever the process died (the write in
      progress whole, torn or lost), opening the files again yields the last
      acknowledged commit or the one in flight. The new session is as good as
      the old one: its own recovery may die, at any write, any number of times. */
  method AfterDeath(p: Pager, ghost m: Moment, dbSafe: seq<Block>, dbQueue: seq<DbWrite>,
                    logSafe: Log, logQueue: seq<LogWrite>, drawn: nat, durability: Durability)
      returns (q: Pager, ghost k: nat)
    requires p.Valid() && m in p.trace
    requires DeathLeaves(m, Files(RunDb(dbSafe, dbQueue), RunLog(logSafe, logQueue)))
    requires CommitsBefore(RunLog(logSafe, logQueue), drawn)
    ensures q.Valid() && fresh(q) && !q.InTransaction()
    ensures m.acked <= k <= m.issued <= m.acked + 1 && k < |p.history|
    ensures q.Current() == p.history[k] && q.history == [p.history[k]]
  {
    hide DeathLeaves, Recovers, CommitsBefore, PowerSafe, Resting, RunLog, RunDb, Issued, ContentsOf, Durable, RecoveryTrace;
    var d: Files := Files(RunDb(dbSafe, dbQueue), RunLog(logSafe, logQueue));
    assert MomentSafe(m, p.history, p.promise);
    assert Allowed(p.history, m.acked, m.issued, d);
    k :| m.acked <= k <= m.issued && k < |p.history| && Recovers(d, p.history[k]);
    q := new Pager(dbSafe, dbQueue, logSafe, logQueue, drawn, durability, p.history[k]);
  }

  /** A power cut: both files are what survived, and nothing in them is unsynced.
      Under Full no acknowledged commit is lost; under Normal what is left is
      some earlier commit, whole. */
  method AfterPowerCut(p: Pager, ghost m: Moment, db: seq<Block>, log: Log, drawn: nat, durability: Durability)
      returns (q: Pager, ghost k: nat)
    requires p.Valid() && m in p.trace && p.promise != Nothing
    requires PowerLeaves(Issued(m), Files(db, log)) && CommitsBefore(log, drawn)
    ensures q.Valid() && fresh(q) && !q.InTransaction()
    ensures Floor(p.promise, m.acked) <= k <= m.issued <= m.acked + 1 && k < |p.history|
    ensures p.durability.Full? ==> m.acked <= k
    ensures q.Current() == p.history[k]
    ensures q.promise == match durability case Full => Everything case Normal => SomePrefix case Off => Nothing
  {
    hide DeathLeaves, PowerLeaves, Recovers, CommitsBefore, Resting, Issued, ContentsOf, PromiseOf, Durable, RecoveryTrace;
    var d: Files := Files(db, log);
    assert MomentSafe(m, p.history, p.promise);
    assert Allowed(p.history, Floor(p.promise, m.acked), m.issued, d);
    k :| Floor(p.promise, m.acked) <= k <= m.issued && k < |p.history| && Recovers(d, p.history[k]);
    SyncedIsDurable(db, log, p.history[k]);
    q := new Pager(db, [], log, [], drawn, durability, p.history[k]);
  }

  /** A process that promised everything dies with no commit in flight: idle, in the middle
      of a transaction, of a checkpoint, of its own recovery. The next one finds the last
      commit, and finds it durable: it may promise as much. */
  method AfterQuietDeath(p: Pager, ghost m: Moment, dbSafe: seq<Block>, dbQueue: seq<DbWrite>,
                         logSafe: Log, logQueue: seq<LogWrite>, drawn: nat, durability: Durability)
      returns (q: Pager)
    requires p.Valid() && m in p.trace && p.durability.Full? && p.promise != Nothing && m.acked == m.issued
    requires Store(dbSafe, dbQueue, logSafe, logQueue) == Issued(m) && CommitsBefore(RunLog(logSafe, logQueue), drawn)
    ensures q.Valid() && fresh(q) && !q.InTransaction()
    ensures m.acked < |p.history| && q.Current() == p.history[m.acked]
    ensures q.promise == match durability case Full => Everything case Normal => SomePrefix case Off => Nothing
  {
    hide DeathLeaves, Recovers, CommitsBefore, PowerSafe, Resting, Issued, ContentsOf, PromiseOf, RecoveryTrace;
    ghost var s := Issued(m);
    assert MomentSafe(m, p.history, p.promise);
    ghost var c := p.history[m.acked];
    DurableRecovers(s, c);
    q := new Pager(dbSafe, dbQueue, logSafe, logQueue, drawn, durability, c);
  }

  lemma DurableRecovers(s: Store, c: Contents)
    requires Durable(s, c)
    ensures Recovers(Files(DbNow(s), LogNow(s)), c)
  {
    NowIsCut(s);
    var ov := Overlay(LogNow(s));
    hide Holds, Overlay, Tidy, DbNow, LogNow, DbCut, LogCut;
    if ov == map[] {
      assert PowerLeaves(s, Files(DbNow(s), LogNow(s)));
      assert Allowed([c], 0, 0, Files(DbNow(s), LogNow(s)));
    }
  }

  /** Opening files with unsynced writes in them: a power cut at any moment of the recovery
      leaves one of the contents `h` if and only if one before it did, and every block to be
      copied is sheltered by whatever part of the log may be left. So where one before it
      left only commits, nothing more is lost, if and only if all is sheltered. If the meta
      page is not, what is left may not even open. */
  method OpenFound(dbSafe: seq<Block>, dbQueue: seq<DbWrite>, logSafe: Log, logQueue: seq<LogWrite>,
                   drawn: nat, durability: Durability, ghost c: Contents) returns (q: Pager)
    requires Recovers(Files(RunDb(dbSafe, dbQueue), RunLog(logSafe, logQueue)), c)
    requires CommitsBefore(RunLog(logSafe, logQueue), drawn)
    ensures q.Valid() && fresh(q) && q.Current() == c
    ensures Starts(q.trace, Store(dbSafe, dbQueue, logSafe, logQueue))
    ensures var s := Store(dbSafe, dbQueue, logSafe, logQueue);
            forall h: seq<Contents> :: Survives(q.trace, h) <==> AlwaysFinds(s, h) && AllSheltered(s, Overlay(LogNow(s)))
    ensures var s := Store(dbSafe, dbQueue, logSafe, logQueue);
            (exists h: seq<Contents> :: AlwaysFinds(s, h)) ==> (FindsNothingNew(q.trace, s) <==> AllSheltered(s, Overlay(LogNow(s))))
    ensures var s := Store(dbSafe, dbQueue, logSafe, logQueue);
            MetaExposed(s, Overlay(LogNow(s))) ==> exists m, d :: m in q.trace && PowerLeaves(Issued(m), d) && Refused(d)
  {
    hide Holds, RunLog, RunDb, Resting, ContentsOf, Durable, RecoveryTrace, Overlay, PagesOf, CommitsBefore, Survives, AllSheltered, AlwaysFinds, FindsNothingNew, MetaExposed, Refused, PowerLeaves;
    q := new Pager(dbSafe, dbQueue, logSafe, logQueue, drawn, durability, c);
    ghost var s := Store(dbSafe, dbQueue, logSafe, logQueue);
    ghost var ov := Overlay(LogNow(s));
    ghost var ids :| PagesOf(ov, ids) && q.trace == RecoveryTrace(s, ov, ids, c.meta.pageCount, q.wal.generation);
    NextGeneration(LogNow(s), drawn, q.wal.generation);
    forall h: seq<Contents> ensures Survives(q.trace, h) <==> AlwaysFinds(s, h) && AllSheltered(s, ov) {
      RecoverySurvives(s, ov, ids, c, q.wal.generation, h);
    }
    forall h: seq<Contents> | AlwaysFinds(s, h) ensures FindsNothingNew(q.trace, s) <==> AllSheltered(s, ov) {
      RecoveryLosesNothing(s, ov, ids, c, q.wal.generation, h);
    }
    if MetaExposed(s, ov) { ghost var m, d := MetaLost(s, ov, ids, c, q.wal.generation); }
    StartsWith(s, ov, ids, c.meta.pageCount, q.wal.generation);
  }

  /** The first moment of these is the files `s`, found. */
  ghost predicate Starts(trace: seq<Moment>, s: Store) { trace != [] && trace[0] == Moment(s, None, 0, 0) }

  lemma StartsWith(s: Store, ov: map<PageId, Image>, ids: seq<PageId>, n: nat, gen: nat)
    ensures Starts(RecoveryTrace(s, ov, ids, n, gen), s)
  {
    hide CopyTrace, Redone;
  }

  lemma NextGeneration(log: Log, drawn: nat, gen: nat)
    requires CommitsBefore(log, drawn) && Tidy(log)
    requires log.header.None? ==> gen == drawn
    requires log.header.Some? ==> gen == log.header.value + 1
    ensures CommitsBefore(log, gen)
  {
  }

  /** A run: a new database under Normal, one page written and committed. */
  method CommitUnsynced(page: Page, meta: Meta) returns (p: Pager)
    requires page.id == 1 && meta == Meta(1, 0, 0, 0, 0)
    ensures p.Valid() && fresh(p) && fresh(p.wal)
    ensures p.Current() == p.Committed() == Contents(Meta(2, 0, 0, 0, 0), map[1 := page])
    ensures p.dbSafe == [MetaImage(meta)] && p.dbQueue == [] && p.wal.safe == Log(None, []) && p.promise.SomePrefix?
  {
    hide Recovers, RunLog, RunDb, Resting, ContentsOf, Durable, RecoveryTrace, Overlay, CommitsBefore, PagesOf, Pager.Valid;
    var db, log := [MetaImage(meta)], Log(None, []);
    NewDatabase(meta);
    SyncedIsDurable(db, log, Contents(meta, map[]));
    p := new Pager(db, [], log, [], 7, Normal, Contents(meta, map[]));
    FirstPage(p, page);
  }

  method FirstPage(p: Pager, page: Page)
    requires p.Valid() && p.durability.Normal? && page.id == 1 && p.checkpointFrames == 1000 && p.wal.end == 0
    requires p.Current() == Contents(Meta(1, 0, 0, 0, 0), map[])
    modifies p, p.wal
    ensures p.Valid() && p.Current() == p.Committed() == Contents(Meta(2, 0, 0, 0, 0), map[1 := page])
    ensures p.dbSafe == old(p.dbSafe) && p.dbQueue == old(p.dbQueue) && p.wal.safe == old(p.wal.safe)
  {
    hide ContentsOf, FrameWrites, Pager.Valid, Pager.CommitTrace;
    WriteFirst(p, page);
    p.Commit();
  }

  method WriteFirst(p: Pager, page: Page)
    requires p.Valid() && page.id == 1 && p.Current() == Contents(Meta(1, 0, 0, 0, 0), map[])
    modifies p`meta, p`metaDirty, p`trace, p.wal
    ensures p.Valid() && p.InTransaction() && p.Current() == Contents(Meta(2, 0, 0, 0, 0), map[1 := page])
    ensures p.wal.safe == old(p.wal.safe) && p.wal.end <= old(p.wal.end) + 1
  {
    hide ContentsOf, Pager.Valid;
    p.PagesInRange();
    var id := p.AllocatePage();
    p.PagesInRange();
    p.WritePage(1, page);
    assert p.Current().pages == map[1 := page];
  }

  /** Then the process dies; and while the next one copies the commit, which nobody
      synced, the power fails. Nothing at all can be recovered. */
  method DeathThenPowerCut(page: Page) returns (p: Pager, q: Pager, ghost m: Moment, ghost d: Files)
    requires page.id == 1
    ensures p.Valid() && p.promise.SomePrefix? && p.Committed() == Contents(Meta(2, 0, 0, 0, 0), map[1 := page])
    ensures q.Valid() && q.Current() == p.Committed() && Starts(q.trace, p.Files())
    ensures m in q.trace && PowerLeaves(Issued(m), d) && Refused(d)
  {
    hide Recovers, RunLog, RunDb, Resting, ContentsOf, CommitsBefore, PowerLeaves, Starts, Survives, AllSheltered, AlwaysFinds, FindsNothingNew, Overlay, LogNow, DbNow, MetaExposed, Refused;
    var meta := Meta(1, 0, 0, 0, 0);
    p := CommitUnsynced(page, meta);
    ghost var c := p.Committed();
    RestingRecovers(p.Files(), p.history, p.wal.Committed(), p.promise);
    DrawnFor(p);
    FoundNow(p);
    q := OpenFound(p.dbSafe, p.dbQueue, p.wal.safe, p.wal.queue, p.wal.generation + 1, Full, c);
    LostCommit(p.Files(), c, meta);
    m, d :| m in q.trace && PowerLeaves(Issued(m), d) && Refused(d);
  }

  lemma FoundNow(p: Pager)
    ensures DbNow(p.Files()) == RunDb(p.dbSafe, p.dbQueue) && LogNow(p.Files()) == RunLog(p.wal.safe, p.wal.queue) == p.wal.Now()
  {
  }

  lemma NewDatabase(meta: Meta)
    requires meta.pageCount == 1
    ensures var db, log := RunDb([MetaImage(meta)], []), RunLog(Log(None, []), []);
            && Recovers(Files(db, log), Contents(meta, map[])) && CommitsBefore(log, 7) && log == Log(None, []) && db == [MetaImage(meta)]
  {
    NothingCommitted(Log(None, []));
  }

  lemma DrawnFor(p: Pager)
    requires p.Valid()
    ensures CommitsBefore(p.wal.Now(), p.wal.generation + 1)
  {
  }

  /** The unsynced commit may be lost from the log whole, and the meta page is not yet in
      the file. */
  lemma LostCommit(s: Store, c: Contents, meta: Meta)
    requires s.dbSafe == [MetaImage(meta)] && s.dbQueue == [] && s.logSafe == Log(None, [])
    requires Recovers(Files(DbNow(s), LogNow(s)), c) && meta != c.meta
    ensures MetaExposed(s, Overlay(LogNow(s)))
  {
    hide Tidy;
    NothingCommitted(s.logSafe);
    var ov := Overlay(LogNow(s));
    hide Overlay, LogNow;
    assert LogCut(s, 0, s.logSafe) by { assert s.logQueue[..0] == []; }
    assert 0 in ov && ov[0] == MetaImage(c.meta);
    assert !Same(DbNow(s), 0, ov[0]);
    assert Harmed(DbNow(s), ov, Overlay(s.logSafe), 0);
  }
}
