/** The pager (src/pager.cpp): pages by id, over the database file and the log;
    commit, rollback, checkpoint, and recovery when the database is opened. */
module PageStore {
  import opened Wrappers
  import opened Disk
  import opened Recovery
  import opened Crash
  import opened Redoing
  import opened WriteAheadLog

  datatype Durability = Full | Normal | Off

  /** What a session promises of a power cut: nothing if it was opened on files that
      held their commit only until then. */
  function PromiseOf(d: Durability, durable: bool): Promise {
    if !durable || d.Off? then Nothing else if d.Full? then Everything else SomePrefix
  }

  class Pager {
    // The database file: as of its last sync, and the writes since.
    var dbSafe: seq<Block>
    var dbQueue: seq<DbWrite>
    const wal: Wal

    var meta: Meta
    var committedMeta: Meta
    var metaDirty: bool
    var filePages: nat
    const durability: Durability
    var checkpointFrames: nat

    // The contents at each commit, and every point a crash can strike at.
    ghost var history: seq<Contents>
    ghost var trace: seq<Moment>
    ghost const promise: Promise
    // Whether all of the files found was synced, and whether the log was cut at a close.
    ghost const cold: bool
    ghost var closed: bool

    function Db(): seq<Block> reads this { RunDb(dbSafe, dbQueue) }

    ghost function Files(): Store reads this, wal { Store(dbSafe, dbQueue, wal.safe, wal.queue) }

    ghost predicate Valid() reads this, wal {
      && wal.Valid()
      && Resting(Files(), history, wal.Committed(), promise)
      && TraceSafe(trace, history, promise) && Recorded(trace, Files(), |history| - 1)
      && Fields()
    }

    ghost predicate Fields() reads this, wal {
      && |history| > 0 && history[|history| - 1].meta == committedMeta
      && filePages == |Db()|
      && InProgress(wal.Written(), meta)
      && committedMeta.pageCount <= meta.pageCount
      && (!metaDirty ==> meta == committedMeta)
      && (promise.Everything? ==> durability.Full?) && (promise.SomePrefix? ==> durability.Normal?)
      && (Syncing() ==> promise.Everything? && wal.Session())
    }

    /** A session that syncs every commit. */
    ghost predicate Syncing() reads this { cold && durability.Full? && !closed }

    /** The last commit. */
    ghost function Committed(): Contents reads this requires |history| > 0 { history[|history| - 1] }

    /** The database as the transaction in progress sees it. */
    ghost function Current(): Contents reads this, wal { ContentsOf(Db(), wal.View(), meta) }

    /** The page after the last, as it would read: past the end of the file empty; but the
        file may be longer than the database, by what a recovery left there. */
    ghost function Spare(): Page reads this, wal { PageAt(Db(), wal.View(), meta.pageCount) }

    ghost predicate InTransaction() reads this, wal { wal.pending != map[] || metaDirty }

    ghost predicate Kept(h: seq<Contents>, t: seq<Moment>) reads this { history == h && t <= trace }

    /** The log begun anew as generation `gen`: its header is written, and not synced. */
    ghost predicate NewLog(safe: Log, queue: seq<LogWrite>, gen: nat) reads wal {
      && wal.safe == safe && wal.queue == queue + [PutHeader(gen)] && wal.generation == gen
      && wal.headerOk && wal.pending == map[] && wal.end == wal.commitEnd == 0
    }

    /** Open a database whose files hold `c`: redo every commit the log holds
        into the file, discard what follows, and start a new log. `drawn` is the
        generation drawn when the log has no usable header: fresh, as are its
        successors. */
    constructor (dbSafe: seq<Block>, dbQueue: seq<DbWrite>, logSafe: Log, logQueue: seq<LogWrite>,
                 drawn: nat, durability: Durability, ghost c: Contents)
      requires Recovers(Disk.Files(RunDb(dbSafe, dbQueue), RunLog(logSafe, logQueue)), c)
      requires CommitsBefore(RunLog(logSafe, logQueue), drawn)
      ensures Valid() && !InTransaction() && history == [c] && Current() == c
      ensures this.durability == durability && !closed && cold == (dbQueue == [] && logQueue == [])
      ensures promise == PromiseOf(durability, Durable(Store(dbSafe, dbQueue, logSafe, logQueue), c))
      ensures promise == Nothing <==> durability.Off? || !Durable(Store(dbSafe, dbQueue, logSafe, logQueue), c)
      ensures promise != Nothing ==> if durability.Full? then promise == Everything else promise == SomePrefix
      ensures checkpointFrames == 1000 && fresh(wal)
      ensures var s := Store(dbSafe, dbQueue, logSafe, logQueue);
              var found := LogNow(s).header.Some?;
              && (exists ids :: PagesOf(Overlay(LogNow(s)), ids) &&
                    trace == RecoveryTrace(s, Overlay(LogNow(s)), ids, c.meta.pageCount, wal.generation))
              && (!found ==> Files() == s && wal.generation == drawn)
              && (found ==> wal.generation == LogNow(s).header.value + 1) && wal.end == 0
    {
      hide Recovers, RunLog, RunDb, CommitsBefore, Resting, TraceSafe, Recorded, ContentsOf, Durable, Overlay, RecoveryTrace, PagesOf;
      this.dbSafe := dbSafe;
      this.dbQueue := dbQueue;
      wal := new Wal(logSafe, logQueue, drawn);
      var found := MetaOf(RunDb(dbSafe, dbQueue));
      meta, committedMeta, metaDirty := found, found, false;
      filePages := |RunDb(dbSafe, dbQueue)|;
      this.durability := durability;
      checkpointFrames := 1000;
      history, trace := [c], [];
      promise := PromiseOf(durability, Durable(Store(dbSafe, dbQueue, logSafe, logQueue), c));
      cold, closed := dbQueue == [] && logQueue == [], false;
      if dbQueue == [] && logQueue == [] { ColdIsDurable(Store(dbSafe, dbQueue, logSafe, logQueue), c); }
      new;
      Redo();
    }

    method Redo()
      requires |history| == 1 && Recovers(Disk.Files(Db(), wal.Now()), Committed()) && trace == []
      requires wal.headerOk == wal.Now().header.Some? && (wal.headerOk ==> wal.generation == wal.Now().header.value)
      requires !wal.headerOk ==> CommitsBefore(wal.Now(), wal.generation)
      requires meta == committedMeta == MetaOf(Db()) && !metaDirty && filePages == |Db()|
      requires promise == PromiseOf(durability, Durable(Files(), Committed()))
      requires cold == (dbQueue == [] && wal.queue == []) && !closed && (Syncing() ==> promise.Everything?)
      modifies this`dbSafe, this`dbQueue, this`trace, this`filePages, this`meta, this`committedMeta, wal
      ensures Valid() && !InTransaction() && history == old(history) && Current() == Committed()
      ensures exists ids :: PagesOf(old(Overlay(wal.Now())), ids) &&
                trace == RecoveryTrace(old(Files()), old(Overlay(wal.Now())), ids, Committed().meta.pageCount, wal.generation)
      ensures !old(wal.headerOk) ==> Files() == old(Files()) && wal.generation == old(wal.generation)
      ensures old(wal.headerOk) ==> wal.generation == old(wal.generation) + 1
      ensures wal.end == 0
    {
      hide LogIs, Holds, RunLog, RunDb, TraceSafe, Recorded, QuietLog, Indexed, Images, PowerSafe, ContentsOf, Resting, Overlay, Tidy,
           CommitsBefore, Durable, RecoveryTrace, PagesOf, IndexedFound, Wal.Session, QuietDb;
      ghost var c, s := Committed(), Files();
      assert history == [c];
      FoundMoment(s, c, promise);
      trace := [Moment(s, None, 0, 0)];
      RecordedFirst(s, 0);
      var found, transactions := wal.Recover();
      assert Files() == s;
      wal.CommittedIsOverlay();
      ghost var ov := wal.Committed();
      MetaInForce(Db(), ov, c);
      if transactions > 0 {
        RedoCommits(s, c);
      } else {
        FoundResting(s, c, promise);
        EmptyTrace(s, c.meta.pageCount, if found then wal.generation + 1 else wal.generation);
        if found {
          RestingRecovers(s, history, ov, promise);
          ResetLog();
        } else {
          CurrentIsCommitted();
        }
      }
    }

    /** Every transaction the log holds a commit for is redone by a checkpoint, run as Full
        whatever the session is to be. */
    method RedoCommits(ghost s: Store, ghost c: Contents)
      requires s == Files() && history == [c] && wal.Opened() && wal.pending == map[] && wal.headerOk
      requires Recovers(Disk.Files(DbNow(s), LogNow(s)), c) && (promise != Nothing ==> Durable(s, c))
      requires wal.Committed() == Overlay(LogNow(s)) != map[] && wal.Written() == map[] && 0 in wal.Committed() && wal.Committed()[0] == MetaImage(c.meta)
      requires trace == [Moment(s, None, 0, 0)] && TraceSafe(trace, history, promise) && Recorded(trace, Files(), 0)
      requires meta == committedMeta && !metaDirty && filePages == |Db()| && cold == (dbQueue == [] && wal.queue == []) && !closed
      requires (Syncing() ==> promise.Everything?) && (promise.Everything? ==> durability.Full?) && (promise.SomePrefix? ==> durability.Normal?)
      modifies this`dbSafe, this`dbQueue, this`trace, this`filePages, this`meta, this`committedMeta, wal
      ensures Valid() && !InTransaction() && Current() == Committed() && wal.generation == old(wal.generation) + 1 && wal.end == 0
      ensures exists ids :: PagesOf(old(wal.Committed()), ids) &&
                trace == RecoveryTrace(s, old(wal.Committed()), ids, c.meta.pageCount, wal.generation)
    {
      hide LogIs, Holds, RunLog, RunDb, TraceSafe, Recorded, QuietLog, Indexed, Images, PowerSafe, ContentsOf, Resting, Overlay, Tidy,
           CommitsBefore, Durable, RecoveryTrace, PagesOf, IndexedFound, Wal.Session, QuietDb, CopyTrace, Redone, Recovers, Copying;
      ghost var ov := wal.Committed();
      var m := wal.Read(0);
      assert wal.View() == wal.Committed();
      if m.Some? && m.value.MetaImage? { meta := m.value.meta; }
      committedMeta := meta;
      FoundCopying(s, c, promise);
      ghost var ids := CopyAll(Full);
      RedoneTrace(s, ov, ids, c.meta.pageCount, wal.generation);
    }

    method ReadPage(id: PageId) returns (page: Page)
      requires Valid() && 0 < id < meta.pageCount
      ensures page == Current().pages[id]
    {
      wal.ValidIsOpened();
      var image := wal.Read(id);
      if image.Some? {
        page := if image.value.PageImage? then image.value.page else ZERO_PAGE;
      } else if id < filePages && Db()[id].PageImage? {
        page := Db()[id].page;
      } else {
        page := ZERO_PAGE;
      }
    }

    method WritePage(id: PageId, page: Page)
      requires Valid() && 0 < id < meta.pageCount && page.id == id
      modifies this`trace, wal
      ensures Valid() && Kept(old(history), old(trace))
      ensures Current() == old(Current()).(pages := old(Current()).pages[id := page])
      ensures InTransaction() && wal.pending.Keys == old(wal.pending.Keys) + {id}
      ensures wal.safe == old(wal.safe) && wal.generation == old(wal.generation) && wal.commitEnd == old(wal.commitEnd)
      ensures wal.end == if id in old(wal.pending) then old(wal.end) else old(wal.end) + 1
      ensures wal.queue == old(wal.queue) + FrameWrites(old(wal.headerOk), wal.generation, SlotFor(old(wal.pending), old(wal.end), id),
                                                        Frame(id, wal.generation, false, PageImage(page)))
      ensures wal.headerOk && wal.pending == old(wal.pending)[id := SlotFor(old(wal.pending), old(wal.end), id)]
    {
      hide FrameWrites, LogIs, Holds, RunLog, RunDb, Harmless, Resting, TraceSafe, Recorded, Images, PageAt, LogMoments, PromiseOf, Indexed, ContentsOf;
      ghost var s, h, k := Files(), history, |history| - 1;
      ContentsWith(Db(), wal.View(), meta, id, page);
      ghost var ws := wal.Write(id, page);
      FramesSafe(s, ws, h, wal.Committed(), promise);
      RecordedLog(trace, s, ws, k, k);
      TraceSafeMore(trace, LogMoments(s, ws, k, k), h, promise);
      trace := trace + LogMoments(s, ws, k, k);
      InProgressWith(old(wal.Written()), meta, id, page);
    }

    /** One write to the database file while the log keeps what it covers. */
    method IssueDb(w: DbWrite)
      requires Copying(Files(), history, wal.Committed(), promise) && TraceSafe(trace, history, promise) && Recorded(trace, Files(), |history| - 1)
      requires DbWriteCovered(Db(), w, wal.Committed(), Committed()) && wal.Committed() != map[]
      modifies this`dbQueue, this`trace
      ensures Copying(Files(), history, wal.Committed(), promise) && TraceSafe(trace, history, promise) && Recorded(trace, Files(), |history| - 1)
      ensures dbQueue == old(dbQueue) + [w] && Db() == ApplyDb(old(Db()), w)
      ensures trace == old(trace) + [Moment(old(Files()), Some(ToDb(w)), |history| - 1, |history| - 1)]
    {
      hide LogIs, Holds, RunLog, RunDb, TraceSafe, Recorded, Overlay, Tidy, QuietLog, QuietDb, DbWriteCovered, ApplyDb;
      ghost var s, k := Files(), |history| - 1;
      DbMomentSafe(s, w, wal.Committed(), history, promise);
      RunDbOne(dbSafe, dbQueue, w);
      dbQueue := dbQueue + [w];
      TraceSafeOne(trace, Moment(s, Some(ToDb(w)), k, k), history, promise);
      RecordedMore(trace, s, k, Moment(s, Some(ToDb(w)), k, k));
      trace := trace + [Moment(s, Some(ToDb(w)), k, k)];
    }

    method SyncDb()
      modifies this`dbSafe, this`dbQueue
      ensures dbSafe == Db() == old(Db()) && dbQueue == []
    {
      dbSafe := Db();
      dbQueue := [];
    }

    /** End the transaction: it is in the history, durably as far as promised,
        before the call returns. */
    method Commit()
      requires Valid()
      modifies this`dbSafe, this`dbQueue, this`trace, this`history, this`filePages, this`committedMeta, this`metaDirty, wal
      ensures Valid() && !InTransaction() && old(trace) <= trace
      ensures history == old(history) + if old(InTransaction()) then [old(Current())] else []
      ensures Current() == Committed() == old(Current())
      ensures old(InTransaction()) ==> old(CommitTrace()) <= trace
      ensures old(InTransaction()) && old(wal.end) + 1 < checkpointFrames ==> Files() == old(AfterCommit())
    {
      hide LogIs, Holds, RunLog, RunDb, TraceSafe, Recorded, QuietLog, Indexed, Images, PowerSafe, ContentsOf, Resting,
           Overlay, Tidy, LogMoments, Harmless, PromiseOf, MomentSafe, FrameWrites, Wal.Session;
      if wal.pending == map[] && !metaDirty {
        CurrentIsCommitted();
        return;
      }
      WriteCommit();
      ghost var t := trace;
      assert old(trace) <= t && old(CommitTrace()) <= t;
      if wal.end >= checkpointFrames {
        Checkpoint();
        Prefixes(old(trace), t, trace);
        Prefixes(old(CommitTrace()), t, trace);
      } else {
        CurrentIsCommitted();
      }
    }

    /** The writes a commit makes now, the files after it, and its moments. */
    ghost function CommitWrites(): seq<LogWrite> reads this, wal {
      FrameWrites(wal.headerOk, wal.generation, wal.end, Frame(0, wal.generation, true, MetaImage(meta)))
    }

    ghost function AfterCommit(): Store reads this, wal {
      if durability.Full? then Synced(AfterLog(Files(), CommitWrites())) else AfterLog(Files(), CommitWrites())
    }

    ghost function CommitTrace(): seq<Moment> reads this, wal requires |history| > 0 {
      var k := |history| - 1;
      trace + LogMoments(Files(), CommitWrites(), k, k + 1) + [Moment(AfterCommit(), None, k + 1, k + 1)]
    }

    method WriteCommit()
      requires Valid()
      modifies this`trace, this`history, this`committedMeta, this`metaDirty, wal
      ensures Valid() && !InTransaction() && old(trace) <= trace && wal.end == old(wal.end) + 1
      ensures history == old(history) + [old(Current())]
      ensures trace == old(CommitTrace()) && Files() == old(AfterCommit())
    {
      hide LogIs, Holds, RunLog, RunDb, TraceSafe, Recorded, QuietLog, Indexed, Images, PowerSafe, ContentsOf, Resting,
           Overlay, Tidy, LogMoments, Harmless, PromiseOf, MomentSafe, Recovers, InProgress, FrameWrites, Wal.Session, Durable;
      ghost var s, h, k, c, ov := Files(), history, |history| - 1, Current(), wal.Committed();
      RestingHolds(s, h, ov, promise);
      NewContents(Db(), ov, h[k], wal.Written(), meta);
      ContentsMeta(Db(), wal.View(), meta, meta);
      ghost var ws := wal.Commit(meta, durability.Full?);
      wal.ValidIsOpened();
      wal.CommittedIsOverlay();
      CommitSafe(s, ws, h, ov, promise, wal.Committed(), c, durability.Full?);
      TraceSafeGrows(trace, h, promise, c);
      TraceSafeMore(trace, LogMoments(s, ws, k, k + 1), h + [c], promise);
      assert Files() == if durability.Full? then Synced(AfterLog(s, ws)) else AfterLog(s, ws);
      history := h + [c];
      RestingRecovers(Files(), history, wal.Committed(), promise);
      if promise.Everything? { RestingIsDurable(Files(), history, wal.Committed()); }
      IdleMomentSafe(Files(), history, promise);
      ghost var acknowledged := Moment(Files(), None, k + 1, k + 1);
      TraceSafeOne(trace + LogMoments(s, ws, k, k + 1), acknowledged, history, promise);
      RecordedCommit(trace, s, ws, k, acknowledged);
      trace := trace + LogMoments(s, ws, k, k + 1) + [acknowledged];
      committedMeta := meta;
      metaDirty := false;
      InProgressNone(meta);
    }

    /** Everything since the last commit never happened. */
    method Rollback()
      requires Valid()
      modifies this`meta, this`metaDirty, wal`pending, wal`end
      ensures Valid() && !InTransaction() && Current() == Committed() == old(Committed())
    {
      hide LogIs, Holds, RunLog, RunDb, TraceSafe, Recorded, Indexed, Images, ContentsOf, Resting, Overlay, Tidy;
      wal.Rollback();
      meta := committedMeta;
      metaDirty := false;
      InProgressNone(meta);
      CurrentIsCommitted();
    }

    method Checkpoint()
      requires Valid() && !InTransaction()
      modifies this`dbSafe, this`dbQueue, this`trace, this`filePages, wal
      ensures Valid() && !InTransaction() && Kept(old(history), old(trace))
      ensures Current() == Committed() && wal.Committed() == map[]
      ensures durability.Full? && old(wal.committed) != map[] ==> NewLog(old(wal.safe), old(wal.queue), old(wal.generation) + 1)
    {
      hide LogIs, Holds, RunLog, RunDb, TraceSafe, Recorded, QuietLog, Indexed, Images, PowerSafe, ContentsOf, Resting,
           Overlay, Tidy, PromiseOf, InProgress;
      RestingQuiet(Files(), history, wal.Committed(), promise);
      CheckpointAs(durability);
    }

    /** Commit, checkpoint, and sync both files. */
    method Sync()
      requires Valid()
      modifies this`dbSafe, this`dbQueue, this`trace, this`history, this`filePages, this`committedMeta, this`metaDirty, wal
      ensures Valid() && !InTransaction() && old(trace) <= trace
      ensures history == old(history) + if old(InTransaction()) then [old(Current())] else []
      ensures Current() == Committed() == old(Current()) && dbQueue == []
    {
      hide LogIs, Holds, RunLog, RunDb, TraceSafe, Recorded, QuietLog, Indexed, Images, PowerSafe, ContentsOf, Resting,
           Overlay, Tidy, PromiseOf, InProgress;
      Commit();
      ghost var t := trace;
      Checkpoint();
      Prefixes(old(trace), t, trace);
      ghost var s := Files();
      SyncedDb(s, history, wal.Committed(), promise);
      SyncDb();
      RecordedSync(trace, s, Files(), |history| - 1);
    }

    /** A clean close: an empty log, and the database whole in its file. */
    method Close()
      requires Valid()
      modifies this`dbSafe, this`dbQueue, this`trace, this`history, this`filePages, this`committedMeta, this`metaDirty, this`closed, wal
      ensures Valid() && old(trace) <= trace
      ensures history == old(history) + if old(InTransaction()) then [old(Current())] else []
      ensures wal.Now() == Log(None, []) && Committed() == old(Current()) && Holds(Db(), map[], Committed())
    {
      hide LogIs, Holds, RunLog, RunDb, TraceSafe, Recorded, QuietLog, Indexed, Images, PowerSafe, ContentsOf, Resting,
           Overlay, Tidy, PromiseOf, InProgress;
      Commit();
      ghost var t := trace;
      Checkpoint();
      ghost var t2 := trace;
      CutLog();
      Prefixes(old(trace), t, t2);
      Prefixes(old(trace), t2, trace);
    }

    method CutLog()
      requires Valid() && !InTransaction() && wal.Committed() == map[]
      modifies this`trace, this`closed, wal
      ensures Valid() && old(trace) <= trace && wal.Now() == Log(None, []) && Holds(Db(), map[], Committed())
    {
      hide LogIs, Holds, RunLog, RunDb, TraceSafe, Recorded, QuietLog, Indexed, Images, PowerSafe, Resting,
           Overlay, Tidy, PromiseOf, Recovers, MomentSafe;
      ghost var s, k := Files(), |history| - 1;
      RestingRecovers(s, history, wal.Committed(), promise);
      RestingHolds(s, history, wal.Committed(), promise);
      closed := true;
      ghost var w := wal.TruncateFile();
      ResetSafe(s, w, history, promise, map[]);
      TraceSafeOne(trace, Moment(s, Some(ToLog(w)), k, k), history, promise);
      RecordedMore(trace, s, k, Moment(s, Some(ToLog(w)), k, k));
      trace := trace + [Moment(s, Some(ToLog(w)), k, k)];
      assert Files() == Issue(s, ToLog(w));
    }

    /** Hand out a page: the head of the free list if there is one, else a new
        last page. None if the list leads to a page not marked free. */
    method AllocatePage() returns (id: Option<PageId>)
      requires Valid()
      modifies this`meta, this`metaDirty
      ensures Valid() && Kept(old(history), old(trace))
      ensures id == AllocateId(old(Current())) && Current() == AfterAllocate(old(Current()), old(Spare()))
      ensures HandsOut(old(Current()), id, Current(), old(Spare()))
      ensures id.Some? ==> InTransaction()
    {
      hide LogIs, Holds, RunLog, RunDb, TraceSafe, Recorded, QuietLog, Indexed, Images, PowerSafe, ContentsOf, Resting,
           Overlay, Tidy, PromiseOf, InProgress;
      ghost var c0 := Current();
      RestingHolds(Files(), history, wal.Committed(), promise);
      ContentsMeta(Db(), wal.View(), meta, meta.(freelistHead := 0));
      AllocateMeans(c0, Spare());
      if meta.freelistHead != 0 {
        var head := meta.freelistHead;
        if head >= meta.pageCount { return None; }
        var p := ReadPage(head);
        if !p.ptype.FreePage? { return None; }
        ContentsMeta(Db(), wal.View(), meta, meta.(freelistHead := p.next));
        InProgressMeta(wal.Written(), meta, meta.(freelistHead := p.next));
        meta := meta.(freelistHead := p.next);
        id := Some(head);
      } else {
        id := Some(meta.pageCount);
        ContentsGrown(Db(), wal.Committed(), Committed(), wal.Written(), meta);
        meta := meta.(pageCount := meta.pageCount + 1);
      }
      metaDirty := true;
    }

    /** Put a page on the free list. False, and nothing done, if it is marked free. */
    method FreePage(id: PageId) returns (ok: bool)
      requires Valid() && 0 < id < meta.pageCount
      modifies this`meta, this`metaDirty, this`trace, wal
      ensures Valid() && Kept(old(history), old(trace))
      ensures ok == !old(Current()).pages[id].ptype.FreePage?
      ensures Current() == if ok then AfterFree(old(Current()), id) else old(Current())
      ensures if ok then TakesBack(old(Current()), id, Current()) else Current() == old(Current())
      ensures wal.pending.Keys == old(wal.pending.Keys) + if ok then {id} else {}
    {
      hide LogIs, Holds, RunLog, RunDb, TraceSafe, Recorded, QuietLog, Indexed, Images, PowerSafe, ContentsOf, Resting,
           Overlay, Tidy, PromiseOf, InProgress;
      ContentsMeta(Db(), wal.View(), meta, meta);
      var current := ReadPage(id);
      if current.ptype.FreePage? { return false; }
      WritePage(id, Page(id, PageType.FreePage, meta.freelistHead, []));
      ContentsMeta(Db(), wal.View(), meta, meta.(freelistHead := id));
      InProgressMeta(wal.Written(), meta, meta.(freelistHead := id));
      meta := meta.(freelistHead := id);
      metaDirty := true;
      ok := true;
    }

    method SetBtreeRoot(root: PageId)
      requires Valid()
      modifies this`meta, this`metaDirty
      ensures Valid() && Kept(old(history), old(trace))
      ensures Current() == old(Current()).(meta := old(meta).(btreeRoot := root)) && InTransaction()
    {
      hide LogIs, Holds, RunLog, RunDb, TraceSafe, Recorded, QuietLog, Indexed, Images, PowerSafe, ContentsOf, Resting,
           Overlay, Tidy, PromiseOf, InProgress;
      ContentsMeta(Db(), wal.View(), meta, meta.(btreeRoot := root));
      InProgressMeta(wal.Written(), meta, meta.(btreeRoot := root));
      meta := meta.(btreeRoot := root);
      metaDirty := true;
    }

    /** Walk the free list and count it; None if it has a cycle or leads to a page
        not marked free. */
    method FreelistLength() returns (n: Option<nat>)
      requires Valid()
      ensures forall list | FreeList(Current(), list) :: n == Some(|list|)
    {
      hide LogIs, Holds, RunLog, RunDb, TraceSafe, Recorded, QuietLog, Indexed, Images, PowerSafe, ContentsOf, Resting,
           Overlay, Tidy, PromiseOf, InProgress;
      ContentsMeta(Db(), wal.View(), meta, meta);
      var count: nat, id: PageId := 0, meta.freelistHead;
      while id != 0
        invariant count <= meta.pageCount
        invariant forall list | FreeList(Current(), list) ::
                    count <= |list| && id == if count < |list| then list[count] else 0
        decreases meta.pageCount - count
      {
        forall list | FreeList(Current(), list)
          ensures count < |list| < meta.pageCount && Current().pages[id].next == Following(list, count)
          ensures id < meta.pageCount && Current().pages[id].ptype.FreePage?
        {
          FreeListFits(Current(), list);
          assert list[count] == id;
        }
        count := count + 1;
        if count > meta.pageCount || id >= meta.pageCount { return None; }
        var p := ReadPage(id);
        if !p.ptype.FreePage? { return None; }
        id := p.next;
      }
      n := Some(count);
    }

    /** A page the transaction has not written is as of the last commit. */
    lemma UnwrittenIsCommitted(id: PageId)
      requires Valid() && id !in wal.pending && id in Committed().pages
      ensures id in Current().pages && Current().pages[id] == Committed().pages[id]
    {
      RestingHolds(Files(), history, wal.Committed(), promise);
      HoldsContents(Db(), wal.Committed(), Committed());
      assert id !in wal.Written();
    }

    /** The pages of a database are its ids. */
    lemma PagesInRange()
      requires Valid()
      ensures |history| > 0
      ensures forall id :: id in Committed().pages <==> 1 <= id < Committed().meta.pageCount
      ensures forall id :: id in Current().pages <==> 1 <= id < Current().meta.pageCount
      ensures Committed().meta == committedMeta && Current().meta == meta && committedMeta.pageCount <= meta.pageCount
      ensures committedMeta.pageCount >= 1
    {
      RestingHolds(Files(), history, wal.Committed(), promise);
      ContentsMeta(Db(), wal.View(), meta, meta);
    }

    lemma CurrentIsCommitted()
      requires Valid() && !InTransaction()
      ensures Current() == Committed()
    {
      hide RunLog, RunDb, TraceSafe, Recorded, Resting, Holds, ContentsOf, LogIs, Overlay;
      RestingHolds(Files(), history, wal.Committed(), promise);
      assert wal.Written() == map[];
      assert wal.View() == wal.Committed();
      HoldsContents(Db(), wal.Committed(), Committed());
    }

    /** Copy every committed page from the log into the file, make the file
        durable, and start a new log. */
    method CheckpointAs(d: Durability)
      requires Valid() && !InTransaction()
      requires promise != Nothing && wal.Committed() != map[] ==>
                 d.Normal? || (d.Full? && QuietLog(Files(), wal.Committed()))
      modifies this`dbSafe, this`dbQueue, this`trace, this`filePages, wal
      ensures Valid() && !InTransaction() && Kept(old(history), old(trace))
      ensures Current() == Committed() && wal.Committed() == map[]
      ensures d.Full? && old(wal.committed) != map[] ==> NewLog(old(wal.safe), old(wal.queue), old(wal.generation) + 1)
    {
      hide LogIs, Holds, RunLog, RunDb, TraceSafe, Recorded, Overlay, Tidy, QuietLog, QuietDb, DbWriteCovered,
           Indexed, Images, PowerSafe, ContentsOf, LogMoments, Recovers, PromiseOf, CopyTrace, Durable, Wal.Session;
      wal.ValidIsOpened();
      wal.CommittedIsOverlay();
      ghost var ov, c := wal.Committed(), Committed();
      var frames := wal.CommittedFrames();
      if frames == [] {
        assert wal.committed == map[];
        CurrentIsCommitted();
        return;
      }
      assert frames[0].0 in wal.committed;
      wal.CommittedAt(frames[0].0);
      if d.Normal? {
        ghost var s := Files();
        SyncedStore(s, ov, history, promise);
        wal.Sync();
        RecordedSync(trace, s, Files(), |history| - 1);
        wal.ValidIsOpened();
        SyncedLogIsQuiet(Files(), ov);
      }
      RestingCopies(Files(), history, ov, promise);
      ghost var ids := CopyAll(d);
    }

    /** The copying itself, while the log keeps what is copied. */
    method CopyAll(d: Durability) returns (ghost ids: seq<PageId>)
      requires |history| > 0 && wal.Opened() && wal.pending == map[] && wal.Committed() != map[]
      requires Copying(Files(), history, wal.Committed(), promise) && TraceSafe(trace, history, promise) && Recorded(trace, Files(), |history| - 1)
      requires meta == committedMeta == Committed().meta && !metaDirty && filePages == |Db()| && (promise != Nothing ==> !d.Off?)
      requires (promise.Everything? ==> durability.Full?) && (promise.SomePrefix? ==> durability.Normal?)
      requires Syncing() ==> promise.Everything? && (wal.Session() || (wal.queue == [] && wal.headerOk))
      modifies this`dbSafe, this`dbQueue, this`trace, this`filePages, wal
      ensures Valid() && !InTransaction() && old(trace) <= trace
      ensures Current() == Committed() && wal.Committed() == map[]
      ensures PagesOf(old(wal.Committed()), ids) && wal.generation == old(wal.generation) + 1 && wal.end == 0
      ensures !d.Off? ==> trace == old(trace) + CopyTrace(old(Files()), Redone(old(Db()), old(wal.Committed()), ids, meta.pageCount),
                                                          wal.generation, |history| - 1)
      ensures wal.safe == old(wal.safe) && wal.queue == old(wal.queue) + [PutHeader(wal.generation)] && wal.headerOk && wal.commitEnd == 0
    {
      hide LogIs, Holds, RunLog, RunDb, TraceSafe, Recorded, Overlay, Tidy, QuietLog, QuietDb, Indexed, Images, PowerSafe, ContentsOf,
           Recovers, Copying, IndexedFound, Wal.Session, Resting, Durable, Copies, DbMoments, PagesOf, CopyTrace, Redone, AfterDb, Issue;
      ghost var s, k, ov, t0 := Files(), |history| - 1, wal.Committed(), trace;
      wal.CommittedIsOverlay();
      CopyingHolds(s, history, ov, promise);
      var frames := wal.CommittedFrames();
      ids := CopyFrames(frames);
      ghost var copied := Copies(ov, ids);
      ghost var db := Db();
      CopiesLength(s, ov, ids, Committed());
      assert |db| >= filePages && (|db| > filePages ==> |db| <= meta.pageCount);
      GrowFile();
      ghost var t1 := trace;
      ghost var ws := Redone(DbNow(s), ov, ids, meta.pageCount);
      RedoneIs(s, ov, ids, meta.pageCount, db, copied, ws, k);
      FinishCheckpoint(d);
      FinishedTrace(t0, t1, trace, s, ws, wal.generation, k, d.Off?);
    }

    /** Only once the file is durable may the log forget the frames. */
    method FinishCheckpoint(d: Durability)
      requires |history| > 0 && wal.Opened() && wal.pending == map[]
      requires Copying(Files(), history, wal.Committed(), promise) && TraceSafe(trace, history, promise) && Recorded(trace, Files(), |history| - 1)
      requires Holds(Db(), map[], Committed()) && |Db()| == if filePages < meta.pageCount then meta.pageCount else filePages
      requires meta == committedMeta == Committed().meta && !metaDirty && (promise != Nothing ==> !d.Off?)
      requires (promise.Everything? ==> durability.Full?) && (promise.SomePrefix? ==> durability.Normal?)
      requires Syncing() ==> promise.Everything? && (wal.Session() || (wal.queue == [] && wal.headerOk))
      modifies this`dbSafe, this`dbQueue, this`trace, this`filePages, wal
      ensures Valid() && !InTransaction()
      ensures Current() == Committed() && wal.Committed() == map[] && wal.generation == old(wal.generation) + 1 && wal.end == 0
      ensures trace == old(trace) + [Moment(if d.Off? then old(Files()) else DbSynced(old(Files())),
                                            Some(ToLog(PutHeader(wal.generation))), |history| - 1, |history| - 1)]
      ensures wal.safe == old(wal.safe) && wal.queue == old(wal.queue) + [PutHeader(wal.generation)] && wal.headerOk && wal.commitEnd == 0
    {
      hide LogIs, Holds, RunLog, RunDb, TraceSafe, Recorded, Overlay, Tidy, QuietLog, QuietDb,
           Indexed, Images, PowerSafe, ContentsOf, Recovers, Copying, IndexedFound, Wal.Session, Resting, Durable;
      ghost var s := Files();
      CopiedSafe(s, history, wal.Committed(), promise);
      if !d.Off? { SyncDb(); RecordedSync(trace, s, Files(), |history| - 1); }
      filePages := if filePages < meta.pageCount then meta.pageCount else filePages;
      ResetLog();
    }

    method CopyFrames(frames: seq<(PageId, nat)>) returns (ghost ids: seq<PageId>)
      requires |history| > 0 && wal.Opened() && Copying(Files(), history, wal.Committed(), promise) && TraceSafe(trace, history, promise) && Recorded(trace, Files(), |history| - 1)
      requires forall i, j | 0 <= i < j < |frames| :: frames[i].0 < frames[j].0
      requires forall i | 0 <= i < |frames| :: frames[i].0 in wal.committed && wal.committed[frames[i].0] == frames[i].1
      requires Pages(frames) == wal.committed.Keys
      modifies this`dbQueue, this`trace
      ensures Copying(Files(), history, wal.Committed(), promise) && TraceSafe(trace, history, promise) && Recorded(trace, Files(), |history| - 1)
      ensures forall id | id in wal.Committed() :: id < |Db()| && Db()[id] == wal.Committed()[id]
      ensures PagesOf(wal.Committed(), ids) && Files() == AfterDb(old(Files()), Copies(wal.Committed(), ids))
      ensures trace == old(trace) + DbMoments(old(Files()), Copies(wal.Committed(), ids), |history| - 1)
    {
      hide LogIs, Holds, RunLog, RunDb, TraceSafe, Recorded, Overlay, Tidy, QuietLog, QuietDb, DbWriteCovered, Pages, PagesOf, AfterDb,
           Indexed, Images, Copying, IndexedFound, Copies, DbMoments, Same, Copied;
      wal.CommittedIsOverlay();
      ghost var ov, s, k, t0 := wal.Committed(), Files(), |history| - 1, trace;
      ids := FrameIds(frames);
      forall id ensures id in ov <==> id in Pages(frames) { wal.CommittedAt(id); }
      FramesPages(frames, ov);
      NothingYet(s, ov, ids, k, t0);
      NoneCopied(Db(), ov, ids);
      var i := 0;
      while i < |frames|
        invariant i <= |frames|
        invariant Copying(Files(), history, ov, promise) && TraceSafe(trace, history, promise) && Recorded(trace, Files(), |history| - 1)
        invariant Copied(Db(), ov, ids, i)
        invariant Files() == AfterDb(s, Copies(ov, ids[..i])) && trace == t0 + DbMoments(s, Copies(ov, ids[..i]), k)
      {
        FrameIdAt(frames, ov, i);
        ghost var db := Db();
        CopiesNext(ov, ids, i);
        DbMomentsNext(s, Copies(ov, ids[..i]), PutBlock(ids[i], ov[ids[i]]), k);
        CopyFrame(frames[i].0, frames[i].1);
        OneCopied(db, ov, ids, i);
        i := i + 1;
      }
      WholeIds(ids);
      CopiedWhole(Db(), ov, ids);
    }

    method CopyFrame(id: PageId, slot: nat)
      requires |history| > 0 && wal.Opened() && Copying(Files(), history, wal.Committed(), promise) && TraceSafe(trace, history, promise) && Recorded(trace, Files(), |history| - 1)
      requires id in wal.committed && wal.committed[id] == slot
      modifies this`dbQueue, this`trace
      ensures id in wal.Committed() && Db() == ApplyDb(old(Db()), PutBlock(id, wal.Committed()[id]))
      ensures Copying(Files(), history, wal.Committed(), promise) && TraceSafe(trace, history, promise) && Recorded(trace, Files(), |history| - 1)
      ensures Files() == Issue(old(Files()), ToDb(PutBlock(id, wal.Committed()[id])))
      ensures trace == old(trace) + [Moment(old(Files()), Some(ToDb(PutBlock(id, wal.Committed()[id]))), |history| - 1, |history| - 1)]
    {
      hide LogIs, Holds, RunLog, RunDb, TraceSafe, Recorded, Overlay, Tidy, QuietLog, QuietDb, DbWriteCovered, Indexed, Images, Copying, IndexedFound;
      wal.CommittedIsOverlay();
      wal.CommittedAt(id);
      var image := wal.ReadFrame(slot);
      CopyingHolds(Files(), history, wal.Committed(), promise);
      CoveredWrite(Db(), id, wal.Committed(), Committed());
      IssueDb(PutBlock(id, image));
    }

    /** Make the file as long as the database; it then needs no log. */
    method GrowFile()
      requires |history| > 0 && Copying(Files(), history, wal.Committed(), promise) && TraceSafe(trace, history, promise) && Recorded(trace, Files(), |history| - 1)
      requires 0 in wal.Committed() && meta == Committed().meta
      requires forall id | id in wal.Committed() :: id < |Db()| && Db()[id] == wal.Committed()[id]
      modifies this`dbQueue, this`trace
      ensures Copying(Files(), history, wal.Committed(), promise) && TraceSafe(trace, history, promise) && Recorded(trace, Files(), |history| - 1)
      ensures |Db()| == (if |old(Db())| < meta.pageCount then meta.pageCount else |old(Db())|) && Holds(Db(), map[], Committed())
      ensures |old(Db())| < meta.pageCount ==>
                && Files() == Issue(old(Files()), ToDb(Grow(meta.pageCount)))
                && trace == old(trace) + [Moment(old(Files()), Some(ToDb(Grow(meta.pageCount))), |history| - 1, |history| - 1)]
      ensures |old(Db())| >= meta.pageCount ==> Files() == old(Files()) && trace == old(trace)
    {
      hide LogIs, Holds, RunLog, RunDb, TraceSafe, Recorded, Overlay, Tidy, QuietLog, QuietDb, DbWriteCovered,
           Images, Copying;
      ghost var ov, c := wal.Committed(), Committed();
      CopyingHolds(Files(), history, ov, promise);
      if |Db()| < meta.pageCount {
        CoveredGrow(Db(), ov, c);
        IssueDb(Grow(meta.pageCount));
        CopyingHolds(Files(), history, ov, promise);
      }
      AllCopied(Db(), ov, c);
    }

    /** Start a new log: every page of the old one is in the file. */
    method ResetLog()
      requires wal.Opened() && wal.pending == map[] && TraceSafe(trace, history, promise) && Recorded(trace, Files(), |history| - 1) && |history| > 0
      requires Recovers(Disk.Files(Db(), wal.Now()), Committed()) && Holds(Db(), map[], Committed())
      requires promise != Nothing ==> dbQueue == [] && PowerSafe(Files(), history, Floor(promise, |history| - 1), |history| - 1)
      requires meta == committedMeta == Committed().meta && !metaDirty && filePages == |Db()|
      requires (promise.Everything? ==> durability.Full?) && (promise.SomePrefix? ==> durability.Normal?)
      requires Syncing() ==> promise.Everything? && (wal.Session() || (wal.queue == [] && wal.headerOk))
      modifies this`trace, wal
      ensures Valid() && !InTransaction() && wal.generation == old(wal.generation) + 1 && wal.end == 0
      ensures Current() == Committed() && wal.Committed() == map[]
      ensures trace == old(trace) + [Moment(old(Files()), Some(ToLog(PutHeader(wal.generation))), |history| - 1, |history| - 1)]
      ensures Files() == Issue(old(Files()), ToLog(PutHeader(wal.generation))) && wal.headerOk && wal.commitEnd == 0
    {
      hide LogIs, Holds, RunLog, RunDb, TraceSafe, Recorded, Overlay, Tidy, QuietLog,
           Indexed, Images, PowerSafe, ContentsOf, Recovers, IndexedFound, Wal.Session, Durable;
      ghost var s, k := Files(), |history| - 1;
      ghost var w := wal.Reset();
      ResetSafe(s, w, history, promise, map[]);
      TraceSafeOne(trace, Moment(s, Some(ToLog(w)), k, k), history, promise);
      RecordedMore(trace, s, k, Moment(s, Some(ToLog(w)), k, k));
      trace := trace + [Moment(s, Some(ToLog(w)), k, k)];
      assert Files() == Issue(s, ToLog(w));
      assert Valid();
      CurrentIsCommitted();
    }
  }

  // ---- the free list, as a state of the contents ----

  function AllocateId(c: Contents): Option<PageId> {
    var head := c.meta.freelistHead;
    if head == 0 then Some(c.meta.pageCount)
    else if head in c.pages && c.pages[head].ptype.FreePage? then Some(head) else None
  }

  function AfterAllocate(c: Contents, spare: Page): Contents {
    var head := c.meta.freelistHead;
    if head == 0 then
      Contents(c.meta.(pageCount := c.meta.pageCount + 1), c.pages[c.meta.pageCount := spare])
    else if head in c.pages && c.pages[head].ptype.FreePage? then
      c.(meta := c.meta.(freelistHead := c.pages[head].next))
    else c
  }

  function AfterFree(c: Contents, id: PageId): Contents {
    Contents(c.meta.(freelistHead := id),
             c.pages[id := Page(id, PageType.FreePage, c.meta.freelistHead, [])])
  }

  predicate RootsKept(m: Meta, n: Meta) { n.btreeRoot == m.btreeRoot && n.heapHead == m.heapHead && n.catalogRoot == m.catalogRoot }

  /** Handing out a page changes no root and no page there is. Off the free list it moves the
      list's head to the next and nothing else; the database grows only when the list is
      empty, by the page handed out. */
  ghost predicate HandsOut(c: Contents, id: Option<PageId>, d: Contents, spare: Page) {
    var head := c.meta.freelistHead;
    && RootsKept(c.meta, d.meta) && (forall p | p in c.pages :: p in d.pages && d.pages[p] == c.pages[p])
    && if head == 0 then
         && id == Some(c.meta.pageCount) && d.meta.pageCount == c.meta.pageCount + 1 && d.meta.freelistHead == 0
         && d.pages.Keys == c.pages.Keys + {c.meta.pageCount} && d.pages[c.meta.pageCount] == spare
       else if head in c.pages && c.pages[head].ptype.FreePage? then
         id == Some(head) && d.meta.pageCount == c.meta.pageCount && d.meta.freelistHead == c.pages[head].next && d.pages.Keys == c.pages.Keys
       else id == None && d == c
  }

  lemma AllocateMeans(c: Contents, spare: Page)
    requires c.meta.pageCount !in c.pages
    ensures HandsOut(c, AllocateId(c), AfterAllocate(c, spare), spare)
  {
  }

  /** Taking back a page marks it and puts it before the list, and changes no root, no other
      page and not the size of the database. */
  ghost predicate TakesBack(c: Contents, id: PageId, d: Contents) {
    && RootsKept(c.meta, d.meta) && d.meta.pageCount == c.meta.pageCount && d.meta.freelistHead == id
    && d.pages.Keys == c.pages.Keys + {id}
    && (forall p | p in c.pages && p != id :: d.pages[p] == c.pages[p])
    && d.pages[id].ptype.FreePage? && d.pages[id].id == id && d.pages[id].next == c.meta.freelistHead
  }

  function Following(list: seq<PageId>, i: nat): PageId { if i + 1 < |list| then list[i + 1] else 0 }

  /** `list` is the free list, from its head: linked, ended, without repetition. */
  ghost predicate FreeList(c: Contents, list: seq<PageId>) {
    && (forall id :: id in c.pages <==> 1 <= id < c.meta.pageCount) && c.meta.pageCount >= 1
    && c.meta.freelistHead == (if list == [] then 0 else list[0])
    && (forall i | 0 <= i < |list| ::
          list[i] in c.pages && c.pages[list[i]].ptype.FreePage? &&
          c.pages[list[i]].next == Following(list, i))
    && (forall i, j | 0 <= i < j < |list| :: list[i] != list[j])
  }

  /** The pages in use: all but those on the list. */
  ghost function InUse(c: Contents, list: seq<PageId>): set<PageId> {
    set id | id in c.pages && id !in list
  }

  lemma InUseAfterAllocate(c: Contents, list: seq<PageId>, spare: Page)
    requires FreeList(c, list)
    ensures var list' := if list == [] then [] else list[1..];
            AllocateId(c).Some? && FreeList(AfterAllocate(c, spare), list') &&
            AllocateId(c).value !in InUse(c, list) &&
            InUse(AfterAllocate(c, spare), list') == InUse(c, list) + {AllocateId(c).value}
  {
    if list != [] {
      var rest, c' := list[1..], AfterAllocate(c, spare);
      assert list == [list[0]] + rest;
      assert forall id :: id in list <==> id == list[0] || id in rest;
      assert c'.pages == c.pages && c'.meta.freelistHead == c.pages[list[0]].next;
      assert 1 < |list| ==> rest[0] == list[1];
      forall i | 0 <= i < |rest|
        ensures rest[i] in c'.pages && c'.pages[rest[i]].ptype.FreePage?
        ensures c'.pages[rest[i]].next == Following(rest, i)
      {
        assert rest[i] == list[i + 1];
        assert Following(rest, i) == Following(list, i + 1);
      }
    }
  }

  lemma InUseAfterFree(c: Contents, list: seq<PageId>, id: PageId)
    requires FreeList(c, list) && id in c.pages && !c.pages[id].ptype.FreePage?
    ensures FreeList(AfterFree(c, id), [id] + list)
    ensures id in InUse(c, list) && InUse(AfterFree(c, id), [id] + list) == InUse(c, list) - {id}
  {
    assert id !in list;
    var more, c' := [id] + list, AfterFree(c, id);
    assert forall x :: x in more <==> x == id || x in list;
    forall i | 0 <= i < |more|
      ensures more[i] in c'.pages && c'.pages[more[i]].ptype.FreePage?
      ensures c'.pages[more[i]].next == Following(more, i)
    {
      if i > 0 {
        assert more[i] == list[i - 1];
        assert Following(more, i) == Following(list, i - 1);
      }
    }
  }

  /** A list without repetition is no longer than the database. */
  lemma FreeListFits(c: Contents, list: seq<PageId>)
    requires FreeList(c, list)
    ensures |list| < c.meta.pageCount
  {
    Distinct(list, c.meta.pageCount);
  }

  lemma {:induction false} Distinct(list: seq<nat>, n: nat)
    requires n >= 1 && forall i | 0 <= i < |list| :: 1 <= list[i] < n
    requires forall i, j | 0 <= i < j < |list| :: list[i] != list[j]
    ensures |list| < n
  {
    var s := set i | 0 <= i < |list| :: list[i];
    Count(list);
    Subset(s, Ids(n));
  }

  lemma {:induction false} Count(list: seq<nat>)
    requires forall i, j | 0 <= i < j < |list| :: list[i] != list[j]
    ensures |set i | 0 <= i < |list| :: list[i]| == |list|
  {
    if list != [] {
      var init, last := list[..|list| - 1], list[|list| - 1];
      Count(init);
      var s := set i | 0 <= i < |init| :: init[i];
      assert last !in s;
      assert (set i | 0 <= i < |list| :: list[i]) == s + {last} by {
        forall x | x in s + {last} ensures x in set i | 0 <= i < |list| :: list[i] {
          if x == last { assert list[|list| - 1] == x; }
          else { var i :| 0 <= i < |init| && init[i] == x; assert list[i] == x; }
        }
      }
    }
  }

  ghost function Ids(n: nat): (s: set<nat>)
    ensures forall k :: k in s <==> 1 <= k < n
    ensures |s| == if n == 0 then 0 else n - 1
  {
    if n <= 1 then {} else Ids(n - 1) + {n - 1}
  }

  lemma {:induction false} Subset(s: set<nat>, t: set<nat>)
    requires s <= t
    ensures |s| <= |t|
  {
    if s != {} {
      var x :| x in s;
      Subset(s - {x}, t - {x});
    }
  }

  lemma TraceSafeMore(t: seq<Moment>, u: seq<Moment>, h: seq<Contents>, p: Promise)
    requires TraceSafe(t, h, p) && TraceSafe(u, h, p)
    ensures TraceSafe(t + u, h, p)
  {
  }

  lemma TraceSafeOne(t: seq<Moment>, m: Moment, h: seq<Contents>, p: Promise)
    requires TraceSafe(t, h, p) && MomentSafe(m, h, p)
    ensures TraceSafe(t + [m], h, p)
  {
  }

  /** Copying the pages of the log makes the file no longer than the database, unless it was. */
  lemma CopiesLength(s: Store, ov: map<PageId, Image>, ids: seq<PageId>, c: Contents)
    requires Holds(DbNow(s), ov, c) && PagesOf(ov, ids)
    ensures var (was, now, n) := (|DbNow(s)|, |DbNow(AfterDb(s, Copies(ov, ids)))|, c.meta.pageCount);
            was <= now && (now > was ==> now <= n)
  {
    AfterDbNow(s, Copies(ov, ids));
    CopiedAt(DbNow(s), ov, ids, |ids|);
    assert Copies(ov, ids)[..|ids|] == Copies(ov, ids);
  }

  lemma CopyingHolds(s: Store, h: seq<Contents>, ov: map<PageId, Image>, p: Promise)
    requires Copying(s, h, ov, p)
    ensures Holds(DbNow(s), ov, h[|h| - 1])
  {
  }

  lemma Prefixes<T>(a: seq<T>, b: seq<T>, c: seq<T>)
    requires a <= b <= c
    ensures a <= c
  {
  }

  function MetaOf(db: seq<Block>): Meta {
    if |db| > 0 && db[0].MetaImage? then db[0].meta else Meta(1, 0, 0, 0, 0)
  }

  /** Files found by a new process. */
  lemma FoundMoment(s: Store, c: Contents, p: Promise)
    requires Recovers(Disk.Files(DbNow(s), LogNow(s)), c) && (p != Nothing ==> Durable(s, c))
    ensures TraceSafe([Moment(s, None, 0, 0)], [c], p)
  {
    hide Holds, Overlay, Tidy, QuietLog, QuietDb, Recovers;
    if p != Nothing && Overlay(LogNow(s)) != map[] { QuietIsSafe(s, Overlay(LogNow(s)), [c], 0, 0); }
    IdleMomentSafe(s, [c], p);
  }

  lemma FoundCopying(s: Store, c: Contents, p: Promise)
    requires Recovers(Disk.Files(DbNow(s), LogNow(s)), c) && (p != Nothing ==> Durable(s, c)) && Overlay(LogNow(s)) != map[]
    ensures Copying(s, [c], Overlay(LogNow(s)), p)
  {
    hide Holds, Overlay, Tidy, QuietLog, QuietDb;
  }

  lemma FoundResting(s: Store, c: Contents, p: Promise)
    requires Recovers(Disk.Files(DbNow(s), LogNow(s)), c) && (p != Nothing ==> Durable(s, c)) && Overlay(LogNow(s)) == map[]
    ensures Resting(s, [c], map[], p)
  {
    hide Holds, Overlay, Tidy, QuietLog, QuietDb;
  }

  lemma RedoneTrace(s: Store, ov: map<PageId, Image>, ids: seq<PageId>, n: nat, gen: nat)
    requires ov != map[]
    ensures RecoveryTrace(s, ov, ids, n, gen) == [Moment(s, None, 0, 0)] + CopyTrace(s, Redone(DbNow(s), ov, ids, n), gen, 0)
  {
  }

  lemma EmptyTrace(s: Store, n: nat, gen: nat)
    ensures PagesOf(map[], [])
    ensures RecoveryTrace(s, map[], [], n, gen) ==
            [Moment(s, None, 0, 0)] + if LogNow(s).header.Some? then [Moment(s, Some(ToLog(PutHeader(gen))), 0, 0)] else []
  {
  }

  function FrameIds(frames: seq<(PageId, nat)>): (ids: seq<PageId>)
    ensures |ids| == |frames|
  {
    seq(|frames|, i requires 0 <= i < |frames| => frames[i].0)
  }

  lemma FramesPages(frames: seq<(PageId, nat)>, ov: map<PageId, Image>)
    requires (forall i, j | 0 <= i < j < |frames| :: frames[i].0 < frames[j].0) && forall id :: id in ov <==> id in Pages(frames)
    ensures PagesOf(ov, FrameIds(frames))
  {
    var ids := FrameIds(frames);
    forall id | id in ov ensures id in ids {
      var j :| 0 <= j < |frames| && frames[j].0 == id;
      assert ids[j] == id;
    }
    forall i | 0 <= i < |ids| ensures ids[i] in ov { assert frames[i].0 in Pages(frames); }
  }

  lemma FrameIdAt(frames: seq<(PageId, nat)>, ov: map<PageId, Image>, i: nat)
    requires i < |frames| && PagesOf(ov, FrameIds(frames))
    ensures FrameIds(frames)[i] == frames[i].0 && frames[i].0 in ov
  {
    assert FrameIds(frames)[i] in ov;
  }

  lemma WholeIds(ids: seq<PageId>) ensures ids[..|ids|] == ids {}

  /** The first `n` pages are in place. */
  ghost predicate Copied(db: seq<Block>, ov: map<PageId, Image>, ids: seq<PageId>, n: nat) {
    n <= |ids| && forall i | 0 <= i < n :: ids[i] in ov && Same(db, ids[i], ov[ids[i]])
  }

  lemma NoneCopied(db: seq<Block>, ov: map<PageId, Image>, ids: seq<PageId>) ensures Copied(db, ov, ids, 0) {}

  lemma OneCopied(db: seq<Block>, ov: map<PageId, Image>, ids: seq<PageId>, n: nat)
    requires Copied(db, ov, ids, n) && n < |ids| && PagesOf(ov, ids)
    ensures ids[n] in ov && Copied(ApplyDb(db, PutBlock(ids[n], ov[ids[n]])), ov, ids, n + 1)
  {
  }

  lemma CopiedWhole(db: seq<Block>, ov: map<PageId, Image>, ids: seq<PageId>)
    requires Copied(db, ov, ids, |ids|) && PagesOf(ov, ids)
    ensures forall id | id in ov :: id < |db| && db[id] == ov[id]
  {
    forall id | id in ov ensures id < |db| && db[id] == ov[id] {
      var i :| 0 <= i < |ids| && ids[i] == id;
      assert Same(db, ids[i], ov[ids[i]]);
    }
  }

  lemma {:induction false} NothingYet(s: Store, ov: map<PageId, Image>, ids: seq<PageId>, k: nat, t: seq<Moment>)
    ensures AfterDb(s, Copies(ov, ids[..0])) == s && t + DbMoments(s, Copies(ov, ids[..0]), k) == t
  {
    assert s.dbQueue + [] == s.dbQueue;
  }

  /** The copying and the growing together. */
  lemma {:induction false} RedoneIs(s: Store, ov: map<PageId, Image>, ids: seq<PageId>, n: nat, db: seq<Block>, copied: seq<DbWrite>, ws: seq<DbWrite>, k: nat)
    requires copied == Copies(ov, ids) && db == DbNow(AfterDb(s, copied)) && ws == Redone(DbNow(s), ov, ids, n)
    ensures |db| < n ==> ws == copied + [Grow(n)]
                         && DbMoments(s, ws, k) == DbMoments(s, copied, k) + [Moment(AfterDb(s, copied), Some(ToDb(Grow(n))), k, k)]
                         && AfterDb(s, ws) == Issue(AfterDb(s, copied), ToDb(Grow(n)))
    ensures |db| >= n ==> ws == copied
  {
    AfterDbNow(s, copied);
    DbMomentsNext(s, copied, Grow(n), k);
    assert copied + [] == copied;
  }

  lemma {:induction false} FinishedTrace(t0: seq<Moment>, t1: seq<Moment>, t2: seq<Moment>, s: Store, ws: seq<DbWrite>, gen: nat, k: nat, off: bool)
    requires t1 == t0 + DbMoments(s, ws, k)
    requires t2 == t1 + [Moment(if off then AfterDb(s, ws) else DbSynced(AfterDb(s, ws)), Some(ToLog(PutHeader(gen))), k, k)]
    ensures t0 <= t2 && (!off ==> t2 == t0 + CopyTrace(s, ws, gen, k))
  {
  }

  /** The meta page a recovery ends with is the log's, if it commits any. */
  lemma MetaInForce(db: seq<Block>, ov: map<PageId, Image>, c: Contents)
    requires Holds(db, ov, c)
    ensures ov == map[] ==> MetaOf(db) == c.meta && Holds(db, map[], c)
    ensures ov != map[] ==> 0 in ov && ov[0] == MetaImage(c.meta)
  {
  }

  lemma RestingRecovers(s: Store, h: seq<Contents>, ov: map<PageId, Image>, p: Promise)
    requires Resting(s, h, ov, p)
    ensures Recovers(Disk.Files(DbNow(s), LogNow(s)), h[|h| - 1])
    ensures p != Nothing ==> s.dbQueue == [] && PowerSafe(s, h, Floor(p, |h| - 1), |h| - 1)
  {
  }

  lemma RestingHolds(s: Store, h: seq<Contents>, ov: map<PageId, Image>, p: Promise)
    requires Resting(s, h, ov, p)
    ensures Holds(DbNow(s), ov, h[|h| - 1])
  {
  }

  lemma RestingQuiet(s: Store, h: seq<Contents>, ov: map<PageId, Image>, p: Promise)
    requires Resting(s, h, ov, p)
    ensures p.Everything? && ov != map[] ==> QuietLog(s, ov)
  {
  }

  /** Syncing the database file when nothing is being copied. */
  lemma SyncedDb(s: Store, h: seq<Contents>, ov: map<PageId, Image>, p: Promise)
    requires Resting(s, h, ov, p)
    ensures Resting(s.(dbSafe := DbNow(s), dbQueue := []), h, ov, p)
  {
    if p != Nothing { assert s.(dbSafe := DbNow(s), dbQueue := []) == s; }
    else { assert DbNow(s.(dbSafe := DbNow(s), dbQueue := [])) == DbNow(s); }
  }

  lemma InProgressMeta(pend: map<PageId, Image>, meta: Meta, meta': Meta)
    requires InProgress(pend, meta) && meta.pageCount <= meta'.pageCount
    ensures InProgress(pend, meta')
  {
  }

  lemma InProgressNone(meta: Meta) ensures InProgress(map[], meta) {}
}
