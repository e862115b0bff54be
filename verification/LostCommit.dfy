/** A run that loses a commit it acknowledged as durable: the header of a log begun anew is
    not synced, and the frames that follow are written over those the old header still
    commits (src/wal.cpp:180-186, 104-126). */
module LostCommit {
  import opened Wrappers
  import opened Disk
  import opened Recovery
  import opened Crash
  import opened Redoing
  import opened Unordered
  import opened WriteAheadLog
  import opened PageStore
  import opened PowerLoss
  import Reopen

  const FRESH := Meta(1, 0, 0, 0, 0)
  const PLAIN := Meta(3, 0, 0, 0, 0)
  const ROOTED := Meta(3, 0, 1, 0, 0)

  /** Two empty pages; and then the first of them written, and made the root. */
  function FirstCommit(): Contents { Contents(PLAIN, map[1 := ZERO_PAGE, 2 := ZERO_PAGE]) }
  function SecondCommit(page: Page): Contents { Contents(ROOTED, map[1 := page, 2 := ZERO_PAGE]) }

  /** The log once the first commit is synced, and once both are. */
  function OneLogged(): Log { Log(Some(7), [Frame(0, 7, true, MetaImage(PLAIN))]) }

  function BothLogged(page: Page): Log {
    Log(Some(7), [Frame(0, 7, true, MetaImage(PLAIN)), Frame(1, 7, false, PageImage(page)), Frame(0, 7, true, MetaImage(ROOTED))])
  }

  /** What a session knows of the log between transactions. */
  lemma RestingWal(w: Wal)
    requires w.Valid() && w.pending == map[]
    ensures w.end == w.commitEnd == CommitEnd(w.Now()) && (w.headerOk <==> w.Now().header.Some?)
    ensures w.headerOk ==> w.generation == w.Now().header.value
    ensures w.end == 0 ==> w.committed == map[] && w.View() == map[]
    ensures (w.end > 0 ==> w.committed != map[]) && (w.queue == [] ==> w.Now() == w.safe)
  {
    if w.commitEnd < w.end {
      PendingAt(w.Now().slots, w.generation, w.commitEnd, w.end, w.pending, w.commitEnd);
      assert false;
    }
    LatestIs(w.Now().slots, w.commitEnd);
    if w.headerOk { SettledEnd(w.Now(), w.generation, w.commitEnd); }
    LatestNone(w.Now().slots);
  }

  lemma PendingAt(slots: seq<Slot>, gen: nat, commitEnd: nat, end: nat, pending: map<PageId, nat>, k: nat)
    requires commitEnd <= k < end <= |slots| && PendingIndexed(slots, gen, commitEnd, end, pending)
    ensures pending != map[]
  {
    assert slots[k].id in pending;
  }

  lemma {:induction false} FrameRun(safe: Log, headerOk: bool, gen: nat, slot: nat, f: Slot)
    ensures RunLog(safe, FrameWrites(headerOk, gen, slot, f)) == ApplyLog(if headerOk then safe else Headed(safe, gen), PutSlot(slot, f))
  {
    assert [PutSlot(slot, f)][..0] == [] && [PutHeader(gen), PutSlot(slot, f)][..1] == [PutHeader(gen)] && [PutHeader(gen)][..0] == [];
    assert RunLog(safe, [PutHeader(gen)]) == Headed(safe, gen);
  }

  lemma EmptySpare(p: Pager)
    requires |p.Db()| <= p.meta.pageCount && p.wal.View() == map[]
    ensures p.Spare() == ZERO_PAGE
  {
  }

  method AllocateTwo(p: Pager)
    requires p.Valid() && p.Current() == Contents(FRESH, map[]) && |p.Db()| == 1 && p.wal.View() == map[]
    modifies p`meta, p`metaDirty
    ensures p.Valid() && p.Current() == FirstCommit() && p.InTransaction() && p.meta == PLAIN && p.history == old(p.history)
  {
    hide Pager.Valid, ContentsOf, Wal.View, RunDb, PageAt;
    p.PagesInRange();
    EmptySpare(p);
    var id := p.AllocatePage();
    p.PagesInRange();
    EmptySpare(p);
    id := p.AllocatePage();
    p.PagesInRange();
    assert p.Current().pages == FirstCommit().pages;
  }

  /** A session that syncs every commit: two pages are allocated and committed. */
  method CommitPages() returns (p: Pager)
    ensures fresh(p) && fresh(p.wal) && p.Valid() && p.Syncing() && p.checkpointFrames == 1000 && !p.InTransaction()
    ensures p.history == [Contents(FRESH, map[]), FirstCommit()] && p.Current() == FirstCommit()
    ensures p.wal.safe == OneLogged() && p.wal.queue == []
  {
    hide Recovers, RunLog, RunDb, ContentsOf, CommitsBefore, Pager.Valid, Resting, Durable, RecoveryTrace, Overlay, PagesOf, Wal.View, Wal.Valid, FrameWrites;
    Reopen.NewDatabase(FRESH);
    p := new Pager([MetaImage(FRESH)], [], Log(None, []), [], 7, Full, Contents(FRESH, map[]));
    WalOf(p);
    RestingWal(p.wal);
    AllocateTwo(p);
    FrameRun(Log(None, []), false, 7, 0, Frame(0, 7, true, MetaImage(PLAIN)));
    ghost var ws := p.CommitWrites();
    assert ws == FrameWrites(false, 7, 0, Frame(0, 7, true, MetaImage(PLAIN))) && p.wal.queue + ws == ws;
    p.Commit();
    assert p.wal.safe == RunLog(Log(None, []), FrameWrites(false, 7, 0, Frame(0, 7, true, MetaImage(PLAIN))));
  }

  lemma WalOf(p: Pager) requires p.Valid() ensures p.wal.Valid() {}

  lemma LoggedEnds(page: Page)
    ensures CommitEnd(OneLogged()) == 1 && CommitEnd(BothLogged(page)) == 3
  {
    var slots := BothLogged(page).slots;
    assert ScanEnd(slots, 7, 1) == 3;
    assert LastCommit(slots, 3) == 3;
  }

  /** The log with the second transaction's page, and then its commit. */
  lemma SecondRun(page: Page)
    ensures var ws := FrameWrites(true, 7, 1, Frame(1, 7, false, PageImage(page))) + FrameWrites(true, 7, 2, Frame(0, 7, true, MetaImage(ROOTED)));
            RunLog(OneLogged(), ws) == BothLogged(page)
  {
    var f, g := Frame(1, 7, false, PageImage(page)), Frame(0, 7, true, MetaImage(ROOTED));
    RunLogAppend(OneLogged(), FrameWrites(true, 7, 1, f), FrameWrites(true, 7, 2, g));
    FrameRun(OneLogged(), true, 7, 1, f);
    FrameRun(ApplyLog(OneLogged(), PutSlot(1, f)), true, 7, 2, g);
  }

  /** The first page is written and made the root. */
  method WriteRoot(p: Pager, page: Page)
    requires p.Valid() && p.Current() == FirstCommit() && page.id == 1
    requires p.wal.pending == map[] && p.wal.headerOk && p.wal.queue == []
    modifies p`meta, p`metaDirty, p`trace, p.wal
    ensures p.Valid() && p.InTransaction() && p.Current() == SecondCommit(page) && p.meta == ROOTED && p.history == old(p.history)
    ensures p.wal.safe == old(p.wal.safe) && p.wal.generation == old(p.wal.generation)
    ensures p.wal.headerOk && p.wal.end == old(p.wal.end) + 1
    ensures p.wal.queue == FrameWrites(true, p.wal.generation, old(p.wal.end), Frame(1, p.wal.generation, false, PageImage(page)))
  {
    hide RunDb, RunLog, ContentsOf, Pager.Valid, FrameWrites;
    p.PagesInRange();
    p.WritePage(1, page);
    p.PagesInRange();
    p.SetBtreeRoot(1);
    p.PagesInRange();
    assert p.Current().pages == SecondCommit(page).pages;
  }

  /** And that is committed. */
  method CommitRoot(p: Pager, page: Page)
    requires p.Valid() && p.Syncing() && p.checkpointFrames == 1000 && !p.InTransaction() && page.id == 1
    requires p.Current() == FirstCommit() && p.wal.safe == OneLogged() && p.wal.queue == []
    modifies p, p.wal
    ensures p.Valid() && p.Syncing() && !p.InTransaction() && p.Current() == SecondCommit(page)
    ensures p.history == old(p.history) + [SecondCommit(page)]
    ensures p.wal.safe == BothLogged(page) && p.wal.queue == []
  {
    hide RunLog, RunDb, ContentsOf, Pager.Valid, Overlay, Wal.View, Wal.Valid, FrameWrites, CommitEnd, Pager.CommitTrace;
    WalOf(p);
    RestingWal(p.wal);
    LoggedEnds(page);
    WriteRoot(p, page);
    SecondRun(page);
    ghost var ws := p.CommitWrites();
    assert ws == FrameWrites(true, 7, 2, Frame(0, 7, true, MetaImage(ROOTED)));
    p.Commit();
  }

  /** Both are copied into the file, the file is synced, and the log begun anew; and the next
      transaction writes two pages into it. */
  method BeginThird(p: Pager, page: Page, x: Page, y: Page)
    requires p.Valid() && p.Syncing() && !p.InTransaction() && p.Current() == SecondCommit(page)
    requires p.wal.safe == BothLogged(page) && p.wal.queue == [] && x.id == 1 && y.id == 2
    modifies p, p.wal
    ensures p.Valid() && p.Syncing() && p.history == old(p.history)
    ensures p.wal.safe == BothLogged(page) && PutSlot(1, Frame(2, 8, false, PageImage(y))) in p.wal.queue
    ensures p.wal.generation == 8
  {
    hide RunLog, RunDb, ContentsOf, Pager.Valid, Overlay, Wal.View, Wal.Valid, FrameWrites, CommitEnd;
    WalOf(p);
    RestingWal(p.wal);
    LoggedEnds(page);
    p.PagesInRange();
    p.Checkpoint();
    p.WritePage(1, x);
    ghost var q := p.wal.queue;
    p.WritePage(2, y);
    LastFrame(q, 8, 1, Frame(2, 8, false, PageImage(y)));
  }

  lemma LastFrame(q: seq<LogWrite>, gen: nat, slot: nat, f: Slot) ensures PutSlot(slot, f) in q + FrameWrites(true, gen, slot, f) {}

  /** Of that transaction's writes only its second frame survives: under the old header the
      scan finds the first commit, and stops. */
  lemma SecondFrameLeft(page: Page, y: Page)
    ensures Overlay(ApplyLog(BothLogged(page), PutSlot(1, Frame(2, 8, false, PageImage(y))))) == map[0 := MetaImage(PLAIN)]
  {
    var log := ApplyLog(BothLogged(page), PutSlot(1, Frame(2, 8, false, PageImage(y))));
    assert ScanEnd(log.slots, 7, 1) == 1;
    assert LastCommit(log.slots, 1) == 1;
    assert CommitEnd(log) == 1;
    assert Latest(log.slots, 0) == map[];
  }

  /** Pages of one commit under the meta page of another. */
  function Mixed(page: Page): Contents { SecondCommit(page).(meta := PLAIN) }

  lemma MixedFound(db: seq<Block>, page: Page)
    requires Holds(db, map[], SecondCommit(page))
    ensures Found(db, map[0 := MetaImage(PLAIN)]) == Some(Mixed(page))
  {
    HoldsContents(db, map[], SecondCommit(page));
    assert ContentsOf(db, map[0 := MetaImage(PLAIN)], PLAIN).pages == SecondCommit(page).pages;
  }

  /** Two transactions are committed, each synced before it is acknowledged, and the power
      fails in the third: what opening then finds is no commit at all. */
  method LostAcknowledged(page: Page, x: Page, y: Page) returns (p: Pager, ghost d: Files)
    requires page.id == 1 && x.id == 1 && y.id == 2
    ensures p.Valid() && p.Syncing() && p.history == [Contents(FRESH, map[]), FirstCommit(), SecondCommit(page)]
    ensures AnyPowerLeaves(p.Files(), d) && Finds(d, Mixed(page)) && forall c | c in p.history :: !Finds(d, c)
  {
    hide RunLog, RunDb, ContentsOf, Pager.Valid, Overlay, Wal.View, Wal.Valid, Holds, AnyLog, Found, SessionOf;
    p := CommitPages();
    CommitRoot(p, page);
    BeginThird(p, page, x, y);
    SafeHolds(p);
    ghost var w := PutSlot(1, Frame(2, 8, false, PageImage(y)));
    OnlyOne(p.wal.safe, p.wal.queue, w);
    d := Files(p.dbSafe, ApplyLog(p.wal.safe, w));
    SecondFrameLeft(page, y);
    MixedFound(p.dbSafe, page);
    assert Mixed(page) != FirstCommit() && Mixed(page) != SecondCommit(page) by { assert Mixed(page).pages[1] == page != ZERO_PAGE; }
  }
}
