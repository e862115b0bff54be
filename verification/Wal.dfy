/** The write-ahead log (src/wal.cpp). */
module WriteAheadLog {
  import opened Wrappers
  import opened Disk
  import opened Recovery
  import opened Unordered

  lemma PutOver<K, V>(a: map<K, V>, b: map<K, V>, k: K, v: V) ensures a + b[k := v] == (a + b)[k := v] {}

  function SlotFor(pending: map<PageId, nat>, end: nat, id: PageId): nat { if id in pending then pending[id] else end }

  /** What the writer's fields say of the log file. */
  ghost predicate Indexed(log: Log, headerOk: bool, gen: nat, commitEnd: nat, end: nat,
                          committed: map<PageId, nat>, pending: map<PageId, nat>) {
    Opened(log, headerOk, gen, commitEnd) && Indices(log, headerOk, gen, commitEnd, end, committed, pending)
  }

  /** The same, just after a scan. */
  ghost predicate IndexedFound(log: Log, headerOk: bool, gen: nat, commitEnd: nat, end: nat,
                        committed: map<PageId, nat>, pending: map<PageId, nat>) {
    Scanned(log, headerOk, gen, commitEnd) && Indices(log, headerOk, gen, commitEnd, end, committed, pending)
  }

  ghost predicate Indices(log: Log, headerOk: bool, gen: nat, commitEnd: nat, end: nat,
                          committed: map<PageId, nat>, pending: map<PageId, nat>) {
    && (!headerOk ==> end == 0)
    && commitEnd <= end <= |log.slots|
    && committed == Latest(log.slots, commitEnd)
    && PendingIndexed(log.slots, gen, commitEnd, end, pending)
  }

  /** Every slot past the last commit is one pending page's, and the other way
      round. */
  ghost predicate PendingIndexed(slots: seq<Slot>, gen: nat, commitEnd: nat, end: nat, pending: map<PageId, nat>)
    requires end <= |slots|
  {
    && (forall k | commitEnd <= k < end ::
          ValidFrame(slots[k], gen) && slots[k].id in pending && pending[slots[k].id] == k)
    && (forall id | id in pending ::
          id != 0 && commitEnd <= pending[id] < end && slots[pending[id]].Frame? &&
          slots[pending[id]].id == id && slots[pending[id]].image.PageImage?)
  }

  lemma PendingWritten(slots: seq<Slot>, gen: nat, commitEnd: nat, end: nat, pending: map<PageId, nat>,
                       id: PageId, page: Page)
    requires commitEnd <= end <= |slots| && PendingIndexed(slots, gen, commitEnd, end, pending) && id != 0
    ensures var slot := if id in pending then pending[id] else end;
            var end' := if id in pending then end else end + 1;
            var slots' := SetSlot(slots, slot, Frame(id, gen, false, PageImage(page)));
            PendingIndexed(slots', gen, commitEnd, end', pending[id := slot]) &&
            Images(slots', pending[id := slot]) == Images(slots, pending)[id := PageImage(page)]
  {
    var slot := if id in pending then pending[id] else end;
    var slots' := SetSlot(slots, slot, Frame(id, gen, false, PageImage(page)));
    forall x | x in pending && x != id ensures pending[x] != slot && slots'[pending[x]] == slots[pending[x]] {
      assert slots[pending[x]].id == x;
    }
  }

  lemma {:induction false} CommittedKept(s: seq<Slot>, t: seq<Slot>, c: nat)
    requires c <= |s| && c <= |t| && s[..c] == t[..c]
    ensures Latest(s, c) == Latest(t, c)
    ensures Images(s, Latest(s, c)) == Images(t, Latest(t, c))
  {
    forall k | 0 <= k < c ensures s[k] == t[k] { assert s[..c][k] == t[..c][k]; }
    LatestSame(s, t, c);
  }

  /** One page written, as the files and the fields see it. */
  lemma WriteStep(log: Log, headerOk: bool, gen: nat, commitEnd: nat, end: nat,
                  committed: map<PageId, nat>, pending: map<PageId, nat>, id: PageId, page: Page)
    requires Indexed(log, headerOk, gen, commitEnd, end, committed, pending) && id != 0
    ensures var slot := if id in pending then pending[id] else end;
            var end' := if id in pending then end else end + 1;
            var ws := FrameWrites(headerOk, gen, slot, Frame(id, gen, false, PageImage(page)));
            var log' := RunLog(log, ws);
            Indexed(log', true, gen, commitEnd, end', committed, pending[id := slot]) &&
            Images(log'.slots, committed) == Images(log.slots, committed) &&
            Images(log'.slots, pending[id := slot]) == Images(log.slots, pending)[id := PageImage(page)] &&
            Harmless(log, ws, Overlay(log)) && LogIs(log', Overlay(log))
  {
    hide LogIs, Overlay, PendingIndexed, Settled, Images, Latest, Harmless;
    var slot := if id in pending then pending[id] else end;
    var frame := Frame(id, gen, false, PageImage(page));
    PendingSlot(log.slots, gen, commitEnd, end, pending, id);
    PendingWritten(log.slots, gen, commitEnd, end, pending, id, page);
    FrameHarmless(log, headerOk, gen, commitEnd, slot, frame);
    OpenedHead(log, headerOk, gen, commitEnd);
    PutSlotKeeps(Headed(log, gen), gen, commitEnd, slot, frame);
    var log' := ApplyLog(Headed(log, gen), PutSlot(slot, frame));
    assert log'.slots[..commitEnd] == log.slots[..commitEnd];
    CommittedKept(log.slots, log'.slots, commitEnd);
  }

  lemma PendingSlot(slots: seq<Slot>, gen: nat, commitEnd: nat, end: nat, pending: map<PageId, nat>, id: PageId)
    requires commitEnd <= end <= |slots| && PendingIndexed(slots, gen, commitEnd, end, pending)
    ensures id in pending ==> commitEnd <= pending[id] < end
  {
  }

  /** The latest version of each page is the pending one, else the committed. */
  lemma {:induction false} LatestWithPending(slots: seq<Slot>, gen: nat, commitEnd: nat, end: nat, pending: map<PageId, nat>)
    requires commitEnd <= end <= |slots| && PendingIndexed(slots, gen, commitEnd, end, pending)
    ensures Latest(slots, end) == Latest(slots, commitEnd) + pending
  {
    var all, old_ := Latest(slots, end), Latest(slots, commitEnd);
    LatestIs(slots, end);
    LatestIs(slots, commitEnd);
    forall id ensures id in all <==> id in old_ || id in pending {
      if id in all { assert slots[all[id]].id == id; }
      if id in old_ { assert slots[old_[id]].id == id; }
      if id in pending { assert slots[pending[id]].id == id; }
    }
    forall id | id in all ensures all[id] == (old_ + pending)[id] {
      var k := all[id];
      assert slots[k].id == id;
      if id in pending { assert slots[pending[id]].id == id; }
      else { assert slots[old_[id]].id == id; }
    }
  }

  /** The commit frame written, as the files and the fields see it. */
  lemma {:induction false} CommitStep(log: Log, headerOk: bool, gen: nat, commitEnd: nat, end: nat,
                   committed: map<PageId, nat>, pending: map<PageId, nat>, meta: Meta)
    requires Indexed(log, headerOk, gen, commitEnd, end, committed, pending)
    ensures var ws := FrameWrites(headerOk, gen, end, Frame(0, gen, true, MetaImage(meta)));
            var log' := RunLog(log, ws);
            var committed' := (committed + pending)[0 := end];
            Indexed(log', true, gen, end + 1, end + 1, committed', map[]) &&
            Images(log'.slots, map[]) == map[] &&
            Images(log'.slots, committed') ==
              (Images(log.slots, committed) + Images(log.slots, pending))[0 := MetaImage(meta)] &&
            Harmless(log, ws, Overlay(log))
  {
    hide LogIs, Overlay, Settled, Harmless, Images;
    var frame := Frame(0, gen, true, MetaImage(meta));
    FrameHarmless(log, headerOk, gen, commitEnd, end, frame);
    OpenedHead(log, headerOk, gen, commitEnd);
    PutCommit(Headed(log, gen), gen, commitEnd, end, MetaImage(meta));
    var log' := ApplyLog(Headed(log, gen), PutSlot(end, frame));
    LatestWithPending(log.slots, gen, commitEnd, end, pending);
    assert log'.slots[..end] == log.slots[..end];
    CommittedKept(log.slots, log'.slots, end);
    CommittedImages(log, log', end, frame, committed, pending);
    NoImages(log'.slots);
  }

  lemma NoImages(slots: seq<Slot>) ensures Images(slots, map[]) == map[] {}

  lemma CommittedImages(log: Log, log': Log, end: nat, frame: Slot,
                        committed: map<PageId, nat>, pending: map<PageId, nat>)
    requires end <= |log.slots| && log'.slots == SetSlot(log.slots, end, frame) && frame.Frame?
    requires forall id | id in committed :: committed[id] < end && log.slots[committed[id]].Frame?
    requires forall id | id in pending :: pending[id] < end && log.slots[pending[id]].Frame?
    ensures Images(log'.slots, (committed + pending)[0 := end]) ==
            (Images(log.slots, committed) + Images(log.slots, pending))[0 := frame.image]
  {
  }

  lemma ResetStep(log: Log, headerOk: bool, gen: nat, commitEnd: nat, end: nat, committed: map<PageId, nat>)
    requires IndexedFound(log, headerOk, gen, commitEnd, end, committed, map[])
    ensures var log' := ApplyLog(log, PutHeader(gen + 1));
            Indexed(log', true, gen + 1, 0, 0, map[], map[]) && Images(log'.slots, map[]) == map[] &&
            LogIs(TearLog(log, PutHeader(gen + 1)), map[]) && LogIs(log', map[])
  {
    hide Latest, LogIs;
    assert CommitsBefore(log, gen + 1);
    PutHeaderKeeps(log, gen + 1);
    LatestNone(log.slots);
  }

  lemma TruncateStep(gen: nat)
    ensures Indexed(Log(None, []), false, gen, 0, 0, map[], map[]) && Images([], map[]) == map[]
  {
    LatestNone([]);
  }

  lemma {:induction false} LatestNone(slots: seq<Slot>)
    ensures Latest(slots, 0) == map[]
  {
  }

  /** What a finished scan of a tidy log makes of the fields. */
  lemma RecoverDone(log: Log, headerOk: bool, gen: nat)
    requires headerOk == log.header.Some? && (headerOk ==> gen == log.header.value)
    requires Tidy(log) && (!headerOk ==> CommitsBefore(log, gen))
    ensures var c := CommitEnd(log);
            IndexedFound(log, headerOk, gen, c, c, Latest(log.slots, c), map[]) &&
            Images(log.slots, Latest(log.slots, c)) == Overlay(log) && Images(log.slots, map[]) == map[] &&
            (c == 0 <==> Overlay(log) == map[])
  {
    var c := CommitEnd(log);
    if c == 0 {
      LatestNone(log.slots);
    } else {
      LatestIs(log.slots, c);
      LastCommitIs(log.slots, ScanEnd(log.slots, gen, 0));
      assert log.slots[c - 1].id in Overlay(log);
    }
  }

  /** A log without a header is ready to be written. */
  lemma RecoverNone(log: Log, gen: nat)
    requires log.header.None? && CommitsBefore(log, gen)
    ensures Indexed(log, false, gen, 0, 0, map[], map[]) && SessionOf(log, [], gen, 0)
  {
    SessionSynced(log, false, gen, 0);
    LatestNone(log.slots);
  }

  lemma {:induction false} ScanNone(slots: seq<Slot>)
    ensures LastCommit(slots, 0) == 0 && Latest(slots, 0) == map[]
  {
  }

  lemma ScanNext(slots: seq<Slot>, gen: nat, i: nat)
    requires i < |slots| && ValidFrame(slots[i], gen)
    ensures ScanEnd(slots, gen, i) == ScanEnd(slots, gen, i + 1)
    ensures LastCommit(slots, i + 1) == if slots[i].commit then i + 1 else LastCommit(slots, i)
    ensures Latest(slots, i + 1) == Latest(slots, i)[slots[i].id := i]
  {
  }

  lemma {:induction false} ScanStops(slots: seq<Slot>, gen: nat, i: nat)
    requires i <= |slots| && (i < |slots| ==> !ValidFrame(slots[i], gen))
    ensures ScanEnd(slots, gen, i) == i
  {
  }

  class Wal {
    // The file: its content as of the last sync, and the writes since.
    var safe: Log
    var queue: seq<LogWrite>

    var generation: nat
    var headerOk: bool
    var end: nat
    var commitEnd: nat
    var committed: map<PageId, nat>
    var pending: map<PageId, nat>

    function Now(): Log reads this { RunLog(safe, queue) }

    ghost predicate Valid() reads this {
      Indexed(Now(), headerOk, generation, commitEnd, end, committed, pending)
    }

    /** Read back, but not yet to be written. */
    ghost predicate Opened() reads this {
      IndexedFound(Now(), headerOk, generation, commitEnd, end, committed, pending)
    }

    /** Every commit is synced: see `SessionOf`. */
    ghost predicate Session() reads this { SessionOf(safe, queue, generation, commitEnd) }

    lemma ValidIsOpened()
      requires Valid()
      ensures Opened()
    {
      OpenedScanned(Now(), headerOk, generation, commitEnd);
    }

    /** What the log has committed. */
    ghost function Committed(): map<PageId, Image> reads this {
      Images(Now().slots, committed)
    }

    /** What the transaction in progress has written. */
    ghost function Written(): map<PageId, Image> reads this {
      Images(Now().slots, pending)
    }

    /** The newest version of every page the log holds. */
    ghost function View(): map<PageId, Image> reads this {
      Committed() + Written()
    }

    lemma CommittedIsOverlay()
      requires Opened()
      ensures LogIs(Now(), Committed()) && Overlay(Now()) == Committed()
      ensures committed == map[] <==> Committed() == map[]
      ensures Committed() != map[] ==> 0 in Committed()
      ensures forall id | id in Committed() :: Committed()[id].MetaImage? <==> id == 0
    {
      var log := Now();
      if commitEnd == 0 { assert Latest(log.slots, 0) == map[]; }
      else {
        LatestIs(log.slots, commitEnd);
        LastCommitIs(log.slots, ScanEnd(log.slots, generation, 0));
        assert log.slots[commitEnd - 1].id == 0;
        assert 0 in Committed();
      }
      forall id | id in committed ensures Typed(log.slots[committed[id]]) {}
    }

    lemma CommittedAt(id: PageId)
      requires Opened()
      ensures id in committed <==> id in Committed()
      ensures id in committed ==> committed[id] < |Now().slots| && Now().slots[committed[id]].Frame? &&
                                  Now().slots[committed[id]].image == Committed()[id]
    {
    }

    /** Open the log found in a file. Without a usable header, `drawn` is drawn:
        it and its successors are the generation of no frame in the file. */
    constructor (safe: Log, queue: seq<LogWrite>, drawn: nat)
      requires CommitsBefore(RunLog(safe, queue), drawn)
      ensures this.safe == safe && this.queue == queue
      ensures headerOk == RunLog(safe, queue).header.Some?
      ensures generation == if headerOk then RunLog(safe, queue).header.value else drawn
      ensures end == commitEnd == 0 && committed == pending == map[]
    {
      this.safe := safe;
      this.queue := queue;
      headerOk := RunLog(safe, queue).header.Some?;
      generation := if RunLog(safe, queue).header.Some? then RunLog(safe, queue).header.value else drawn;
      end, commitEnd := 0, 0;
      committed, pending := map[], map[];
    }

    method WriteHeader()
      modifies this`queue, this`headerOk
      ensures queue == old(queue) + [PutHeader(generation)] && headerOk
    {
      queue := queue + [PutHeader(generation)];
      headerOk := true;
    }

    method WriteFrame(slot: nat, id: PageId, commit: bool, image: Image) returns (ghost ws: seq<LogWrite>)
      modifies this`queue, this`headerOk
      ensures ws == FrameWrites(old(headerOk), generation, slot, Frame(id, generation, commit, image))
      ensures queue == old(queue) + ws && headerOk && 1 <= |ws| <= 2
    {
      ws := [];
      if !headerOk { WriteHeader(); ws := [PutHeader(generation)]; }
      queue := queue + [PutSlot(slot, Frame(id, generation, commit, image))];
      ws := ws + [PutSlot(slot, Frame(id, generation, commit, image))];
    }
  
    /** `page` becomes the transaction's version of page `id`, in its slot if it
        has one already. */
    method Write(id: PageId, page: Page) returns (ghost ws: seq<LogWrite>)
      requires Valid() && id != 0
      modifies this`queue, this`headerOk, this`end, this`pending
      ensures Valid() && queue == old(queue) + ws
      ensures Written() == old(Written())[id := PageImage(page)]
      ensures View() == old(View())[id := PageImage(page)]
      ensures Committed() == old(Committed()) && commitEnd == old(commitEnd)
      ensures id in pending && pending.Keys == old(pending.Keys) + {id}
      ensures Now() == RunLog(old(Now()), ws) && LogIs(Now(), Committed())
      ensures 1 <= |ws| <= 2 && Harmless(old(Now()), ws, Committed())
      ensures ws == FrameWrites(old(headerOk), generation, SlotFor(old(pending), old(end), id), Frame(id, generation, false, PageImage(page)))
      ensures headerOk && end == if id in old(pending) then old(end) else old(end) + 1
      ensures pending == old(pending)[id := SlotFor(old(pending), old(end), id)]
      ensures old(Session()) ==> Session()
    {
      hide Settled, SetSlot, Latest, ScanEnd, LastCommit, CommitEnd, LogIs, Overlay, Indexed, Harmless, RunLog, Images, FrameWrites, SessionOf, IndexedFound;
      ValidIsOpened();
      CommittedIsOverlay();
      ghost var log0, pend0 := Now(), Images(Now().slots, pending);
      if Session() { WriteKeepsSession(id, page); }
      WriteStep(log0, headerOk, generation, commitEnd, end, committed, pending, id, page);
      ws := PutPage(id, page);
      RunLogAppend(safe, old(queue), ws);
      PutOver(Committed(), pend0, id, PageImage(page));
    }

    /** The same, whatever else is in the file. */
    method PutPage(id: PageId, page: Page) returns (ghost ws: seq<LogWrite>)
      modifies this`queue, this`headerOk, this`end, this`pending
      ensures queue == old(queue) + ws && headerOk && 1 <= |ws| <= 2
      ensures ws == FrameWrites(old(headerOk), generation, SlotFor(old(pending), old(end), id), Frame(id, generation, false, PageImage(page)))
      ensures end == (if id in old(pending) then old(end) else old(end) + 1)
      ensures pending == old(pending)[id := SlotFor(old(pending), old(end), id)]
    {
      hide FrameWrites;
      var slot := if id in pending then pending[id] else end;
      if id !in pending { end := end + 1; }
      ws := WriteFrame(slot, id, false, PageImage(page));
      pending := pending[id := slot];
    }
  
    lemma WriteKeepsSession(id: PageId, page: Page)
      requires Valid() && Session() && id != 0
      ensures SessionOf(safe, queue + FrameWrites(headerOk, generation, SlotFor(pending, end, id), Frame(id, generation, false, PageImage(page))),
                        generation, commitEnd)
    {
      PendingSlot(Now().slots, generation, commitEnd, end, pending, id);
      SessionWrites(safe, queue, headerOk, generation, commitEnd, SlotFor(pending, end, id), Frame(id, generation, false, PageImage(page)));
    }

    /** End the transaction: every pending frame and the meta page's become
        committed, durably so with `sync`. */
    method Commit(meta: Meta, sync: bool) returns (ghost ws: seq<LogWrite>)
      requires Valid()
      modifies this
      ensures Valid() && pending == map[] && Written() == map[]
      ensures Committed() == old(View())[0 := MetaImage(meta)]
      ensures Now() == RunLog(old(Now()), ws)
      ensures 1 <= |ws| <= 2 && Harmless(old(Now()), ws, old(Committed()))
      ensures if sync then safe == RunLog(old(safe), old(queue) + ws) && queue == []
              else safe == old(safe) && queue == old(queue) + ws
      ensures ws == FrameWrites(old(headerOk), generation, old(end), Frame(0, generation, true, MetaImage(meta)))
      ensures generation == old(generation) && end == commitEnd == old(end) + 1 && (sync ==> Session())
    {
      hide Settled, LogIs, Overlay, Indexed, Harmless, RunLog, Images, FrameWrites, SessionOf;
      ValidIsOpened();
      CommittedIsOverlay();
      ghost var log0 := Now();
      CommitStep(log0, headerOk, generation, commitEnd, end, committed, pending, meta);
      var slot := end;
      end := end + 1;
      ws := WriteFrame(slot, 0, true, MetaImage(meta));
      RunLogAppend(safe, old(queue), ws);
      committed := (committed + pending)[0 := slot];
      pending := map[];
      commitEnd := end;
      if sync { Sync(); }
    }

    lemma SyncedSession()
      requires Valid()
      ensures SessionOf(Now(), [], generation, commitEnd)
    {
      SessionSynced(Now(), headerOk, generation, commitEnd);
    }

    method Sync()
      modifies this`safe, this`queue
      ensures safe == old(Now()) && queue == [] && Now() == old(Now())
      ensures old(Valid()) ==> Session()
    {
      hide Indexed, SessionOf;
      if Valid() { SyncedSession(); }
      safe := Now();
      queue := [];
    }

    /** Forget the transaction: the next one reuses its slots. */
    method Rollback()
      requires Valid()
      modifies this`pending, this`end
      ensures Valid() && pending == map[] && Written() == map[] && Committed() == old(Committed()) && end == commitEnd
      ensures old(Session()) ==> Session()
    {
      pending := map[];
      end := commitEnd;
    }

    lemma ResetKeepsSession()
      requires Opened()
      ensures Session() || (queue == [] && headerOk) ==> SessionOf(safe, queue + [PutHeader(generation + 1)], generation + 1, 0)
    {
      if Session() { SessionReset(safe, queue, generation, commitEnd); }
      else if queue == [] && headerOk {
        SessionBegun(safe, generation);
        assert [] + [PutHeader(generation + 1)] == [PutHeader(generation + 1)];
      }
    }

    /** After a checkpoint: a new generation, and no frames of it. */
    method Reset() returns (ghost w: LogWrite)
      requires Opened() && pending == map[]
      modifies this`committed, this`end, this`commitEnd, this`generation, this`headerOk, this`queue
      ensures Valid() && queue == old(queue) + [w] && w == PutHeader(generation) && generation == old(generation) + 1
      ensures end == commitEnd == 0 && headerOk && (old(Session()) || (old(queue) == [] && old(headerOk)) ==> Session())
      ensures Committed() == Written() == map[] && Now() == ApplyLog(old(Now()), w)
      ensures LogIs(TearLog(old(Now()), w), map[]) && LogIs(Now(), map[])
    {
      hide Settled, LogIs, Overlay, Indexed, RunLog, Images, Latest, IndexedFound, SessionOf;
      ghost var log0 := Now();
      ResetKeepsSession();
      ResetStep(log0, headerOk, generation, commitEnd, end, committed);
      w := Begin();
      RunLogOne(safe, old(queue), w);
    }

    /** The same, whatever is in the file. */
    method Begin() returns (ghost w: LogWrite)
      modifies this`committed, this`end, this`commitEnd, this`generation, this`headerOk, this`queue
      ensures generation == old(generation) + 1 && w == PutHeader(generation) && queue == old(queue) + [w] && headerOk
      ensures committed == map[] && end == commitEnd == 0
    {
      committed := map[];
      end, commitEnd := 0, 0;
      generation := generation + 1;
      WriteHeader();
      w := PutHeader(generation);
    }

    /** At a clean close: an empty file. */
    method TruncateFile() returns (ghost w: LogWrite)
      requires Valid() && pending == map[]
      modifies this`committed, this`end, this`commitEnd, this`generation, this`headerOk, this`queue
      ensures Valid() && queue == old(queue) + [w] && w == Truncate && Committed() == Written() == map[]
      ensures Now() == ApplyLog(old(Now()), w) && LogIs(Now(), map[])
    {
      hide Settled, LogIs, Overlay, Indexed, RunLog, Images, Latest;
      TruncateStep(generation + 1);
      NothingCommitted(Log(None, []));
      committed := map[];
      end, commitEnd := 0, 0;
      queue := queue + [Truncate];
      w := Truncate;
      headerOk := false;
      generation := generation + 1;
      RunLogOne(safe, old(queue), w);
    }
  
    /** Scan the log from its first frame and keep every committed one; a
        transaction cut off before its commit frame is forgotten. */
    method Recover() returns (found: bool, transactions: nat)
      requires headerOk == Now().header.Some? && (headerOk ==> generation == Now().header.value)
      requires !headerOk ==> CommitsBefore(Now(), generation)
      requires Tidy(Now())
      modifies this`committed, this`pending, this`end, this`commitEnd
      ensures Opened() && pending == map[] && Written() == map[] && Committed() == Overlay(Now())
      ensures found == headerOk && (transactions == 0 <==> Committed() == map[]) && (transactions > 0 ==> found)
      ensures !headerOk ==> Valid() && end == 0 && (queue == [] ==> Session())
    {
      hide Settled, Overlay, LogIs, Images, CommitsBefore, PendingIndexed, Latest, ScanEnd, LastCommit, Indexed, IndexedFound, SessionOf;
      if queue == [] { assert Now() == safe; }
      if !headerOk { RecoverNone(Now(), generation); }
      RecoverDone(Now(), headerOk, generation);
      LatestNone(Now().slots);
      found, transactions := ScanLog();
    }

    /** The same, whatever is in the file. */
    method ScanLog() returns (found: bool, transactions: nat)
      modifies this`committed, this`pending, this`end, this`commitEnd
      ensures pending == map[] && found == headerOk && end == commitEnd && (transactions == 0 <==> commitEnd == 0)
      ensures commitEnd == if headerOk then LastCommit(Now().slots, ScanEnd(Now().slots, generation, 0)) else 0
      ensures committed == Latest(Now().slots, commitEnd)
    {
      hide Latest, ScanEnd, LastCommit, RunLog;
      committed, pending, transactions := map[], map[], 0;
      end, commitEnd := 0, 0;
      found := headerOk;
      LatestNone(Now().slots);
      if headerOk {
        committed, commitEnd, transactions := Scan(Now().slots, generation);
        end := commitEnd;
      }
    }

    /** The scan itself. */
    static method Scan(slots: seq<Slot>, gen: nat)
        returns (committed: map<PageId, nat>, commitEnd: nat, transactions: nat)
      ensures commitEnd == LastCommit(slots, ScanEnd(slots, gen, 0))
      ensures committed == Latest(slots, commitEnd)
      ensures transactions == 0 <==> commitEnd == 0
    {
      hide ScanEnd, LastCommit, Latest;
      var pending: map<PageId, nat> := map[];
      committed, commitEnd, transactions := map[], 0, 0;
      ScanNone(slots);
      var slot := 0;
      while slot < |slots| && ValidFrame(slots[slot], gen)
        invariant slot <= |slots|
        invariant ScanEnd(slots, gen, 0) == ScanEnd(slots, gen, slot)
        invariant commitEnd == LastCommit(slots, slot)
        invariant committed == Latest(slots, commitEnd)
        invariant committed + pending == Latest(slots, slot)
        invariant transactions == 0 <==> commitEnd == 0
      {
        var id := slots[slot].id;
        ScanNext(slots, gen, slot);
        assert (committed + pending)[id := slot] == committed + pending[id := slot];
        pending := pending[id := slot];
        if slots[slot].commit {
          committed := committed + pending;
          pending := map[];
          commitEnd := slot + 1;
          transactions := transactions + 1;
          assert committed + pending == committed;
        }
        slot := slot + 1;
      }
      ScanStops(slots, gen, slot);
    }

    /** The log's latest version of a page: the pending one, else the committed. */
    method Read(id: PageId) returns (r: Option<Image>)
      requires Opened()
      ensures r == if id in View() then Some(View()[id]) else None
    {
      var slots := Now().slots;
      assert id in committed ==> committed[id] < |slots| && slots[committed[id]].Frame?;
      if id in pending {
        r := Some(slots[pending[id]].image);
      } else if id in committed {
        r := Some(slots[committed[id]].image);
      } else {
        r := None;
      }
    }

    method ReadFrame(slot: nat) returns (image: Image)
      requires slot < |Now().slots| && Now().slots[slot].Frame?
      ensures image == Now().slots[slot].image
    {
      image := Now().slots[slot].image;
    }

    /** The committed frames, by page. */
    method CommittedFrames() returns (v: seq<(PageId, nat)>)
      ensures forall i, j | 0 <= i < j < |v| :: v[i].0 < v[j].0
      ensures forall i | 0 <= i < |v| :: v[i].0 in committed && committed[v[i].0] == v[i].1
      ensures Pages(v) == committed.Keys
    {
      hide Pages;
      v := [];
      PagesNone();
      var rest := committed.Keys;
      while rest != {}
        invariant rest <= committed.Keys && Pages(v) == committed.Keys - rest
        invariant forall i, j | 0 <= i < j < |v| :: v[i].0 < v[j].0
        invariant forall i, id | 0 <= i < |v| && id in rest :: v[i].0 < id
        invariant forall i | 0 <= i < |v| :: v[i].0 in committed && committed[v[i].0] == v[i].1
      {
        ghost var some :| some in rest;
        LeastFrom(rest, 0, some);
        var id :| id in rest && IsLeast(rest, id);
        PagesAdd(v, id, committed[id]);
        v := v + [(id, committed[id])];
        rest := rest - {id};
      }
    }
  }

  ghost function Pages(v: seq<(PageId, nat)>): set<PageId> { set i | 0 <= i < |v| :: v[i].0 }

  lemma PagesNone() ensures Pages([]) == {} {}

  lemma PagesAdd(v: seq<(PageId, nat)>, id: PageId, slot: nat)
    ensures Pages(v + [(id, slot)]) == Pages(v) + {id}
  {
    var w := v + [(id, slot)];
    forall x | x in Pages(v) + {id} ensures x in Pages(w) {
      if x == id { assert w[|v|].0 == id; }
      else { var i :| 0 <= i < |v| && v[i].0 == x; assert w[i].0 == x; }
    }
  }

  predicate IsLeast(s: set<nat>, m: nat) { forall x | x in s :: m <= x }

  lemma {:induction false} LeastFrom(s: set<nat>, k: nat, y: nat)
    requires y in s && k <= y && forall x | x in s :: k <= x
    ensures exists m :: m in s && IsLeast(s, m)
    decreases y - k
  {
    if k in s { assert IsLeast(s, k); } else { LeastFrom(s, k + 1, y); }
  }
}
