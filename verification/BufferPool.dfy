/** The buffer pool (src/buffer_pool.cpp): frames in memory over the pager. */
module Frames {
  import opened Wrappers
  import opened Disk
  import opened Recovery
  import opened PageStore

  const NULL_PAGE: PageId := 0

  datatype Frame = PoolFrame(page: Page, id: PageId, pins: nat, dirty: bool, ref: bool)

  const EMPTY := PoolFrame(ZERO_PAGE, NULL_PAGE, 0, false, false)

  /** The table leads to every frame in use; a dirty one is on the list. */
  ghost predicate Indexed(frames: seq<Frame>, table: map<PageId, nat>, dirtyList: seq<nat>) {
    && (forall id | id in table :: id != NULL_PAGE && table[id] < |frames| && frames[table[id]].id == id)
    && (forall i | 0 <= i < |frames| && frames[i].id != NULL_PAGE :: frames[i].id in table && table[frames[i].id] == i)
    && (forall i | 0 <= i < |frames| && frames[i].id == NULL_PAGE :: !frames[i].dirty && frames[i].pins == 0)
    && (forall i | 0 <= i < |frames| && frames[i].dirty :: i in dirtyList)
    && (forall k | 0 <= k < |dirtyList| :: dirtyList[k] < |frames|)
  }

  /** What a frame may hold: a change the pager has not seen, or what it has. */
  ghost predicate Agrees(f: Frame, pages: map<PageId, Page>, used: set<PageId>) {
    f.id != NULL_PAGE ==>
      && f.id in used && f.id in pages
      && if f.dirty then f.page.id == f.id else f.page == pages[f.id]
  }

  ghost predicate AllAgree(frames: seq<Frame>, pages: map<PageId, Page>, used: set<PageId>) {
    forall i | 0 <= i < |frames| :: Agrees(frames[i], pages, used)
  }

  ghost predicate Dirty(frames: seq<Frame>, table: map<PageId, nat>, id: PageId) {
    id in table && table[id] < |frames| && frames[table[id]].dirty
  }

  /** Every page in use is as of the last commit, in the log, or dirty in a frame. */
  ghost predicate Accounted(id: PageId, frames: seq<Frame>, table: map<PageId, nat>, kept: set<PageId>, pending: set<PageId>) {
    id in kept || id in pending || Dirty(frames, table, id)
  }

  /** The database as a reader of the pool sees it. */
  ghost function Seen(frames: seq<Frame>, table: map<PageId, nat>, c: Contents): Contents {
    Contents(c.meta, map id | id in c.pages ::
               if id in table && table[id] < |frames| then frames[table[id]].page else c.pages[id])
  }

  function With(c: Contents, id: PageId, page: Page): Contents { c.(pages := c.pages[id := page]) }

  /** The pages in use and those on the free list: never both. */
  ghost predicate Parted(c: Contents, used: set<PageId>, freed: seq<PageId>) {
    FreeList(c, freed) && used <= InUse(c, freed)
  }

  /** Writing pages in use leaves the free list alone. */
  lemma PartedWrite(c: Contents, used: set<PageId>, freed: seq<PageId>, id: PageId, page: Page)
    requires Parted(c, used, freed) && id in used
    ensures Parted(c.(pages := c.pages[id := page]), used, freed)
  {
    var c' := c.(pages := c.pages[id := page]);
    assert forall x :: x in c'.pages <==> x in c.pages;
    forall i | 0 <= i < |freed|
      ensures freed[i] in c'.pages && c'.pages[freed[i]].ptype.FreePage? && c'.pages[freed[i]].next == Following(freed, i)
    {
      assert freed[i] != id;
    }
  }

  /** A dirty frame written through to the pager changes nothing a reader sees. */
  lemma WrittenBack(frames: seq<Frame>, table: map<PageId, nat>, dirtyList: seq<nat>, c: Contents, used: set<PageId>, fi: nat)
    requires Indexed(frames, table, dirtyList) && AllAgree(frames, c.pages, used)
    requires fi < |frames| && frames[fi].id != NULL_PAGE && frames[fi].dirty
    ensures var f := frames[fi];
            var c' := c.(pages := c.pages[f.id := f.page]);
            Seen(frames, table, c') == Seen(frames, table, c) && f.id in used && f.id in c.pages && f.page.id == f.id &&
            AllAgree(frames[fi := f.(dirty := false)], c'.pages, used) && AllAgree(frames, c'.pages, used)
  {
    var f := frames[fi];
    assert Agrees(f, c.pages, used);
    var pages' := c.pages[f.id := f.page];
    forall i | 0 <= i < |frames| && i != fi ensures Agrees(frames[i], pages', used) {
      assert Agrees(frames[i], c.pages, used);
      assert frames[i].id == f.id ==> f.id == NULL_PAGE;
    }
  }

  function Dropped(f: Frame): Frame { f.(id := NULL_PAGE, dirty := false, ref := false) }

  /** Forgetting a frame that holds nothing new changes nothing a reader sees. */
  lemma DroppedClean(frames: seq<Frame>, table: map<PageId, nat>, dirtyList: seq<nat>, c: Contents, used: set<PageId>, fi: nat)
    requires Indexed(frames, table, dirtyList) && fi < |frames| && frames[fi].id != NULL_PAGE && frames[fi].pins == 0
    requires AllAgree(frames[fi := frames[fi].(dirty := false)], c.pages, used)
    ensures var (frames', table') := (frames[fi := Dropped(frames[fi])], table - {frames[fi].id});
            Indexed(frames', table', dirtyList) && AllAgree(frames', c.pages, used) &&
            Seen(frames', table', c) == Seen(frames, table, c)
  {
    var id, frames', table' := frames[fi].id, frames[fi := Dropped(frames[fi])], table - {frames[fi].id};
    var clean := frames[fi := frames[fi].(dirty := false)];
    assert Agrees(clean[fi], c.pages, used);
    forall i | 0 <= i < |frames| && i != fi ensures Agrees(frames'[i], c.pages, used) {
      assert Agrees(clean[i], c.pages, used);
    }
    forall x | x in c.pages ensures Seen(frames', table', c).pages[x] == Seen(frames, table, c).pages[x] {
      if x in table && x != id { assert frames'[table'[x]] == frames[table[x]]; }
    }
  }

  lemma DroppedAccounted(frames: seq<Frame>, table: map<PageId, nat>, dirtyList: seq<nat>, fi: nat, id: PageId,
                         kept: set<PageId>, pending: set<PageId>, pending': set<PageId>)
    requires Indexed(frames, table, dirtyList) && fi < |frames| && frames[fi].id != NULL_PAGE
    requires Accounted(id, frames, table, kept, pending) && pending <= pending'
    requires frames[fi].dirty ==> frames[fi].id in pending'
    ensures Accounted(id, frames[fi := Dropped(frames[fi])], table - {frames[fi].id}, kept, pending')
  {
  }

  /** Frames that differ in their pins and reference bits only. */
  ghost predicate SamePages(a: seq<Frame>, b: seq<Frame>) {
    |a| == |b| && forall i | 0 <= i < |a| ::
      b[i].id == a[i].id && b[i].page == a[i].page && b[i].dirty == a[i].dirty && (b[i].id == NULL_PAGE ==> b[i].pins == 0)
  }

  lemma SameSeen(a: seq<Frame>, b: seq<Frame>, table: map<PageId, nat>, dirtyList: seq<nat>, c: Contents, used: set<PageId>)
    requires SamePages(a, b) && Indexed(a, table, dirtyList)
    ensures |b| == |a| && Indexed(b, table, dirtyList) && Seen(b, table, c) == Seen(a, table, c)
    ensures AllAgree(a, c.pages, used) ==> AllAgree(b, c.pages, used)
  {
    if AllAgree(a, c.pages, used) {
      forall i | 0 <= i < |b| ensures Agrees(b[i], c.pages, used) { assert Agrees(a[i], c.pages, used); }
    }
  }

  lemma SameAccounted(a: seq<Frame>, b: seq<Frame>, table: map<PageId, nat>, id: PageId, kept: set<PageId>, pending: set<PageId>)
    requires SamePages(a, b)
    ensures Accounted(id, a, table, kept, pending) ==> Accounted(id, b, table, kept, pending)
  {
  }

  function Pins(frames: seq<Frame>, table: map<PageId, nat>, id: PageId): nat {
    if id in table && table[id] < |frames| then frames[table[id]].pins else 0
  }

  /** A page put in an empty frame. */
  lemma Placed(frames: seq<Frame>, table: map<PageId, nat>, dirtyList: seq<nat>, c: Contents, used: set<PageId>,
               fi: nat, id: PageId, page: Page)
    requires Indexed(frames, table, dirtyList) && AllAgree(frames, c.pages, used)
    requires fi < |frames| && frames[fi].id == NULL_PAGE && id != NULL_PAGE && id !in table && id in used && id in c.pages
    ensures var (frames', table') := (frames[fi := PoolFrame(page, id, 1, false, true)], table[id := fi]);
            && Indexed(frames', table', dirtyList)
            && Seen(frames', table', c) == With(Seen(frames, table, c), id, page)
            && (page == c.pages[id] ==> AllAgree(frames', c.pages, used) && Seen(frames', table', c) == Seen(frames, table, c))
            && AgreesBut(frames', c.pages, used, fi)
  {
    var frames', table' := frames[fi := PoolFrame(page, id, 1, false, true)], table[id := fi];
    PlacedIndexed(frames, table, dirtyList, fi, id, page);
    forall i | 0 <= i < |frames| && i != fi ensures Agrees(frames'[i], c.pages, used) {
      assert Agrees(frames[i], c.pages, used);
    }
    assert forall x | x in table :: table[x] != fi && frames'[table[x]] == frames[table[x]];
    hide Indexed;
    assert Seen(frames', table', c) == With(Seen(frames, table, c), id, page);
  }

  lemma PlacedIndexed(frames: seq<Frame>, table: map<PageId, nat>, dirtyList: seq<nat>, fi: nat, id: PageId, page: Page)
    requires Indexed(frames, table, dirtyList)
    requires fi < |frames| && frames[fi].id == NULL_PAGE && id != NULL_PAGE && id !in table
    ensures Indexed(frames[fi := PoolFrame(page, id, 1, false, true)], table[id := fi], dirtyList)
  {
  }

  lemma PlacedAccounted(frames: seq<Frame>, table: map<PageId, nat>, dirtyList: seq<nat>, fi: nat, id: PageId, page: Page,
                        p: PageId, kept: set<PageId>, pending: set<PageId>)
    requires Indexed(frames, table, dirtyList) && fi < |frames| && frames[fi].id == NULL_PAGE && id !in table
    requires Accounted(p, frames, table, kept, pending)
    ensures Accounted(p, frames[fi := PoolFrame(page, id, 1, false, true)], table[id := fi], kept, pending)
  {
  }

  ghost predicate AgreesBut(frames: seq<Frame>, pages: map<PageId, Page>, used: set<PageId>, fi: nat) {
    forall i | 0 <= i < |frames| && i != fi :: Agrees(frames[i], pages, used)
  }

  /** A page written over in its frame. */
  lemma Overwritten(frames: seq<Frame>, table: map<PageId, nat>, dirtyList: seq<nat>, c: Contents, used: set<PageId>,
                    fi: nat, page: Page)
    requires Indexed(frames, table, dirtyList) && AgreesBut(frames, c.pages, used, fi)
    requires fi < |frames| && frames[fi].id == page.id && page.id in used && page.id in c.pages && page.id != NULL_PAGE
    ensures var frames' := frames[fi := frames[fi].(page := page, dirty := true)];
            && (forall list | list == dirtyList + [fi] || (frames[fi].dirty && list == dirtyList) :: Indexed(frames', table, list))
            && AllAgree(frames', c.pages, used)
            && Seen(frames', table, c) == With(Seen(frames, table, c), page.id, page)
  {
    var frames' := frames[fi := frames[fi].(page := page, dirty := true)];
    forall list | list == dirtyList + [fi] || (frames[fi].dirty && list == dirtyList) ensures Indexed(frames', table, list) {
      forall i | 0 <= i < |frames'| && frames'[i].dirty ensures i in list {
        if i != fi { assert i in dirtyList; }
      }
    }
    forall x | x in c.pages && x != page.id ensures Seen(frames', table, c).pages[x] == Seen(frames, table, c).pages[x] {
      if x in table && table[x] < |frames| { assert table[x] != fi; }
    }
  }

  lemma OverwrittenAccounted(frames: seq<Frame>, table: map<PageId, nat>, dirtyList: seq<nat>, fi: nat, page: Page,
                             p: PageId, kept: set<PageId>, pending: set<PageId>)
    requires Indexed(frames, table, dirtyList) && fi < |frames| && frames[fi].id != NULL_PAGE
    requires p == frames[fi].id || Accounted(p, frames, table, kept, pending)
    ensures Accounted(p, frames[fi := frames[fi].(page := page, dirty := true)], table, kept, pending)
  {
  }

  lemma Started(capacity: nat, c: Contents, list: seq<PageId>)
    requires FreeList(c, list)
    ensures var frames := seq(capacity, _ => EMPTY);
            Indexed(frames, map[], []) && AllAgree(frames, c.pages, InUse(c, list)) && Seen(frames, map[], c) == c &&
            Parted(c, InUse(c, list), list)
  {
  }

  lemma HeldPage(frames: seq<Frame>, table: map<PageId, nat>, dirtyList: seq<nat>, c: Contents, used: set<PageId>, id: PageId)
    requires Indexed(frames, table, dirtyList) && AllAgree(frames, c.pages, used) && id in table
    ensures id in Seen(frames, table, c).pages && frames[table[id]].page == Seen(frames, table, c).pages[id]
    ensures AgreesBut(frames, c.pages, used, table[id])
  {
    assert Agrees(frames[table[id]], c.pages, used);
  }

  /** Forgetting a frame, whatever it holds: the reader sees the pager's page. */
  lemma DroppedAny(frames: seq<Frame>, table: map<PageId, nat>, dirtyList: seq<nat>, c: Contents, used: set<PageId>,
                   fi: nat, f: Frame)
    requires Indexed(frames, table, dirtyList) && AllAgree(frames, c.pages, used)
    requires fi < |frames| && frames[fi].id != NULL_PAGE && f.id == NULL_PAGE && !f.dirty && f.pins == 0
    ensures var (id, frames', table') := (frames[fi].id, frames[fi := f], table - {frames[fi].id});
            && id in c.pages && Indexed(frames', table', dirtyList) && AllAgree(frames', c.pages, used)
            && Seen(frames', table', c) == With(Seen(frames, table, c), id, c.pages[id])
            && AllAgree(frames', c.pages, used - {id})
  {
    var id, frames', table' := frames[fi].id, frames[fi := f], table - {frames[fi].id};
    assert Agrees(frames[fi], c.pages, used);
    forall i | 0 <= i < |frames| && i != fi ensures Agrees(frames'[i], c.pages, used) && Agrees(frames'[i], c.pages, used - {id}) {
      assert Agrees(frames[i], c.pages, used);
      assert frames[i].id != NULL_PAGE ==> table[frames[i].id] == i && table[id] == fi;
    }
    forall x | x in c.pages && x != id ensures Seen(frames', table', c).pages[x] == Seen(frames, table, c).pages[x] {
      if x in table { assert frames'[table'[x]] == frames[table[x]]; }
    }
  }

  /** Frames that all hold what the pager does show its database. */
  lemma CleanSeen(frames: seq<Frame>, table: map<PageId, nat>, dirtyList: seq<nat>, c: Contents, used: set<PageId>)
    requires Indexed(frames, table, dirtyList) && AllAgree(frames, c.pages, used)
    requires forall i | 0 <= i < |frames| :: !frames[i].dirty
    ensures Seen(frames, table, c) == c && Indexed(frames, table, [])
  {
    forall x | x in c.pages ensures Seen(frames, table, c).pages[x] == c.pages[x] {
      if x in table { assert Agrees(frames[table[x]], c.pages, used); }
    }
  }

  lemma Held(frames: seq<Frame>, table: map<PageId, nat>, dirtyList: seq<nat>, c: Contents, used: set<PageId>)
    requires Indexed(frames, table, dirtyList) && AllAgree(frames, c.pages, used)
    ensures forall id | id in table :: id in used && id in c.pages
  {
    forall id | id in table ensures id in used && id in c.pages { assert Agrees(frames[table[id]], c.pages, used); }
  }

  function Tail(list: seq<PageId>): seq<PageId> { if list == [] then [] else list[1..] }

  /** A page handed out: it was in nobody's use, and no frame holds it. */
  lemma HandedOut(frames: seq<Frame>, table: map<PageId, nat>, dirtyList: seq<nat>, c: Contents, used: set<PageId>, freed: seq<PageId>,
                  spare: Page)
    requires Indexed(frames, table, dirtyList) && AllAgree(frames, c.pages, used) && Parted(c, used, freed)
    ensures AllocateId(c).Some?
    ensures var (id, c') := (AllocateId(c).value, AfterAllocate(c, spare));
            && id !in used && id !in table && id != NULL_PAGE
            && Parted(c', used, Tail(freed)) && Parted(c', used + {id}, Tail(freed))
            && AllAgree(frames, c'.pages, used) && AllAgree(frames, c'.pages, used + {id})
            && (forall page :: With(Seen(frames, table, c'), id, page) == Contents(c'.meta, Seen(frames, table, c).pages[id := page]))
  {
    InUseAfterAllocate(c, freed, spare);
    var id, c' := AllocateId(c).value, AfterAllocate(c, spare);
    hide FreeList, InUse;
    Held(frames, table, dirtyList, c, used);
    forall i | 0 <= i < |frames| ensures Agrees(frames[i], c'.pages, used) && Agrees(frames[i], c'.pages, used + {id}) {
      assert Agrees(frames[i], c.pages, used);
    }
  }

  /** A page in nobody's use put on the free list. */
  lemma TakenBack(frames: seq<Frame>, table: map<PageId, nat>, dirtyList: seq<nat>, c: Contents, used: set<PageId>,
                  freed: seq<PageId>, id: PageId)
    requires Indexed(frames, table, dirtyList) && AllAgree(frames, c.pages, used) && Parted(c, used, freed)
    requires id in c.pages && id !in used && !c.pages[id].ptype.FreePage?
    ensures var c' := AfterFree(c, id);
            Parted(c', used, [id] + freed) && AllAgree(frames, c'.pages, used) &&
            Seen(frames, table, c') == AfterFree(Seen(frames, table, c), id)
  {
    InUseAfterFree(c, freed, id);
    var c' := AfterFree(c, id);
    hide FreeList, InUse;
    Held(frames, table, dirtyList, c, used);
    forall i | 0 <= i < |frames| ensures Agrees(frames[i], c'.pages, used) {
      assert Agrees(frames[i], c.pages, used);
    }
  }

  lemma PartedIn(c: Contents, used: set<PageId>, freed: seq<PageId>, id: PageId)
    requires Parted(c, used, freed) && id in used
    ensures id in c.pages
  {
  }

  lemma PartedLess(c: Contents, used: set<PageId>, freed: seq<PageId>, id: PageId)
    requires Parted(c, used, freed)
    ensures Parted(c, used - {id}, freed)
  {
  }

  lemma NotHeld(frames: seq<Frame>, table: map<PageId, nat>, dirtyList: seq<nat>, c: Contents, used: set<PageId>, id: PageId)
    requires Indexed(frames, table, dirtyList) && AllAgree(frames, c.pages, used) && id !in table && id in c.pages
    ensures AllAgree(frames, c.pages, used - {id}) && Seen(frames, table, c) == With(Seen(frames, table, c), id, c.pages[id])
  {
    forall i | 0 <= i < |frames| ensures Agrees(frames[i], c.pages, used - {id}) { assert Agrees(frames[i], c.pages, used); }
  }

  lemma HeldPins(frames: seq<Frame>, table: map<PageId, nat>, id: PageId)
    requires id in table && table[id] < |frames|
    ensures Pins(frames, table, id) == frames[table[id]].pins
  {
  }

  lemma ForgottenRest(frames: seq<Frame>, table: map<PageId, nat>, dirtyList: seq<nat>, fi: nat, f: Frame,
                      p: PageId, kept: set<PageId>, pending: set<PageId>)
    requires Indexed(frames, table, dirtyList) && fi < |frames| && frames[fi].id != NULL_PAGE && frames[fi].pins == 0
    ensures Pins(frames[fi := f], table - {frames[fi].id}, p) == Pins(frames, table, p)
    ensures p != frames[fi].id && Accounted(p, frames, table, kept, pending) ==>
              Accounted(p, frames[fi := f], table - {frames[fi].id}, kept, pending)
  {
  }

  /** Every dirty frame is on the part of the list still to be visited. */
  ghost predicate DirtyIn(frames: seq<Frame>, list: seq<nat>) {
    forall i | 0 <= i < |frames| && frames[i].dirty :: i in list
  }

  lemma DirtyNext(frames: seq<Frame>, list: seq<nat>, fi: nat, f: Frame)
    requires DirtyIn(frames, list) && list != [] && list[0] == fi
    ensures !f.dirty && fi < |frames| ==> DirtyIn(frames[fi := f], list[1..])
    ensures (fi < |frames| ==> !frames[fi].dirty) ==> DirtyIn(frames, list[1..])
  {
    assert list == [list[0]] + list[1..];
  }

  lemma Cleaned(frames: seq<Frame>, table: map<PageId, nat>, dirtyList: seq<nat>, c: Contents, fi: nat)
    requires Indexed(frames, table, dirtyList) && fi < |frames|
    ensures var frames' := frames[fi := frames[fi].(dirty := false)];
            Indexed(frames', table, dirtyList) && Seen(frames', table, c) == Seen(frames, table, c)
    ensures forall p :: Pins(frames[fi := frames[fi].(dirty := false)], table, p) == Pins(frames, table, p)
  {
  }

  lemma NoneDirty(frames: seq<Frame>, list: seq<nat>)
    requires DirtyIn(frames, list) && list == []
    ensures forall i | 0 <= i < |frames| :: !frames[i].dirty
  {
  }

  /** A pinned frame holds a page the transaction has not changed. */
  ghost predicate PinsClean(frames: seq<Frame>, pending: set<PageId>) {
    forall i | 0 <= i < |frames| && frames[i].pins > 0 :: !frames[i].dirty && frames[i].id !in pending
  }

  lemma PinsCleanDropped(frames: seq<Frame>, pending: set<PageId>, fi: nat)
    requires PinsClean(frames, pending) && fi < |frames| && frames[fi].pins == 0
    ensures PinsClean(frames[fi := Dropped(frames[fi])], pending)
  {
  }

  /** Frames that hold none of the transaction's changes hold the last commit's pages. */
  lemma AgreeCommitted(frames: seq<Frame>, table: map<PageId, nat>, dirtyList: seq<nat>, pages: map<PageId, Page>,
                       used: set<PageId>, pages': map<PageId, Page>, used': set<PageId>)
    requires Indexed(frames, table, dirtyList) && AllAgree(frames, pages, used)
    requires forall i | 0 <= i < |frames| :: !frames[i].dirty
    requires forall id | id in table :: id in used' && id in pages && id in pages' && pages'[id] == pages[id]
    ensures AllAgree(frames, pages', used')
  {
    forall i | 0 <= i < |frames| ensures Agrees(frames[i], pages', used') {
      assert Agrees(frames[i], pages, used);
      assert frames[i].id != NULL_PAGE ==> frames[i].id in table;
    }
  }

  // ---- the sweep ----

  /** The hand `scanned` steps after `start`, in at most three rounds. */
  function At(start: int, scanned: int, n: int): int {
    var x := start + scanned;
    if x < n then x else if x < 2 * n then x - n else if x < 3 * n then x - 2 * n else x - 3 * n
  }

  lemma AtNext(start: nat, scanned: nat, n: nat)
    requires start < n && scanned <= 2 * n
    ensures At(start, 0, n) == start && 0 <= At(start, scanned, n) < n
    ensures (At(start, scanned, n) + 1) % n == At(start, scanned + 1, n)
  {
    var h := At(start, scanned, n);
    assert (h + 1) % n == if h + 1 < n then h + 1 else 0;
  }

  function Distance(start: nat, i: nat, n: nat): int { if i >= start then i - start else i - start + n }

  /** Once swept, a frame is pinned or not recently used; twice, pinned. */
  ghost predicate Swept(frames: seq<Frame>, start: nat, scanned: nat) {
    && (forall i | 0 <= i < |frames| && Distance(start, i, |frames|) < scanned :: frames[i].pins > 0 || !frames[i].ref)
    && (forall i | 0 <= i < |frames| && Distance(start, i, |frames|) + |frames| < scanned :: frames[i].pins > 0)
  }

  lemma SweepStart(frames: seq<Frame>, start: nat)
    requires start < |frames|
    ensures Swept(frames, start, 0) && At(start, 0, |frames|) == start
  {
  }

  lemma SweepStep(frames: seq<Frame>, start: nat, scanned: nat, here: nat)
    requires start < |frames| && scanned <= 2 * |frames| && here == At(start, scanned, |frames|)
    requires Swept(frames, start, scanned)
    ensures here < |frames|
    ensures frames[here].pins > 0 ==> Swept(frames, start, scanned + 1)
    ensures frames[here].pins == 0 && frames[here].ref ==> Swept(frames[here := frames[here].(ref := false)], start, scanned + 1)
    ensures frames[here].pins == 0 ==> scanned < 2 * |frames|
  {
    var n := |frames|;
    forall i | 0 <= i < n && i != here
      ensures Distance(start, i, n) < scanned + 1 ==> Distance(start, i, n) < scanned
      ensures Distance(start, i, n) + n < scanned + 1 ==> Distance(start, i, n) + n < scanned
    {
    }
    if frames[here].pins == 0 && frames[here].ref {
      assert Distance(start, here, n) >= scanned;
    }
  }

  lemma SweepEnd(frames: seq<Frame>, start: nat, scanned: nat)
    requires start < |frames| && scanned == 2 * |frames| + 1 && Swept(frames, start, scanned)
    ensures forall i | 0 <= i < |frames| :: frames[i].pins > 0
  {
    forall i | 0 <= i < |frames| ensures frames[i].pins > 0 { assert Distance(start, i, |frames|) < |frames|; }
  }

  // ---- pages handed out again, and still marked free in the pager ----

  ghost predicate UnmarkedIn(pages: map<PageId, Page>, ids: set<PageId>) {
    forall id | id in ids && id in pages :: !pages[id].ptype.FreePage?
  }

  /** Of the pages in use the pager's copies of `reused` are marked free, each with a change
      in a frame; and if no client ever wrote a page marked free, no others are. `taken` is
      on its way into or out of use. */
  ghost predicate Marks(frames: seq<Frame>, table: map<PageId, nat>, pages: map<PageId, Page>, used: set<PageId>,
                        reused: set<PageId>, taken: set<PageId>, honest: bool) {
    && (forall id | id in reused :: Dirty(frames, table, id) && id in pages && pages[id].ptype.FreePage?)
    && (honest ==> UnmarkedIn(pages, used - reused - taken) && forall i | 0 <= i < |frames| && frames[i].id != NULL_PAGE :: !frames[i].page.ptype.FreePage?)
  }

  lemma MarksStarted(capacity: nat, c: Contents, used: set<PageId>)
    ensures Marks(seq(capacity, _ => EMPTY), map[], c.pages, used, {}, {}, UnmarkedIn(c.pages, used))
  {
    assert used - {} - {} == used;
  }

  lemma MarksWritten(frames: seq<Frame>, table: map<PageId, nat>, dirtyList: seq<nat>, pages: map<PageId, Page>, used: set<PageId>,
                     reused: set<PageId>, taken: set<PageId>, honest: bool, fi: nat)
    requires Indexed(frames, table, dirtyList) && Marks(frames, table, pages, used, reused, taken, honest)
    requires fi < |frames| && frames[fi].id != NULL_PAGE
    ensures var f, left := frames[fi], reused - {frames[fi].id};
            && Marks(frames, table, pages[f.id := f.page], used, left, taken, honest)
            && Marks(frames[fi := f.(dirty := false)], table, pages[f.id := f.page], used, left, taken, honest)
  {
    assert forall id | id in table && id != frames[fi].id :: table[id] != fi;
  }

  /** A frame emptied. */
  lemma MarksDropped(frames: seq<Frame>, table: map<PageId, nat>, dirtyList: seq<nat>, pages: map<PageId, Page>, used: set<PageId>,
                     reused: set<PageId>, taken: set<PageId>, honest: bool, fi: nat, f: Frame)
    requires Indexed(frames, table, dirtyList) && Marks(frames, table, pages, used, reused, taken, honest)
    requires fi < |frames| && frames[fi].id != NULL_PAGE && f.id == NULL_PAGE
    ensures var id := frames[fi].id;
            && (id !in reused ==> Marks(frames[fi := f], table - {id}, pages, used, reused, taken, honest))
            && Marks(frames[fi := f], table - {id}, pages, used, reused - {id}, taken + {id}, honest)
  {
    assert forall id | id in table && id != frames[fi].id :: table[id] != fi;
  }

  lemma MarksTouched(a: seq<Frame>, b: seq<Frame>, table: map<PageId, nat>, pages: map<PageId, Page>, used: set<PageId>,
                     reused: set<PageId>, taken: set<PageId>, honest: bool)
    requires SamePages(a, b) && Marks(a, table, pages, used, reused, taken, honest)
    ensures Marks(b, table, pages, used, reused, taken, honest)
  {
    if honest {
      forall i | 0 <= i < |b| && b[i].id != NULL_PAGE ensures !b[i].page.ptype.FreePage? { assert a[i].id == b[i].id; }
    }
  }

  lemma MarksPlaced(frames: seq<Frame>, table: map<PageId, nat>, dirtyList: seq<nat>, pages: map<PageId, Page>, used: set<PageId>,
                    reused: set<PageId>, taken: set<PageId>, honest: bool, fi: nat, id: PageId, page: Page)
    requires Indexed(frames, table, dirtyList) && Marks(frames, table, pages, used, reused, taken, honest)
    requires fi < |frames| && frames[fi].id == NULL_PAGE && id != NULL_PAGE && id !in table && id in used && id in pages
    requires page.ptype.Invalid? || (page == pages[id] && id !in taken)
    ensures Marks(frames[fi := PoolFrame(page, id, 1, false, true)], table[id := fi], pages, used, reused, taken, honest)
  {
    assert id !in reused;
  }

  lemma MarksPut(frames: seq<Frame>, table: map<PageId, nat>, pages: map<PageId, Page>, used: set<PageId>,
                 reused: set<PageId>, taken: set<PageId>, honest: bool, fi: nat, page: Page)
    requires Marks(frames, table, pages, used, reused, taken, honest) && fi < |frames|
    ensures Marks(frames[fi := frames[fi].(page := page, dirty := true)], table, pages, used, reused, taken,
                  honest && !page.ptype.FreePage?)
  {
  }

  /** A page handed out, on its way into use; and once its frame holds a change, in use. */
  lemma MarksTaken(frames: seq<Frame>, table: map<PageId, nat>, c: Contents, used: set<PageId>, reused: set<PageId>, honest: bool,
                   spare: Page)
    requires Marks(frames, table, c.pages, used, reused, {}, honest) && AllocateId(c).Some? && c.meta.pageCount !in c.pages
    ensures var (id, c') := (AllocateId(c).value, AfterAllocate(c, spare));
            Marks(frames, table, c'.pages, used + {id}, reused, {id}, honest)
  {
  }

  lemma MarksUsed(frames: seq<Frame>, table: map<PageId, nat>, pages: map<PageId, Page>, used: set<PageId>,
                  reused: set<PageId>, honest: bool, id: PageId)
    requires Marks(frames, table, pages, used, reused, {id}, honest) && Dirty(frames, table, id) && id in pages
    ensures Marks(frames, table, pages, used, reused + if pages[id].ptype.FreePage? then {id} else {}, {}, honest)
  {
  }

  /** The pager's copy of the next page handed out, before anyone writes it. */
  function Unfilled(c: Contents, spare: Page): Page {
    var head := c.meta.freelistHead;
    if head == 0 then spare else if head in c.pages then c.pages[head] else ZERO_PAGE
  }

  lemma NextUp(c: Contents, used: set<PageId>, freed: seq<PageId>, spare: Page)
    requires Parted(c, used, freed)
    ensures AllocateId(c) == Some(if freed == [] then c.meta.pageCount else freed[0]) && c.meta.pageCount !in c.pages
    ensures var (id, c') := (AllocateId(c).value, AfterAllocate(c, spare));
            id in c'.pages && c'.pages[id] == Unfilled(c, spare)
    ensures if freed == [] then Unfilled(c, spare) == spare else Unfilled(c, spare).ptype.FreePage?
  {
    if freed != [] { assert freed[0] in c.pages; }
  }

  /** Handing out a page changes no other page the clients see and no root; the database grows
      only when the free list is empty. */
  ghost predicate PoolHandsOut(c: Contents, freed: seq<PageId>, id: PageId, d: Contents) {
    && RootsKept(c.meta, d.meta) && (forall p | p in c.pages && p != id :: p in d.pages && d.pages[p] == c.pages[p])
    && d.pages.Keys == c.pages.Keys + {id} && d.meta.pageCount == c.meta.pageCount + (if freed == [] then 1 else 0)
    && d.meta.freelistHead == if |freed| > 1 then freed[1] else 0
  }

  lemma SeenMeta(frames: seq<Frame>, table: map<PageId, nat>, c: Contents) ensures Seen(frames, table, c).meta == c.meta {}

  lemma NextMeta(c: Contents, view: Contents, used: set<PageId>, freed: seq<PageId>, spare: Page, id: PageId)
    requires Parted(c, used, freed) && view.meta == c.meta
    ensures PoolHandsOut(view, freed, id, Contents(AfterAllocate(c, spare).meta, view.pages[id := Page(id, Invalid, 0, [])]))
  {
    if freed != [] { assert Following(freed, 0) == c.pages[freed[0]].next; }
  }

  lemma MarksFreed(frames: seq<Frame>, table: map<PageId, nat>, c: Contents, used: set<PageId>, reused: set<PageId>, honest: bool, id: PageId)
    requires Marks(frames, table, c.pages, used, reused, {}, honest) && id !in used && id !in reused && id in c.pages
    ensures Marks(frames, table, AfterFree(c, id).pages, used, reused, {}, honest)
  {
  }

  lemma MarksGone(frames: seq<Frame>, table: map<PageId, nat>, pages: map<PageId, Page>, used: set<PageId>,
                  reused: set<PageId>, taken: set<PageId>, honest: bool, id: PageId)
    requires Marks(frames, table, pages, used, reused, taken, honest) && taken <= {id}
    ensures Marks(frames, table, pages, used - {id}, reused - {id}, {}, honest)
  {
  }
}

module PagePool {
  import opened Wrappers
  import opened Disk
  import opened Recovery
  import opened PageStore
  import opened Frames

  class BufferPool {
    const pager: Pager
    var frames: seq<Frame>
    var table: map<PageId, nat>
    var dirtyList: seq<nat>
    var hand: nat

    // The pages clients hold and those on the free list, now and as of the last commit.
    ghost var used: set<PageId>
    ghost var freed: seq<PageId>
    ghost var keptUsed: set<PageId>
    ghost var keptFreed: seq<PageId>
    // The pages handed out off the free list and not written back since; those on their way
    // in or out; and whether every page ever found or written in use was not marked free.
    ghost var reused: set<PageId>
    ghost var taken: set<PageId>
    ghost var honest: bool

    ghost predicate Base() reads this, pager, pager.wal {
      && pager.Valid() && hand < |frames| && Indexed(frames, table, dirtyList)
      && Parted(pager.Current(), used, freed) && Parted(pager.Committed(), keptUsed, keptFreed)
      && Tracked()
    }

    ghost predicate Tracked() reads this, pager, pager.wal {
      && |pager.history| > 0 && Marks(frames, table, pager.Current().pages, used, reused, taken, honest)
      && (honest ==> UnmarkedIn(pager.Committed().pages, keptUsed))
    }

    ghost predicate Valid() reads this, pager, pager.wal {
      && Base() && AllAgree(frames, pager.Current().pages, used)
      && (forall id | id in used :: Known(id)) && taken == {}
    }

    ghost predicate Known(id: PageId) reads this, pager, pager.wal {
      Accounted(id, frames, table, keptUsed, pager.wal.pending.Keys)
    }

    /** The database as the clients of the pool see it. */
    ghost function View(): Contents reads this, pager, pager.wal { Seen(frames, table, pager.Current()) }

    /** A pool over a pager between transactions, whose free list is `list`. */
    constructor (pager: Pager, capacity: nat, ghost list: seq<PageId>)
      requires capacity >= 1 && pager.Valid() && !pager.InTransaction() && FreeList(pager.Current(), list)
      ensures this.pager == pager && Valid() && View() == pager.Current()
      ensures |frames| == capacity && freed == keptFreed == list && used == keptUsed == InUse(pager.Current(), list)
      ensures reused == {} && (honest <==> UnmarkedIn(pager.Current().pages, InUse(pager.Current(), list)))
    {
      hide Pager.Valid, Pager.Current, Parted, Seen, FreeList, InUse, AllAgree, Indexed;
      pager.CurrentIsCommitted();
      pager.PagesInRange();
      Started(capacity, pager.Current(), list);
      MarksStarted(capacity, pager.Current(), InUse(pager.Current(), list));
      this.pager := pager;
      frames, table, dirtyList, hand := seq(capacity, _ => EMPTY), map[], [], 0;
      used, freed := InUse(pager.Current(), list), list;
      keptUsed, keptFreed := InUse(pager.Current(), list), list;
      reused, taken, honest := {}, {}, UnmarkedIn(pager.Current().pages, InUse(pager.Current(), list));
    }

    /** The first frame of a sweep that is neither pinned nor recently used; a
        recently used one is spared once. */
    method ChooseVictim() returns (victim: Option<nat>, ghost steps: nat)
      requires hand < |frames|
      modifies this`frames, this`hand
      ensures |frames| == old(|frames|) && hand < |frames|
      ensures forall i | 0 <= i < |frames| :: frames[i] == old(frames)[i].(ref := frames[i].ref)
      ensures victim.Some? <==> exists i :: 0 <= i < |frames| && frames[i].pins == 0
      ensures victim.Some? ==> victim.value < |frames| && frames[victim.value].pins == 0 && steps <= 2 * |frames|
    {
      hide Swept, At;
      var n := |frames|;
      ghost var start := hand;
      var scanned := 0;
      SweepStart(frames, start);
      while scanned < 2 * n + 1
        invariant scanned <= 2 * n + 1 && |frames| == n && hand < n
        invariant hand == At(start, scanned, n) && Swept(frames, start, scanned)
        invariant forall i | 0 <= i < n :: frames[i] == old(frames)[i].(ref := frames[i].ref)
      {
        var here := hand;
        AtNext(start, scanned, n);
        hand := (hand + 1) % n;
        scanned := scanned + 1;
        SweepStep(frames, start, scanned - 1, here);
        if frames[here].pins > 0 { continue; }
        if frames[here].ref {
          frames := frames[here := frames[here].(ref := false)];
          continue;
        }
        return Some(here), scanned;
      }
      SweepEnd(frames, start, scanned);
      return None, scanned;
    }

    /** Forget a frame's page, written or not. */
    method Drop(fi: nat)
      requires fi < |frames| && Indexed(frames, table, dirtyList) && frames[fi].id != NULL_PAGE && frames[fi].pins == 0
      modifies this`frames, this`table
      ensures Indexed(frames, table, dirtyList)
      ensures frames == old(frames)[fi := Dropped(old(frames)[fi])]
      ensures table == old(table) - {old(frames)[fi].id}
    {
      table := table - {frames[fi].id};
      frames := frames[fi := frames[fi].(id := NULL_PAGE, dirty := false, ref := false)];
    }

    /** Write a dirty frame's page to the pager. */
    method WriteBack(fi: nat)
      requires Base() && AllAgree(frames, pager.Current().pages, used)
      requires fi < |frames| && frames[fi].id != NULL_PAGE && frames[fi].dirty
      modifies this`reused, pager`trace, pager.wal
      ensures Base() && View() == old(View()) && pager.Kept(old(pager.history), old(pager.trace))
      ensures reused == old(reused) - {frames[fi].id} && pager.Current() == With(old(pager.Current()), frames[fi].id, frames[fi].page)
      ensures Marks(frames[fi := frames[fi].(dirty := false)], table, pager.Current().pages, used, reused, taken, honest)
      ensures AllAgree(frames[fi := frames[fi].(dirty := false)], pager.Current().pages, used)
      ensures AllAgree(frames, pager.Current().pages, used)
      ensures pager.wal.pending.Keys == old(pager.wal.pending.Keys) + {frames[fi].id}
    {
      hide Pager.Valid, Pager.Current, Parted, Seen, Indexed, AllAgree, Marks, UnmarkedIn;
      var f := frames[fi];
      MarksWritten(frames, table, dirtyList, pager.Current().pages, used, reused, taken, honest, fi);
      reused := reused - {f.id};
      pager.PagesInRange();
      WrittenBack(frames, table, dirtyList, pager.Current(), used, fi);
      PartedWrite(pager.Current(), used, freed, f.id, f.page);
      pager.WritePage(f.id, f.page);
    }

    /** The pager's meta page, and its copies of the pages that were not in frames, are as
        they were. */
    twostate predicate Unwritten(held: set<PageId>) reads this, pager, pager.wal {
      && pager.Current().meta == old(pager.Current()).meta
      && forall p | p !in held && p in old(pager.Current()).pages ::
           p in pager.Current().pages && pager.Current().pages[p] == old(pager.Current()).pages[p]
    }

    /** Write a frame's page to the pager if it is dirty. */
    method Clean(fi: nat)
      requires Base() && AllAgree(frames, pager.Current().pages, used) && fi < |frames| && frames[fi].id != NULL_PAGE
      modifies this`reused, pager`trace, pager.wal
      ensures Base() && View() == old(View()) && pager.Kept(old(pager.history), old(pager.trace))
      ensures AllAgree(frames[fi := frames[fi].(dirty := false)], pager.Current().pages, used)
      ensures reused <= old(reused) && frames[fi].id !in reused && Unwritten(table.Keys)
      ensures old(pager.wal.pending.Keys) <= pager.wal.pending.Keys && (frames[fi].dirty ==> frames[fi].id in pager.wal.pending)
    {
      hide Pager.Valid, Pager.Current, Parted, Seen, AllAgree, Marks, UnmarkedIn;
      if frames[fi].dirty { WriteBack(fi); } else { assert frames[fi := frames[fi].(dirty := false)] == frames; }
      NotReused(fi);
    }

    method Evict(fi: nat)
      requires Base() && AllAgree(frames, pager.Current().pages, used) && fi < |frames| && frames[fi].pins == 0
      modifies this`frames, this`table, this`reused, pager`trace, pager.wal
      ensures Base() && AllAgree(frames, pager.Current().pages, used)
      ensures reused <= old(reused) && Unwritten(old(table.Keys))
      ensures View() == old(View()) && pager.Kept(old(pager.history), old(pager.trace))
      ensures forall id | old(Known(id)) :: Known(id)
      ensures |frames| == old(|frames|) && frames[fi].id == NULL_PAGE
      ensures forall id | id in old(table) && old(table)[id] != fi :: id in table && table[id] == old(table)[id]
      ensures forall i | 0 <= i < |frames| && i != fi :: frames[i] == old(frames)[i]
      ensures table.Keys <= old(table.Keys)
    {
      hide Pager.Valid, Pager.Current, Parted, Seen, AllAgree, Accounted, Marks, UnmarkedIn;
      if frames[fi].id == NULL_PAGE { return; }
      ghost var fs, t, pending := frames, table, pager.wal.pending.Keys;
      Clean(fi);
      DroppedClean(frames, table, dirtyList, pager.Current(), used, fi);
      MarksDropped(frames, table, dirtyList, pager.Current().pages, used, reused, taken, honest, fi, Dropped(frames[fi]));
      forall id | old(Known(id))
        ensures Accounted(id, fs[fi := Dropped(fs[fi])], t - {fs[fi].id}, keptUsed, pager.wal.pending.Keys)
      {
        DroppedAccounted(fs, t, dirtyList, fi, id, keptUsed, pending, pager.wal.pending.Keys);
      }
      Drop(fi);
    }

    /** A frame written back, or never changed, holds none of those pages. */
    lemma NotReused(fi: nat)
      requires fi < |frames| && frames[fi].id != NULL_PAGE && Indexed(frames, table, dirtyList)
      requires Marks(frames[fi := frames[fi].(dirty := false)], table, pager.Current().pages, used, reused, taken, honest)
      ensures frames[fi].id !in reused
    {
    }

    /** Change pins and reference bits only. */
    method Retouch(to: seq<Frame>)
      requires Base() && AllAgree(frames, pager.Current().pages, used) && SamePages(frames, to)
      modifies this`frames
      ensures frames == to && Base() && AllAgree(frames, pager.Current().pages, used) && View() == old(View())
      ensures forall p | old(Known(p)) :: Known(p)
    {
      hide Pager.Valid, Pager.Current, Pager.Committed, Parted, Seen, AllAgree, Accounted, Indexed, SamePages, Marks, UnmarkedIn;
      MarksTouched(frames, to, table, pager.Current().pages, used, reused, taken, honest);
      SameSeen(frames, to, table, dirtyList, pager.Current(), used);
      forall p | Known(p) ensures Accounted(p, to, table, keptUsed, pager.wal.pending.Keys) {
        SameAccounted(frames, to, table, p, keptUsed, pager.wal.pending.Keys);
      }
      frames := to;
    }

    method EmptyFrame() returns (at: Option<nat>)
      requires Base()
      ensures at.Some? ==> at.value < |frames| && frames[at.value].id == NULL_PAGE
      ensures at.None? ==> forall i | 0 <= i < |frames| :: frames[i].id != NULL_PAGE
    {
      hide Pager.Valid, Pager.Current, Pager.Committed, Parted;
      var i := 0;
      while i < |frames|
        invariant i <= |frames| && forall k | 0 <= k < i :: frames[k].id != NULL_PAGE
      {
        if frames[i].id == NULL_PAGE && frames[i].pins == 0 { return Some(i); }
        i := i + 1;
      }
      return None;
    }

    /** A page put in an empty frame: read from the pager, or blank. */
    method Fault(at: nat, id: PageId, load: bool)
      requires Base() && AllAgree(frames, pager.Current().pages, used) && id in used && id !in table
      requires at < |frames| && frames[at].id == NULL_PAGE && (load ==> id !in taken)
      modifies this`frames, this`table
      ensures Base() && id in table && table[id] == at && frames[at].pins == 1 && |frames| == old(|frames|)
      ensures forall p | old(Known(p)) :: Known(p)
      ensures frames[at].page == View().pages[id] && AgreesBut(frames, pager.Current().pages, used, at)
      ensures load ==> AllAgree(frames, pager.Current().pages, used) && View() == old(View())
      ensures !load ==> View() == With(old(View()), id, Page(id, Invalid, 0, []))
      ensures forall p | p != id :: Pins(frames, table, p) == Pins(old(frames), old(table), p)
    {
      hide Pager.Valid, Pager.Current, Pager.Committed, AllAgree, Accounted, AgreesBut, FreeList, Seen, Marks, UnmarkedIn;
      pager.PagesInRange();
      var page;
      if load { page := pager.ReadPage(id); } else { page := Page(id, Invalid, 0, []); }
      Placed(frames, table, dirtyList, pager.Current(), used, at, id, page);
      MarksPlaced(frames, table, dirtyList, pager.Current().pages, used, reused, taken, honest, at, id, page);
      forall p | old(Known(p))
        ensures Accounted(p, frames[at := PoolFrame(page, id, 1, false, true)], table[id := at], keptUsed, pager.wal.pending.Keys)
      {
        PlacedAccounted(frames, table, dirtyList, at, id, page, p, keptUsed, pager.wal.pending.Keys);
      }
      frames := frames[at := PoolFrame(page, id, 1, false, true)];
      table := table[id := at];
    }

    /** Find or make a pinned frame for `id`: None when every frame is pinned. */
    method Obtain(id: PageId, load: bool) returns (fi: Option<nat>)
      requires Base() && AllAgree(frames, pager.Current().pages, used) && id in used && (load ==> id !in taken)
      modifies this`frames, this`table, this`hand, this`reused, pager`trace, pager.wal
      ensures reused <= old(reused) && Unwritten(old(table.Keys))
      ensures Base() && pager.Kept(old(pager.history), old(pager.trace))
      ensures forall p | old(Known(p)) :: Known(p)
      ensures |frames| == old(|frames|)
      ensures fi.None? <==> id !in old(table) && forall i | 0 <= i < |frames| :: old(frames)[i].pins > 0
      ensures fi.None? ==> AllAgree(frames, pager.Current().pages, used) && View() == old(View()) && table == old(table)
      ensures forall p | p != id :: Pins(frames, table, p) == Pins(old(frames), old(table), p)
      ensures fi.None? ==> Pins(frames, table, id) == Pins(old(frames), old(table), id)
      ensures fi.Some? ==>
                && id in table && table[id] == fi.value && frames[fi.value].page == View().pages[id]
                && Pins(frames, table, id) == Pins(old(frames), old(table), id) + 1
                && AgreesBut(frames, pager.Current().pages, used, fi.value)
      ensures fi.Some? && (load || id in old(table)) ==>
                AllAgree(frames, pager.Current().pages, used) && View() == old(View())
      ensures fi.Some? && !load && id !in old(table) ==>
                View() == With(old(View()), id, Page(id, Invalid, 0, []))
    {
      hide Pager.Valid, Pager.Current, Pager.Committed, Parted, Seen, AllAgree, Accounted, AgreesBut, With, Marks, Tracked, UnmarkedIn;
      if id in table {
        var at := table[id];
        HeldPage(frames, table, dirtyList, pager.Current(), used, id);
        Retouch(frames[at := frames[at].(pins := frames[at].pins + 1, ref := true)]);
        HeldPage(frames, table, dirtyList, pager.Current(), used, id);
        return Some(at);
      }
      var empty := EmptyFrame();
      if empty.None? {
        empty := Reclaim();
        if empty.None? { return None; }
      }
      Fault(empty.value, id, load);
      fi := empty;
    }

    /** Evict a frame to make room. */
    method Reclaim() returns (at: Option<nat>)
      requires Base() && AllAgree(frames, pager.Current().pages, used)
      requires forall i | 0 <= i < |frames| :: frames[i].id != NULL_PAGE
      modifies this`frames, this`table, this`hand, this`reused, pager`trace, pager.wal
      ensures Base() && pager.Kept(old(pager.history), old(pager.trace)) && |frames| == old(|frames|)
      ensures reused <= old(reused) && Unwritten(old(table.Keys))
      ensures AllAgree(frames, pager.Current().pages, used) && View() == old(View())
      ensures forall p | old(Known(p)) :: Known(p)
      ensures at.None? <==> forall i | 0 <= i < |frames| :: old(frames)[i].pins > 0
      ensures at.None? ==> table == old(table)
      ensures at.Some? ==> at.value < |frames| && frames[at.value].id == NULL_PAGE
      ensures forall p :: Pins(frames, table, p) == Pins(old(frames), old(table), p)
      ensures table.Keys <= old(table.Keys)
    {
      hide Pager.Valid, Pager.Current, Pager.Committed, Parted, Seen, AllAgree, Accounted, Marks, UnmarkedIn;
      ghost var fs := frames;
      var victim, steps := ChooseVictim();
      MarksTouched(fs, frames, table, pager.Current().pages, used, reused, taken, honest);
      SameSeen(fs, frames, table, dirtyList, pager.Current(), used);
      forall p | old(Known(p)) ensures Known(p) {
        SameAccounted(fs, frames, table, p, keptUsed, pager.wal.pending.Keys);
      }
      if victim.None? { return None; }
      Evict(victim.value);
      at := victim;
    }

    // ---- what the tree and the heap call ----

    ghost predicate Room() reads this { exists i :: 0 <= i < |frames| && frames[i].pins == 0 }

    /** No pin taken or given back. */
    twostate predicate SamePins() reads this {
      forall p :: Pins(frames, table, p) == Pins(old(frames), old(table), p)
    }

    method Release(fi: nat)
      requires Base() && AllAgree(frames, pager.Current().pages, used)
      requires fi < |frames| && frames[fi].id != NULL_PAGE && frames[fi].pins > 0
      modifies this`frames
      ensures Base() && AllAgree(frames, pager.Current().pages, used) && View() == old(View())
      ensures forall p | old(Known(p)) :: Known(p)
      ensures frames == old(frames)[fi := old(frames)[fi].(pins := old(frames)[fi].pins - 1)]
    {
      hide Pager.Valid, Pager.Current, Pager.Committed, Parted, Seen, AllAgree, Accounted, Marks;
      Retouch(frames[fi := frames[fi].(pins := frames[fi].pins - 1)]);
    }

    method ReadPage(id: PageId) returns (page: Option<Page>)
      requires Valid() && id in used
      modifies this`frames, this`table, this`hand, this`reused, pager`trace, pager.wal
      ensures reused <= old(reused)
      ensures Valid() && View() == old(View()) && SamePins() && pager.Kept(old(pager.history), old(pager.trace))
      ensures page.Some? <==> id in old(table) || old(Room())
      ensures page.Some? ==> page.value == View().pages[id]
    {
      hide Pager.Valid, Pager.Current, Pager.Committed, Parted, Seen, AllAgree, Accounted, AgreesBut, Marks, Tracked, UnmarkedIn;
      var fi := Obtain(id, true);
      if fi.None? { return None; }
      page := Some(frames[fi.value].page);
      Release(fi.value);
    }

    /** The page in a pinned frame replaced, and the frame listed as dirty. */
    method Put(fi: nat, page: Page)
      requires Base() && AgreesBut(frames, pager.Current().pages, used, fi)
      requires fi < |frames| && frames[fi].id == page.id != NULL_PAGE && page.id in used
      modifies this`frames, this`dirtyList, this`honest
      ensures honest == (old(honest) && !page.ptype.FreePage?)
      ensures Base() && AllAgree(frames, pager.Current().pages, used) && View() == With(old(View()), page.id, page)
      ensures forall p | old(Known(p)) :: Known(p)
      ensures Known(page.id)
      ensures frames == old(frames)[fi := old(frames)[fi].(page := page, dirty := true)]
    {
      hide Pager.Valid, Pager.Current, Pager.Committed, FreeList, Seen, AllAgree, Accounted, AgreesBut, Indexed, Marks, UnmarkedIn;
      MarksPut(frames, table, pager.Current().pages, used, reused, taken, honest, fi, page);
      Overwritten(frames, table, dirtyList, pager.Current(), used, fi, page);
      forall p | p == page.id || Known(p)
        ensures Accounted(p, frames[fi := frames[fi].(page := page, dirty := true)], table, keptUsed, pager.wal.pending.Keys)
      {
        OverwrittenAccounted(frames, table, dirtyList, fi, page, p, keptUsed, pager.wal.pending.Keys);
      }
      if !frames[fi].dirty { dirtyList := dirtyList + [fi]; }
      frames := frames[fi := frames[fi].(page := page, dirty := true)];
      honest := honest && !page.ptype.FreePage?;
    }

    /** The same, and its pin given back. */
    method PutAway(fi: nat, page: Page)
      requires Base() && AgreesBut(frames, pager.Current().pages, used, fi)
      requires fi < |frames| && frames[fi].id == page.id != NULL_PAGE && page.id in used && frames[fi].pins > 0
      modifies this`frames, this`dirtyList, this`honest
      ensures honest == (old(honest) && !page.ptype.FreePage?)
      ensures Base() && AllAgree(frames, pager.Current().pages, used) && View() == With(old(View()), page.id, page)
      ensures forall p | old(Known(p)) :: Known(p)
      ensures Known(page.id) && (page.id in table && table[page.id] == fi ==> Dirty(frames, table, page.id))
      ensures frames == old(frames)[fi := old(frames)[fi].(page := page, dirty := true, pins := old(frames)[fi].pins - 1)]
    {
      hide Pager.Valid, Pager.Current, Pager.Committed, Parted, Seen, AllAgree, Accounted, AgreesBut, Marks, UnmarkedIn, Tracked, Indexed;
      Put(fi, page);
      Release(fi);
    }

    method WritePage(id: PageId, page: Page) returns (ok: bool)
      requires Valid() && id in used && page.id == id
      modifies this`frames, this`table, this`hand, this`dirtyList, this`reused, this`honest, pager`trace, pager.wal
      ensures reused <= old(reused) && honest == (old(honest) && !(ok && page.ptype.FreePage?))
      ensures Valid() && SamePins() && pager.Kept(old(pager.history), old(pager.trace))
      ensures ok <==> id in old(table) || old(Room())
      ensures View() == if ok then With(old(View()), id, page) else old(View())
    {
      hide Pager.Valid, Pager.Current, Pager.Committed, Parted, Seen, AllAgree, Accounted, AgreesBut, Marks, Tracked, UnmarkedIn;
      var resident := id in table;
      var fi := Obtain(id, resident);
      if fi.None? { return false; }
      PutAway(fi.value, page);
      ok := true;
    }

    /** Hand out a page, blank in its frame, but in the pager as it was before; None when every frame is pinned, and the page is then in
        nobody's use until the transaction is rolled back. */
    method AllocatePage() returns (id: Option<PageId>)
      requires Valid()
      modifies this`frames, this`table, this`hand, this`dirtyList, this`used, this`freed, this`reused, this`taken, this`honest,
               pager`meta, pager`metaDirty, pager`trace, pager.wal
      ensures Valid() && SamePins() && pager.Kept(old(pager.history), old(pager.trace)) && honest == old(honest)
      ensures id.Some? ==>
                && id.value in pager.Current().pages && pager.Current().meta == AfterAllocate(old(pager.Current()), old(pager.Spare())).meta
                && pager.Current().pages[id.value] == Unfilled(old(pager.Current()), old(pager.Spare()))
      ensures id.Some? ==> id.value == (if old(freed) == [] then old(pager.Current()).meta.pageCount else old(freed)[0])
      ensures id.Some? ==>
                reused - {id.value} <= old(reused) &&
                (id.value in reused <==> old(freed) != [] || old(pager.Spare()).ptype.FreePage?)
      ensures id.None? ==> reused <= old(reused)
      ensures id.Some? <==> old(Room())
      ensures freed == Tail(old(freed))
      ensures id.None? ==> used == old(used)
      ensures id.Some? ==>
                && id == AllocateId(old(pager.Current())) && id.value !in old(used) && used == old(used) + {id.value}
                && View() == Contents(AfterAllocate(old(pager.Current()), old(pager.Spare())).meta,
                                      old(View()).pages[id.value := Page(id.value, Invalid, 0, [])])
      ensures id.Some? ==> PoolHandsOut(old(View()), old(freed), id.value, View())
    {
      hide Pager.Valid, Pager.Current, Pager.Spare, Parted, Seen, AllAgree, Accounted, AgreesBut, AfterAllocate, AllocateId, Marks, Unfilled, PoolHandsOut;
      HandedOut(frames, table, dirtyList, pager.Current(), used, freed, pager.Spare());
      NextUp(pager.Current(), used, freed, pager.Spare());
      ghost var was, view, list, spare := pager.Current(), View(), freed, pager.Spare();
      SeenMeta(frames, table, was);
      ghost var had := used;
      MarksTaken(frames, table, pager.Current(), used, reused, honest, pager.Spare());
      id := pager.AllocatePage();
      used, freed, taken := used + {id.value}, Tail(freed), {id.value};
      var ok := Enter(id.value);
      NextMeta(was, view, had, list, spare, id.value);
      if !ok { id := None; }
    }

    /** Give the page handed out a frame of its own, blank and to be written. */
    method Enter(id: PageId) returns (ok: bool)
      requires Base() && AllAgree(frames, pager.Current().pages, used) && id in used && id !in table
      requires taken == {id} && Parted(pager.Current(), used - {id}, freed) && forall p | p in used && p != id :: Known(p)
      modifies this`frames, this`table, this`hand, this`dirtyList, this`used, this`reused, this`taken, this`honest, pager`trace, pager.wal
      ensures Valid() && SamePins() && pager.Kept(old(pager.history), old(pager.trace)) && honest == old(honest)
      ensures ok <==> old(Room())
      ensures if ok then used == old(used) && View() == With(old(View()), id, Page(id, Invalid, 0, []))
              else used == old(used) - {id} && reused <= old(reused)
      ensures pager.Current().meta == old(pager.Current()).meta
      ensures ok ==> id in pager.Current().pages && id in old(pager.Current()).pages && pager.Current().pages[id] == old(pager.Current()).pages[id]
      ensures ok ==> reused - {id} <= old(reused) && (id in reused <==> pager.Current().pages[id].ptype.FreePage?)
    {
      hide Pager.Valid, Pager.Current, Parted, Seen, AllAgree, Accounted, AgreesBut, Marks, Tracked, UnmarkedIn;
      PartedIn(pager.Current(), used, freed, id);
      NoFrame(id);
      var fi := Obtain(id, false);
      if fi.None? {
        NotTaken(id);
        return false;
      }
      PutAway(fi.value, frames[fi.value].page);
      Settle(id);
      ok := true;
    }

    lemma NoFrame(id: PageId)
      requires Base() && id !in table
      ensures id !in reused
    {
    }

    /** Its frame holds a change: the page is in use. */
    method Settle(id: PageId)
      requires Base() && AllAgree(frames, pager.Current().pages, used) && taken == {id} && Dirty(frames, table, id)
      requires id in pager.Current().pages && forall p | p in used :: Known(p)
      modifies this`reused, this`taken
      ensures Valid() && View() == old(View())
      ensures reused == old(reused) + if pager.Current().pages[id].ptype.FreePage? then {id} else {}
    {
      hide Pager.Valid, Pager.Current, Pager.Committed, Parted, Seen, AllAgree, Accounted, Marks, Indexed, UnmarkedIn;
      MarksUsed(frames, table, pager.Current().pages, used, reused, honest, id);
      reused, taken := reused + if pager.Current().pages[id].ptype.FreePage? then {id} else {}, {};
    }

    /** The page that could not be given a frame is in nobody's use. */
    method NotTaken(id: PageId)
      requires Base() && AllAgree(frames, pager.Current().pages, used) && id !in table && taken <= {id}
      requires forall p | p in used && p != id :: Known(p)
      modifies this`used, this`reused, this`taken
      ensures Valid() && used == old(used) - {id} && reused == old(reused) - {id}
    {
      hide Pager.Valid, Pager.Current, Pager.Committed, Parted, Seen, Accounted, Marks;
      PartedLess(pager.Current(), used, freed, id);
      MarksGone(frames, table, pager.Current().pages, used, reused, taken, honest, id);
      used, reused, taken := used - {id}, reused - {id}, {};
    }

    /** Give a page back. False, and only the frame forgotten, when the pager's own copy is
        marked free. If no client ever wrote a page marked free, those are exactly the pages
        handed out off the free list and not written back since. */
    method FreePage(id: PageId) returns (ok: bool)
      requires Valid() && id in used && Pins(frames, table, id) == 0
      modifies this`frames, this`table, this`used, this`freed, this`reused, this`taken, pager`meta, pager`metaDirty, pager`trace, pager.wal
      ensures (id in old(reused) ==> !ok) && (honest ==> (ok <==> id !in old(reused))) && reused == old(reused) - {id}
      ensures old(Room()) ==> Room()
      ensures Valid() && SamePins() && pager.Kept(old(pager.history), old(pager.trace))
      ensures id in old(pager.Current()).pages && ok == !old(pager.Current()).pages[id].ptype.FreePage?
      ensures used == old(used) - {id} && id !in table
      ensures freed == if ok then [id] + old(freed) else old(freed)
      ensures View() == if ok then AfterFree(old(View()), id) else With(old(View()), id, old(pager.Current()).pages[id])
      ensures ok ==> TakesBack(old(View()), id, View())
    {
      hide Pager.Valid, Pager.Current, Parted, Seen, AllAgree, FreeList, Indexed, Marks;
      PartedLess(pager.Current(), used, freed, id);
      PartedIn(pager.Current(), used, freed, id);
      MarkedIff(id);
      pager.PagesInRange();
      Forget(id);
      ok := GiveBack(id);
    }

    /** The page, in no frame, goes on the free list. */
    method GiveBack(id: PageId) returns (ok: bool)
      requires Base() && AllAgree(frames, pager.Current().pages, used - {id}) && taken <= {id} && id in used && id !in table
      requires Parted(pager.Current(), used - {id}, freed) && id in pager.Current().pages && forall p | p in used && p != id :: Known(p)
      modifies this`used, this`freed, this`reused, this`taken, pager`meta, pager`metaDirty, pager`trace, pager.wal
      ensures Valid() && pager.Kept(old(pager.history), old(pager.trace))
      ensures ok == !old(pager.Current()).pages[id].ptype.FreePage?
      ensures used == old(used) - {id} && freed == (if ok then [id] + old(freed) else old(freed)) && reused == old(reused) - {id}
      ensures View() == if ok then AfterFree(old(View()), id) else old(View())
    {
      hide Pager.Valid, Pager.Current, Parted, Seen, AllAgree, FreeList, Indexed, Marks, UnmarkedIn;
      pager.PagesInRange();
      MarksGone(frames, table, pager.Current().pages, used, reused, taken, honest, id);
      used, reused, taken := used - {id}, reused - {id}, {};
      ghost var c := pager.Current();
      MarksFreed(frames, table, c, used, reused, honest, id);
      if !c.pages[id].ptype.FreePage? { TakenBack(frames, table, dirtyList, c, used, freed, id); }
      ok := pager.FreePage(id);
      if ok { freed := [id] + freed; }
    }

    /** Which of the pages in use the pager's copies of are marked free. */
    lemma MarkedIff(id: PageId)
      requires Valid() && id in used && id in pager.Current().pages
      ensures id in reused ==> pager.Current().pages[id].ptype.FreePage?
      ensures honest ==> (pager.Current().pages[id].ptype.FreePage? <==> id in reused)
    {
    }

    /** Drop the frame of a page about to be freed: its contents are void. */
    method Forget(id: PageId)
      requires Base() && AllAgree(frames, pager.Current().pages, used) && Pins(frames, table, id) == 0
      requires id in pager.Current().pages && taken == {}
      modifies this`frames, this`table, this`reused, this`taken
      ensures taken <= {id} && reused - {id} == old(reused) - {id} && (old(Room()) ==> Room())
      ensures Base() && AllAgree(frames, pager.Current().pages, used - {id}) && SamePins() && id !in table
      ensures View() == With(old(View()), id, pager.Current().pages[id])
      ensures forall p | p != id && old(Known(p)) :: Known(p)
    {
      hide Pager.Valid, Pager.Current, Pager.Committed, Parted, Seen, AllAgree, Accounted, Pins, Marks, UnmarkedIn;
      if id in table {
        var fi := table[id];
        HeldPins(frames, table, id);
        ghost var f := Dropped(frames[fi].(page := ZERO_PAGE));
        MarksDropped(frames, table, dirtyList, pager.Current().pages, used, reused, taken, honest, fi, f);
        DroppedAny(frames, table, dirtyList, pager.Current(), used, fi, f);
        forall p
          ensures Pins(frames[fi := f], table - {id}, p) == Pins(frames, table, p)
          ensures p != id && Known(p) ==> Accounted(p, frames[fi := f], table - {id}, keptUsed, pager.wal.pending.Keys)
        {
          ForgottenRest(frames, table, dirtyList, fi, f, p, keptUsed, pager.wal.pending.Keys);
        }
        ghost var fs := frames;
        frames := frames[fi := frames[fi].(page := ZERO_PAGE)];
        table := table - {id};
        frames := frames[fi := Dropped(frames[fi])];
        assert frames == fs[fi := f];
        reused, taken := reused - {id}, taken + {id};
        assert frames[fi].pins == 0 && Room();
      } else {
        NotHeld(frames, table, dirtyList, pager.Current(), used, id);
      }
    }

    /** A change some frame holds, or the log, or the meta page. */
    ghost predicate InTransaction() reads this, pager, pager.wal {
      pager.InTransaction() || exists i :: 0 <= i < |frames| && frames[i].dirty
    }

    /** End the transaction: the pager has every change, and the commit is in its
        history. */
    method Commit()
      requires Valid()
      modifies this`frames, this`dirtyList, this`keptUsed, this`keptFreed, this`reused, pager`dbSafe, pager`dbQueue, pager`trace,
               pager`history, pager`filePages, pager`committedMeta, pager`metaDirty, pager.wal
      ensures Valid() && !InTransaction() && SamePins() && old(pager.trace) <= pager.trace
      ensures pager.history == old(pager.history) + if old(InTransaction()) then [old(View())] else []
      ensures View() == pager.Current() == pager.Committed() == old(View())
      ensures keptUsed == used && keptFreed == freed && reused == {}
    {
      hide Pager.Valid, Pager.Current, Parted, Seen, AllAgree, Pins, FreeList, Indexed, Marks;
      FlushDirty();
      AllWritten();
      ghost var t := pager.trace;
      CleanSeen(frames, table, dirtyList, pager.Current(), used);
      dirtyList := [];
      pager.Commit();
      Prefixes(old(pager.trace), t, pager.trace);
      keptUsed, keptFreed := used, freed;
      pager.PagesInRange();
    }

    /** With no change left in a frame, no page is reused and not written back. */
    lemma AllWritten()
      requires Base() && taken == {} && forall i | 0 <= i < |frames| :: !frames[i].dirty
      ensures reused == {} && (honest ==> UnmarkedIn(pager.Current().pages, used))
    {
      assert used - reused - taken == used;
    }

    /** Write every dirty frame to the pager. */
    method FlushDirty()
      requires Valid()
      modifies this`frames, this`reused, pager`trace, pager.wal
      ensures Base() && AllAgree(frames, pager.Current().pages, used) && View() == old(View()) && SamePins()
      ensures pager.Kept(old(pager.history), old(pager.trace))
      ensures forall i | 0 <= i < |frames| :: !frames[i].dirty
      ensures pager.InTransaction() <==> old(InTransaction())
      ensures forall p | p in used :: Known(p)
    {
      hide Pager.Valid, Pager.Current, Parted, Seen, AllAgree, Pins, DirtyIn, Marks, UnmarkedIn;
      var k := 0;
      assert dirtyList[0..] == dirtyList;
      DirtyAtFirst();
      while k < |dirtyList|
        invariant k <= |dirtyList| && |frames| == old(|frames|)
        invariant Base() && AllAgree(frames, pager.Current().pages, used) && View() == old(View()) && SamePins()
        invariant pager.Kept(old(pager.history), old(pager.trace))
        invariant DirtyIn(frames, dirtyList[k..])
        invariant InTransaction() <==> old(InTransaction())
        invariant forall p | p in used :: Known(p)
      {
        var fi := dirtyList[k];
        assert dirtyList[k..][0] == fi && dirtyList[k..][1..] == dirtyList[k + 1..];
        DirtyNext(frames, dirtyList[k..], fi, frames[fi].(dirty := false));
        k := k + 1;
        if frames[fi].id == NULL_PAGE || !frames[fi].dirty { continue; }
        WriteBack(fi);
        Cleaned(frames, table, dirtyList, pager.Current(), fi);
        frames := frames[fi := frames[fi].(dirty := false)];
      }
      assert dirtyList[k..] == [];
      NoneDirty(frames, dirtyList[k..]);
    }

    lemma DirtyAtFirst()
      requires Indexed(frames, table, dirtyList)
      ensures DirtyIn(frames, dirtyList)
    {
    }

    /** Drop a frame with whatever it holds. */
    method Discard(fi: nat)
      requires Base() && AllAgree(frames, pager.Current().pages, used)
      requires fi < |frames| && frames[fi].id != NULL_PAGE && frames[fi].pins == 0
      modifies this`frames, this`table, this`reused, this`taken
      ensures Base() && AllAgree(frames, pager.Current().pages, used) && SamePins()
      ensures forall p | p != old(frames)[fi].id && old(Known(p)) :: Known(p)
      ensures frames == old(frames)[fi := Dropped(old(frames)[fi])] && table == old(table) - {old(frames)[fi].id}
    {
      hide Pager.Valid, Pager.Current, Pager.Committed, Parted, Seen, AllAgree, Accounted, Pins, Marks, UnmarkedIn;
      ghost var f := Dropped(frames[fi]);
      MarksDropped(frames, table, dirtyList, pager.Current().pages, used, reused, taken, honest, fi, f);
      DroppedAny(frames, table, dirtyList, pager.Current(), used, fi, f);
      forall p
        ensures Pins(frames[fi := f], table - {frames[fi].id}, p) == Pins(frames, table, p)
        ensures p != frames[fi].id && Known(p) ==>
                  Accounted(p, frames[fi := f], table - {frames[fi].id}, keptUsed, pager.wal.pending.Keys)
      {
        ForgottenRest(frames, table, dirtyList, fi, f, p, keptUsed, pager.wal.pending.Keys);
      }
      reused, taken := reused - {frames[fi].id}, taken + {frames[fi].id};
      Drop(fi);
    }

    method DropDirty()
      requires Valid() && PinsClean(frames, pager.wal.pending.Keys)
      modifies this`frames, this`table, this`reused, this`taken
      ensures Base() && AllAgree(frames, pager.Current().pages, used) && SamePins()
      ensures forall i | 0 <= i < |frames| :: !frames[i].dirty
      ensures forall id | id in table :: Known(id)
      ensures PinsClean(frames, pager.wal.pending.Keys)
    {
      hide Pager.Valid, Pager.Current, Pager.Committed, Parted, Seen, AllAgree, Pins, DirtyIn, Accounted, Marks;
      var k := 0;
      assert dirtyList[0..] == dirtyList;
      DirtyAtFirst();
      Held(frames, table, dirtyList, pager.Current(), used);
      while k < |dirtyList|
        invariant k <= |dirtyList|
        invariant Base() && AllAgree(frames, pager.Current().pages, used) && SamePins()
        invariant DirtyIn(frames, dirtyList[k..]) && PinsClean(frames, pager.wal.pending.Keys)
        invariant forall id | id in table :: Known(id)
      {
        var fi := dirtyList[k];
        assert dirtyList[k..][0] == fi && dirtyList[k..][1..] == dirtyList[k + 1..];
        DirtyNext(frames, dirtyList[k..], fi, Dropped(frames[fi]));
        k := k + 1;
        if frames[fi].id == NULL_PAGE || !frames[fi].dirty { continue; }
        PinsCleanDropped(frames, pager.wal.pending.Keys, fi);
        Discard(fi);
      }
      assert dirtyList[k..] == [];
      NoneDirty(frames, dirtyList[k..]);
    }

    method DropPending()
      requires Base() && AllAgree(frames, pager.Current().pages, used)
      requires (forall i | 0 <= i < |frames| :: !frames[i].dirty) && forall id | id in table :: Known(id)
      requires PinsClean(frames, pager.wal.pending.Keys)
      modifies this`frames, this`table, this`reused, this`taken
      ensures Base() && AllAgree(frames, pager.Current().pages, used) && SamePins()
      ensures forall i | 0 <= i < |frames| :: !frames[i].dirty
      ensures forall id | id in table :: id in keptUsed && id !in pager.wal.pending
    {
      hide Pager.Valid, Pager.Current, Pager.Committed, Parted, Seen, AllAgree, Pins, Marks;
      var ids := pager.wal.pending.Keys;
      while ids != {}
        invariant ids <= pager.wal.pending.Keys
        invariant Base() && AllAgree(frames, pager.Current().pages, used) && SamePins()
        invariant (forall i | 0 <= i < |frames| :: !frames[i].dirty) && forall id | id in table :: Known(id)
        invariant PinsClean(frames, pager.wal.pending.Keys)
        invariant forall id | id in table && id in pager.wal.pending :: id in ids
        decreases |ids|
      {
        var id :| id in ids;
        ids := ids - {id};
        if id !in table { continue; }
        PinsCleanDropped(frames, pager.wal.pending.Keys, table[id]);
        Discard(table[id]);
      }
    }

    /** Everything since the last commit never happened: drop every frame the
        transaction changed, dirty or written back and read again. */
    method Rollback()
      requires Valid() && PinsClean(frames, pager.wal.pending.Keys)
      modifies this`frames, this`table, this`dirtyList, this`used, this`freed, this`reused, this`taken, pager`meta, pager`metaDirty,
               pager.wal`pending, pager.wal`end
      ensures reused == {}
      ensures Valid() && !InTransaction() && SamePins()
      ensures View() == pager.Current() == pager.Committed() == old(pager.Committed())
      ensures used == keptUsed && freed == keptFreed
    {
      hide Pager.Valid, Pager.Current, Parted, Seen, AllAgree, Pins, FreeList, Indexed, UnmarkedIn, Marks;
      DropDirty();
      DropPending();
      AsCommitted();
      KeptMarks();
      dirtyList := [];
      used, freed, reused, taken := keptUsed, keptFreed, {}, {};
      pager.Rollback();
      pager.PagesInRange();
    }

    lemma KeptMarks()
      requires Base()
      ensures Marks(frames, table, pager.Committed().pages, keptUsed, {}, {}, honest)
    {
      assert keptUsed - {} - {} == keptUsed;
    }

    lemma AsCommitted()
      requires Base() && AllAgree(frames, pager.Current().pages, used)
      requires forall i | 0 <= i < |frames| :: !frames[i].dirty
      requires forall id | id in table :: id in keptUsed && id !in pager.wal.pending
      ensures |pager.history| > 0 && AllAgree(frames, pager.Committed().pages, keptUsed) && Indexed(frames, table, [])
      ensures Seen(frames, table, pager.Committed()) == pager.Committed()
    {
      hide Pager.Valid, Pager.Current, FreeList, Seen, Indexed, AllAgree;
      pager.PagesInRange();
      ghost var c, k := pager.Current(), pager.Committed();
      forall id | id in table ensures id in c.pages && id in k.pages && k.pages[id] == c.pages[id] {
        PartedIn(k, keptUsed, keptFreed, id);
        pager.UnwrittenIsCommitted(id);
      }
      AgreeCommitted(frames, table, dirtyList, c.pages, used, k.pages, keptUsed);
      CleanSeen(frames, table, dirtyList, k, keptUsed);
    }

    // ---- pins ----

    /** Pin a page and keep it resident until it is unpinned. */
    method FetchPin(id: PageId) returns (fi: Option<nat>)
      requires Valid() && id in used
      modifies this`frames, this`table, this`hand, this`reused, pager`trace, pager.wal
      ensures reused <= old(reused)
      ensures Valid() && View() == old(View()) && pager.Kept(old(pager.history), old(pager.trace))
      ensures fi.Some? <==> id in old(table) || old(Room())
      ensures fi.Some? ==> fi.value < |frames| && frames[fi.value].id == id && frames[fi.value].page == View().pages[id]
      ensures forall p :: Pins(frames, table, p) == Pins(old(frames), old(table), p) + if p == id && fi.Some? then 1 else 0
    {
      hide Pager.Valid, Pager.Current, Pager.Committed, Parted, Seen, AllAgree, Accounted, AgreesBut, Marks, Tracked, UnmarkedIn;
      fi := Obtain(id, true);
    }

    /** Give a pin back; `changed` is the page as its holder left it, if changed. */
    method Unpin(id: PageId, changed: Option<Page>)
      requires Valid() && Pins(frames, table, id) > 0 && (changed.Some? ==> changed.value.id == id)
      modifies this`frames, this`dirtyList, this`honest
      ensures honest == (old(honest) && !(changed.Some? && changed.value.ptype.FreePage?))
      ensures Valid() && View() == (if changed.Some? then With(old(View()), id, changed.value) else old(View()))
      ensures forall p :: Pins(frames, table, p) == Pins(old(frames), table, p) - if p == id then 1 else 0
    {
      hide Pager.Valid, Pager.Current, Pager.Committed, Parted, Seen, AllAgree, Accounted, AgreesBut, Marks, UnmarkedIn;
      var fi := table[id];
      HeldPage(frames, table, dirtyList, pager.Current(), used, id);
      Held(frames, table, dirtyList, pager.Current(), used);
      if changed.Some? { Put(fi, changed.value); }
      Release(fi);
    }
  }

  /** A page is freed, handed out again and freed again: the pool refuses, taking it for a
      page freed twice. */
  method FreeAgain(pool: BufferPool, id: PageId) returns (first: bool, again: Option<PageId>, second: bool)
    requires pool.Valid() && pool.honest && id in pool.used && id !in pool.reused && Pins(pool.frames, pool.table, id) == 0 && pool.Room()
    modifies pool, pool.pager, pool.pager.wal
    ensures pool.Valid() && first && again == Some(id) && !second
  {
    hide BufferPool.Valid, BufferPool.View, Pins, BufferPool.Room;
    first := pool.FreePage(id);
    again := pool.AllocatePage();
    second := pool.FreePage(id);
  }

  /** Had the pool written the page back in between, it would not. */
  method FreeWrittenBack(pool: BufferPool, id: PageId) returns (first: bool, again: Option<PageId>, second: bool)
    requires pool.Valid() && pool.honest && id in pool.used && id !in pool.reused && Pins(pool.frames, pool.table, id) == 0 && pool.Room()
    modifies pool, pool.pager, pool.pager.wal
    ensures pool.Valid() && first && again == Some(id) && second
  {
    hide BufferPool.Valid, BufferPool.View, Pins, BufferPool.Room;
    first := pool.FreePage(id);
    again := pool.AllocatePage();
    pool.Commit();
    second := pool.FreePage(id);
  }
}
