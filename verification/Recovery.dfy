/** What opening a database finds in its two files: the meaning of the log that
    the writing, committing, checkpointing and recovering code all keep to. */
module Recovery {
  import opened Wrappers
  import opened Disk

  predicate ValidFrame(s: Slot, gen: nat) { s.Frame? && s.gen == gen }

  /** The recovery scan from slot `i`: where it stops. */
  function ScanEnd(slots: seq<Slot>, gen: nat, i: nat): (r: nat)
    requires i <= |slots|
    ensures i <= r <= |slots|
    decreases |slots| - i
  {
    if i < |slots| && ValidFrame(slots[i], gen) then ScanEnd(slots, gen, i + 1) else i
  }

  /** It stops at the first slot that holds no frame of this generation. */
  lemma {:induction false} ScanEndIs(slots: seq<Slot>, gen: nat, i: nat)
    requires i <= |slots|
    ensures var r := ScanEnd(slots, gen, i);
            (forall k | i <= k < r :: ValidFrame(slots[k], gen)) && (r < |slots| ==> !ValidFrame(slots[r], gen))
    decreases |slots| - i
  {
    if i < |slots| && ValidFrame(slots[i], gen) { ScanEndIs(slots, gen, i + 1); }
  }

  predicate IsCommit(s: Slot) { s.Frame? && s.commit }

  /** The slot after the last commit frame among the first `n`; 0 if none. */
  function LastCommit(slots: seq<Slot>, n: nat): (r: nat)
    requires n <= |slots|
    ensures r <= n
  {
    if n == 0 then 0 else if IsCommit(slots[n - 1]) then n else LastCommit(slots, n - 1)
  }

  lemma {:induction false} LastCommitIs(slots: seq<Slot>, n: nat)
    requires n <= |slots|
    ensures var r := LastCommit(slots, n);
            (r > 0 ==> IsCommit(slots[r - 1])) && (forall k | r <= k < n :: !IsCommit(slots[k]))
  {
    if n > 0 && !IsCommit(slots[n - 1]) { LastCommitIs(slots, n - 1); }
  }

  /** The last slot holding each page, among the first `n`. */
  function Latest(slots: seq<Slot>, n: nat): (m: map<PageId, nat>)
    requires n <= |slots|
    ensures forall id | id in m :: m[id] < n && slots[m[id]].Frame? && slots[m[id]].id == id
  {
    if n == 0 then map[]
    else if slots[n - 1].Frame? then Latest(slots, n - 1)[slots[n - 1].id := n - 1]
    else Latest(slots, n - 1)
  }

  lemma {:induction false} LatestIs(slots: seq<Slot>, n: nat)
    requires n <= |slots|
    ensures var m := Latest(slots, n);
            (forall k | 0 <= k < n && slots[k].Frame? :: slots[k].id in m && k <= m[slots[k].id])
  {
    if n > 0 { LatestIs(slots, n - 1); }
  }

  function CommitEnd(log: Log): (r: nat)
    ensures r <= |log.slots|
  {
    if log.header.None? then 0 else LastCommit(log.slots, ScanEnd(log.slots, log.header.value, 0))
  }

  /** The images in the slots an index names. */
  function Images(slots: seq<Slot>, at: map<PageId, nat>): map<PageId, Image> {
    map id | id in at && at[id] < |slots| && slots[at[id]].Frame? :: slots[at[id]].image
  }

  function Overlay(log: Log): map<PageId, Image> {
    Images(log.slots, Latest(log.slots, CommitEnd(log)))
  }

  /** A database's contents: the meta page, and every page in range. */
  datatype Contents = Contents(meta: Meta, pages: map<PageId, Page>)

  ghost predicate PageIs(db: seq<Block>, ov: map<PageId, Image>, id: PageId, p: Page) {
    if id in ov then ov[id] == PageImage(p)
    else if id < |db| then db[id] == PageImage(p)
    else p == ZERO_PAGE
  }

  ghost predicate InRange(c: Contents) {
    && (forall id :: id in c.pages <==> 1 <= id < c.meta.pageCount)
    && (forall id | id in c.pages :: Named(id, c.pages[id]))
  }

  /** A meta page, then pages that know their ids. */
  ghost predicate Formed(db: seq<Block>) {
    |db| > 0 && db[0].MetaImage? && forall id | 1 <= id < |db| :: db[id].PageImage? && Named(id, db[id].page)
  }

  /** The file, with the pages `ov` of the log laid over it, holds `c`. Without
      a committed meta page in the log the file's own is in force, and the file
      must be as long as it says; it may be longer. */
  ghost predicate Holds(db: seq<Block>, ov: map<PageId, Image>, c: Contents) {
    && Formed(db) && c.meta.pageCount >= 1
    && (ov != map[] ==> 0 in ov)
    && (forall id | id in ov :: id < c.meta.pageCount)
    && (if 0 in ov then ov[0] == MetaImage(c.meta)
        else db[0].meta == c.meta && c.meta.pageCount <= |db|)
    && InRange(c)
    && (forall id | id in c.pages :: PageIs(db, ov, id, c.pages[id]))
  }

  /** The log holds the commits of generation `gen` in its first `c` slots, no
      other commit of it, and no commit of a later one. */
  ghost predicate Settled(log: Log, gen: nat, c: nat) {
    && log.header == Some(gen)
    && c <= |log.slots|
    && (forall k | 0 <= k < c :: ValidFrame(log.slots[k], gen))
    && (c > 0 ==> IsCommit(log.slots[c - 1]))
    && (forall k | c <= k < |log.slots| :: ValidFrame(log.slots[k], gen) ==> !IsCommit(log.slots[k]))
    && CommitsBefore(log, gen + 1)
  }

  /** The commit frame is the meta page's, and only it holds the meta page. */
  predicate Typed(s: Slot) {
    s.Frame? ==> (s.commit <==> s.id == 0) && (s.image.MetaImage? <==> s.id == 0)
  }

  /** Every commit frame is of a generation before `gen`. */
  ghost predicate CommitsBefore(log: Log, gen: nat) {
    forall k | 0 <= k < |log.slots| :: Typed(log.slots[k]) && (IsCommit(log.slots[k]) ==> log.slots[k].gen < gen)
  }

  /** A log whose next generation is that of no commit frame in it: whatever else is left
      of it, a log begun anew in its place commits nothing. */
  ghost predicate Tidy(log: Log) {
    log.header.Some? ==> CommitsBefore(log, log.header.value + 1)
  }

  /** A log that opens, and commits exactly the images `ov`. */
  ghost predicate LogIs(log: Log, ov: map<PageId, Image>) {
    Tidy(log) && Overlay(log) == ov
  }

  /** Opening these files yields exactly the contents `c`, in a session that may go on. */
  ghost predicate Recovers(d: Files, c: Contents) {
    Holds(d.db, Overlay(d.log), c) && Tidy(d.log)
  }

  /** What opening a database finds, if it opens: the meta page in force is the log's, if it
      commits any; else the file's, if the file is as long as that says. */
  function Found(db: seq<Block>, ov: map<PageId, Image>): Option<Contents> {
    if db == [] || !db[0].MetaImage? then None
    else if ov == map[] then (if db[0].meta.pageCount <= |db| then Some(ContentsOf(db, ov, db[0].meta)) else None)
    else if 0 in ov && ov[0].MetaImage? then Some(ContentsOf(db, ov, ov[0].meta))
    else None
  }

  /** Whatever becomes of the next session, opening these files finds `c`. */
  ghost predicate Finds(d: Files, c: Contents) { Found(d.db, Overlay(d.log)) == Some(c) }

  lemma HoldsFound(db: seq<Block>, ov: map<PageId, Image>, c: Contents)
    requires Holds(db, ov, c)
    ensures Found(db, ov) == Some(c)
  {
    HoldsContents(db, ov, c);
  }

  lemma RecoversFinds(d: Files, c: Contents)
    requires Recovers(d, c)
    ensures Finds(d, c)
  {
    hide Overlay, Tidy, Holds, Found;
    HoldsFound(d.db, Overlay(d.log), c);
  }

  lemma SettledEnd(log: Log, gen: nat, c: nat)
    requires Settled(log, gen, c)
    ensures CommitEnd(log) == c
  {
    var n := ScanEnd(log.slots, gen, 0);
    ScanEndIs(log.slots, gen, 0);
    LastCommitIs(log.slots, n);
    assert n >= c;
    var r := LastCommit(log.slots, n);
    assert r > 0 ==> ValidFrame(log.slots[r - 1], gen);
  }

  lemma {:induction false} LatestSame(s: seq<Slot>, t: seq<Slot>, n: nat)
    requires n <= |s| && n <= |t|
    requires forall k | 0 <= k < n :: s[k].Frame? == t[k].Frame? && (s[k].Frame? ==> s[k].id == t[k].id)
    ensures Latest(s, n) == Latest(t, n)
  {
    if n > 0 {
      LatestSame(s, t, n - 1);
      assert s[n - 1].Frame? == t[n - 1].Frame?;
    }
  }

  /** What a log commits depends only on its slots up to the last commit. */
  lemma SettledOverlay(a: Log, b: Log, gen: nat, c: nat)
    requires Settled(a, gen, c) && Settled(b, gen, c) && a.slots[..c] == b.slots[..c]
    ensures LogIs(b, Overlay(a))
  {
    SettledEnd(a, gen, c);
    SettledEnd(b, gen, c);
    forall k | 0 <= k < c ensures a.slots[k] == b.slots[k] {
      assert a.slots[..c][k] == b.slots[..c][k];
    }
    LatestSame(a.slots, b.slots, c);
  }

  /** A log with no header, or none of whose frames is of the header's
      generation, commits nothing. */
  lemma NothingCommitted(log: Log)
    requires log.header.Some? ==> CommitsBefore(log, log.header.value)
    ensures LogIs(log, map[])
    ensures log.header.Some? ==> Settled(log, log.header.value, 0)
  {
    if log.header.Some? {
      assert Settled(log, log.header.value, 0);
      SettledEnd(log, log.header.value, 0);
    }
    assert Latest(log.slots, 0) == map[];
  }

  /** Writing a header over a log none of whose frames it claims. */
  lemma PutHeaderKeeps(log: Log, gen: nat)
    requires CommitsBefore(log, gen)
    ensures LogIs(TearLog(log, PutHeader(gen)), map[])
    ensures LogIs(ApplyLog(log, PutHeader(gen)), map[])
    ensures Settled(ApplyLog(log, PutHeader(gen)), gen, 0)
  {
    NothingCommitted(TearLog(log, PutHeader(gen)));
    NothingCommitted(ApplyLog(log, PutHeader(gen)));
  }

  /** Writing a frame past the last commit commits nothing, whole or torn. */
  lemma PutSlotKeeps(log: Log, gen: nat, c: nat, i: nat, s: Slot)
    requires Settled(log, gen, c) && c <= i <= |log.slots|
    requires s.Frame? && s.gen == gen && !s.commit && Typed(s)
    ensures Settled(ApplyLog(log, PutSlot(i, s)), gen, c)
    ensures LogIs(ApplyLog(log, PutSlot(i, s)), Overlay(log))
    ensures LogIs(TearLog(log, PutSlot(i, s)), Overlay(log))
  {
    SettledOverlay(log, ApplyLog(log, PutSlot(i, s)), gen, c);
    SettledOverlay(log, TearLog(log, PutSlot(i, s)), gen, c);
  }

  /** Writing a commit frame right after the transaction's frames. */
  lemma PutCommit(log: Log, gen: nat, c: nat, e: nat, image: Image)
    requires Settled(log, gen, c) && c <= e <= |log.slots|
    requires image.MetaImage? && forall k | c <= k < e :: ValidFrame(log.slots[k], gen)
    ensures Settled(ApplyLog(log, PutSlot(e, Frame(0, gen, true, image))), gen, e + 1)
    ensures LogIs(TearLog(log, PutSlot(e, Frame(0, gen, true, image))), Overlay(log))
  {
    SettledOverlay(log, TearLog(log, PutSlot(e, Frame(0, gen, true, image))), gen, c);
  }

  /** `log`, as a process whose header is or is not in the file knows it. */
  ghost predicate Opened(log: Log, headerOk: bool, gen: nat, c: nat) {
    if headerOk then Settled(log, gen, c) else log.header.None? && CommitsBefore(log, gen) && c == 0
  }

  /** As a process that has just scanned it knows it: what lies past the last commit may
      yet be a commit frame cut off from it. */
  ghost predicate Scanned(log: Log, headerOk: bool, gen: nat, c: nat) {
    if headerOk then log.header == Some(gen) && CommitEnd(log) == c && CommitsBefore(log, gen + 1)
    else log.header.None? && CommitsBefore(log, gen) && c == 0
  }

  lemma OpenedScanned(log: Log, headerOk: bool, gen: nat, c: nat)
    requires Opened(log, headerOk, gen, c)
    ensures Scanned(log, headerOk, gen, c)
  {
    if headerOk { SettledEnd(log, gen, c); }
  }

  /** The writes that put one frame in the log. */
  function FrameWrites(headerOk: bool, gen: nat, slot: nat, s: Slot): seq<LogWrite> {
    (if headerOk then [] else [PutHeader(gen)]) + [PutSlot(slot, s)]
  }

  /** `ws`, issued one by one on `log`: whatever is cut short before the last of
      them is whole, the log commits exactly `ov`. */
  ghost predicate Harmless(log: Log, ws: seq<LogWrite>, ov: map<PageId, Image>) {
    forall i | 0 <= i < |ws| ::
      LogIs(RunLog(log, ws[..i]), ov) && LogIs(TearLog(RunLog(log, ws[..i]), ws[i]), ov)
  }

  function Headed(log: Log, gen: nat): Log { log.(header := Some(gen)) }

  lemma OpenedHead(log: Log, headerOk: bool, gen: nat, c: nat)
    requires Opened(log, headerOk, gen, c)
    ensures Settled(Headed(log, gen), gen, c) && LogIs(log, Overlay(log))
    ensures Overlay(Headed(log, gen)) == Overlay(log)
  {
    if headerOk {
      SettledEnd(log, gen, c);
      assert Headed(log, gen) == log;
    } else {
      NothingCommitted(log);
      PutHeaderKeeps(log, gen);
    }
  }

  /** A frame that does not commit leaves what the log commits as it is, at every
      point of its writing; so does a commit frame, until it is whole. */
  lemma {:induction false} FrameHarmless(log: Log, headerOk: bool, gen: nat, c: nat, slot: nat, s: Slot)
    requires Opened(log, headerOk, gen, c) && c <= slot <= |log.slots|
    requires s.Frame? && s.gen == gen && Typed(s)
    ensures var ws := FrameWrites(headerOk, gen, slot, s);
            Harmless(log, ws, Overlay(log)) &&
            RunLog(log, ws) == ApplyLog(Headed(log, gen), PutSlot(slot, s))
  {
    OpenedHead(log, headerOk, gen, c);
    TornFrame(Headed(log, gen), gen, c, slot, s);
    if headerOk {
      hide *;
      HarmlessOne(log, PutSlot(slot, s), Overlay(log));
      HeadedIs(log, headerOk, gen, c, slot, s);
    } else {
      hide LogIs, Overlay, Harmless, Settled;
      PutHeaderKeeps(log, gen);
      HarmlessTwo(log, PutHeader(gen), PutSlot(slot, s), Overlay(log));
    }
  }

  lemma HeadedIs(log: Log, headerOk: bool, gen: nat, c: nat, slot: nat, s: Slot)
    requires Opened(log, headerOk, gen, c) && headerOk
    ensures Headed(log, gen) == log && FrameWrites(headerOk, gen, slot, s) == [PutSlot(slot, s)]
  {
  }

  lemma TornFrame(log: Log, gen: nat, c: nat, slot: nat, s: Slot)
    requires Settled(log, gen, c) && c <= slot <= |log.slots|
    ensures LogIs(TearLog(log, PutSlot(slot, s)), Overlay(log)) && LogIs(log, Overlay(log))
  {
    hide Overlay;
    SettledOverlay(log, TearLog(log, PutSlot(slot, s)), gen, c);
    SettledOverlay(log, log, gen, c);
  }

  lemma {:induction false} HarmlessOne(log: Log, w: LogWrite, ov: map<PageId, Image>)
    requires LogIs(log, ov) && LogIs(TearLog(log, w), ov)
    ensures Harmless(log, [w], ov) && RunLog(log, [w]) == ApplyLog(log, w)
  {
    hide LogIs, TearLog, ApplyLog;
    RunLogOne(log, [], w);
    assert [] + [w] == [w] && [w][..0] == [];
  }

  lemma {:induction false} HarmlessTwo(log: Log, v: LogWrite, w: LogWrite, ov: map<PageId, Image>)
    requires LogIs(log, ov) && LogIs(TearLog(log, v), ov) && LogIs(ApplyLog(log, v), ov) && LogIs(TearLog(ApplyLog(log, v), w), ov)
    ensures Harmless(log, [v] + [w], ov) && RunLog(log, [v] + [w]) == ApplyLog(ApplyLog(log, v), w)
  {
    hide LogIs, TearLog, ApplyLog;
    HarmlessOne(log, v, ov);
    RunLogOne(log, [v], w);
    assert ([v] + [w])[..0] == [] && ([v] + [w])[..1] == [v];
  }

  /** The page `id`, as a reader looks for it: in the log, else in the file, else
      never written. */
  function PageAt(db: seq<Block>, ov: map<PageId, Image>, id: PageId): Page {
    if id in ov then (if ov[id].PageImage? then ov[id].page else ZERO_PAGE)
    else if id < |db| && db[id].PageImage? then db[id].page
    else ZERO_PAGE
  }

  function ContentsOf(db: seq<Block>, ov: map<PageId, Image>, meta: Meta): Contents {
    Contents(meta, map id | 1 <= id < meta.pageCount :: PageAt(db, ov, id))
  }

  lemma HoldsContents(db: seq<Block>, ov: map<PageId, Image>, c: Contents)
    requires Holds(db, ov, c)
    ensures c == ContentsOf(db, ov, c.meta)
  {
    var c' := ContentsOf(db, ov, c.meta);
    forall id | id in c.pages ensures c.pages[id] == c'.pages[id] { assert PageIs(db, ov, id, c.pages[id]); }
    assert c.pages == c'.pages;
  }

  lemma ContentsWith(db: seq<Block>, ov: map<PageId, Image>, meta: Meta, id: PageId, page: Page)
    requires 1 <= id < meta.pageCount
    ensures var c := ContentsOf(db, ov, meta);
            ContentsOf(db, ov[id := PageImage(page)], meta) == c.(pages := c.pages[id := page])
  {
  }

  /** The pages of the transaction in progress. */
  ghost predicate InProgress(pend: map<PageId, Image>, meta: Meta) {
    forall id | id in pend :: 1 <= id < meta.pageCount && pend[id].PageImage? && Named(id, pend[id].page)
  }

  lemma ContentsMeta(db: seq<Block>, ov: map<PageId, Image>, meta: Meta, meta': Meta)
    ensures ContentsOf(db, ov, meta).meta == meta
    ensures forall id :: id in ContentsOf(db, ov, meta).pages <==> 1 <= id < meta.pageCount
    ensures meta.pageCount == meta'.pageCount ==>
              ContentsOf(db, ov, meta') == ContentsOf(db, ov, meta).(meta := meta')
  {
  }

  /** One page more. */
  lemma ContentsGrown(db: seq<Block>, ov: map<PageId, Image>, c: Contents, pend: map<PageId, Image>, meta: Meta)
    requires Holds(db, ov, c) && InProgress(pend, meta) && c.meta.pageCount <= meta.pageCount
    ensures var meta' := meta.(pageCount := meta.pageCount + 1);
            var c0 := ContentsOf(db, ov + pend, meta);
            ContentsOf(db, ov + pend, meta') == Contents(meta', c0.pages[meta.pageCount := PageAt(db, ov + pend, meta.pageCount)]) &&
            InProgress(pend, meta')
  {
  }

  lemma InProgressWith(pend: map<PageId, Image>, meta: Meta, id: PageId, page: Page)
    requires InProgress(pend, meta) && 1 <= id < meta.pageCount && page.id == id
    ensures InProgress(pend[id := PageImage(page)], meta)
  {
  }

  /** A transaction committed: the log with its frames holds what it made of the
      last commit's contents. */
  lemma NewContents(db: seq<Block>, ov: map<PageId, Image>, c: Contents, pend: map<PageId, Image>, meta: Meta)
    requires Holds(db, ov, c) && InProgress(pend, meta) && c.meta.pageCount <= meta.pageCount
    ensures Holds(db, (ov + pend)[0 := MetaImage(meta)], ContentsOf(db, ov + pend, meta))
  {
    var c' := ContentsOf(db, ov + pend, meta);
    forall id | id in c'.pages
      ensures Named(id, c'.pages[id]) && PageIs(db, (ov + pend)[0 := MetaImage(meta)], id, c'.pages[id])
    {
      if id !in pend && id in c.pages { assert PageIs(db, ov, id, c.pages[id]); }
    }
  }
}
