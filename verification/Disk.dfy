/** The two files of a database as the operating system and the device keep
    them: the database file as a sequence of page-sized blocks, the write-ahead
    log as a header and a sequence of frame slots. A checksum is idealised: a
    slot either holds one whole written frame or is Junk, and a header is either
    whole or absent. The database file has no checksums: a block always reads as
    some page. */
module Disk {
  import opened Wrappers

  type PageId = nat

  datatype PageType = Invalid | FreePage | Formatted(code: nat)

  /** The header fields the pager reads, and the rest of the bytes. */
  datatype Page = Page(id: PageId, ptype: PageType, next: PageId, body: seq<bv8>)

  const ZERO_PAGE := Page(0, Invalid, 0, [])

  datatype Meta = Meta(pageCount: nat, freelistHead: PageId, btreeRoot: PageId,
                       heapHead: PageId, catalogRoot: PageId)

  datatype Image = PageImage(page: Page) | MetaImage(meta: Meta)

  type Block = Image

  /** A page that was ever formatted knows its own id. */
  predicate Named(id: PageId, p: Page) { p.id == id || p.ptype.Invalid? }

  datatype Slot = Frame(id: PageId, gen: nat, commit: bool, image: Image) | Junk

  /** `header` is the generation a valid header carries. */
  datatype Log = Log(header: Option<nat>, slots: seq<Slot>)

  /** What a process that opens the database finds. */
  datatype Files = Files(db: seq<Block>, log: Log)

  datatype DbWrite = PutBlock(id: PageId, image: Image) | Grow(blocks: nat)
  datatype LogWrite = PutHeader(gen: nat) | PutSlot(index: nat, slot: Slot) | Truncate
  datatype IoWrite = ToDb(d: DbWrite) | ToLog(l: LogWrite)

  function Zeroes(n: nat): (s: seq<Block>)
    ensures |s| == n
  {
    seq(n, _ => PageImage(ZERO_PAGE))
  }

  /** A block written past the end leaves zeroed blocks in between. */
  function SetBlock(db: seq<Block>, id: PageId, b: Block): (r: seq<Block>)
    ensures |r| == if id < |db| then |db| else id + 1
    ensures r[id] == b
    ensures forall k | 0 <= k < |r| && k != id ::
              r[k] == if k < |db| then db[k] else PageImage(ZERO_PAGE)
  {
    if id < |db| then db[id := b] else db + Zeroes(id - |db|) + [b]
  }

  function ApplyDb(db: seq<Block>, w: DbWrite): seq<Block> {
    match w
    case PutBlock(id, image) => SetBlock(db, id, image)
    case Grow(n) => if |db| < n then db + Zeroes(n - |db|) else db
  }

  /** A write cut short. Unless the old page and the new are the same, the block is then a
      mixture of them, of which only this is sure: its header is the old one's or the new
      one's, so it has its own id or none; and the meta page still opens, for its magic and
      its database id are the same in both, with arbitrary counts and roots. */
  function TearDb(db: seq<Block>, w: DbWrite, any: Image): seq<Block> {
    match w
    case PutBlock(id, image) =>
      if id < |db| && db[id] == image then db else SetBlock(db, id, Mixture(id, image, any))
    case Grow(n) => db
  }

  function Mixture(id: PageId, image: Image, any: Image): Image {
    if id == 0 && any.MetaImage? then any
    else if id != 0 && any.PageImage? && Named(id, any.page) then any
    else image
  }

  function SetSlot(slots: seq<Slot>, i: nat, s: Slot): (r: seq<Slot>)
    ensures |r| == if i < |slots| then |slots| else i + 1
    ensures r[i] == s
    ensures forall k | 0 <= k < |r| && k != i :: r[k] == if k < |slots| then slots[k] else Junk
  {
    if i < |slots| then slots[i := s] else slots + seq(i - |slots|, _ => Junk) + [s]
  }

  function ApplyLog(log: Log, w: LogWrite): Log {
    match w
    case PutHeader(gen) => log.(header := Some(gen))
    case PutSlot(i, s) => log.(slots := SetSlot(log.slots, i, s))
    case Truncate => Log(None, [])
  }

  function TearLog(log: Log, w: LogWrite): Log {
    match w
    case PutHeader(_) => log.(header := None)
    case PutSlot(i, _) => log.(slots := SetSlot(log.slots, i, Junk))
    case Truncate => log
  }

  /** The files and, for each, the writes issued since its last sync. */
  datatype Store = Store(dbSafe: seq<Block>, dbQueue: seq<DbWrite>,
                         logSafe: Log, logQueue: seq<LogWrite>)

  function RunDb(db: seq<Block>, q: seq<DbWrite>): seq<Block> {
    if q == [] then db else ApplyDb(RunDb(db, q[..|q| - 1]), q[|q| - 1])
  }

  function RunLog(log: Log, q: seq<LogWrite>): Log {
    if q == [] then log else ApplyLog(RunLog(log, q[..|q| - 1]), q[|q| - 1])
  }

  lemma {:induction false} RunLogAppend(log: Log, q: seq<LogWrite>, ws: seq<LogWrite>)
    ensures RunLog(log, q + ws) == RunLog(RunLog(log, q), ws)
  {
    if ws == [] {
      assert q + ws == q;
    } else {
      RunLogAppend(log, q, ws[..|ws| - 1]);
      assert (q + ws)[..|q + ws| - 1] == q + ws[..|ws| - 1];
    }
  }

  lemma {:induction false} RunLogOne(log: Log, q: seq<LogWrite>, w: LogWrite)
    ensures RunLog(log, q + [w]) == ApplyLog(RunLog(log, q), w)
  {
    assert (q + [w])[..|q + [w]| - 1] == q;
  }

  lemma {:induction false} RunDbOne(db: seq<Block>, q: seq<DbWrite>, w: DbWrite)
    ensures RunDb(db, q + [w]) == ApplyDb(RunDb(db, q), w)
  {
    assert (q + [w])[..|q + [w]| - 1] == q;
  }

  function DbNow(s: Store): seq<Block> { RunDb(s.dbSafe, s.dbQueue) }
  function LogNow(s: Store): Log { RunLog(s.logSafe, s.logQueue) }

  function Issue(s: Store, w: IoWrite): Store {
    match w
    case ToDb(d) => s.(dbQueue := s.dbQueue + [d])
    case ToLog(l) => s.(logQueue := s.logQueue + [l])
  }

  lemma IssueNow(s: Store, w: IoWrite)
    ensures w.ToDb? ==> DbNow(Issue(s, w)) == ApplyDb(DbNow(s), w.d) && LogNow(Issue(s, w)) == LogNow(s)
    ensures w.ToLog? ==> LogNow(Issue(s, w)) == ApplyLog(LogNow(s), w.l) && DbNow(Issue(s, w)) == DbNow(s)
  {
    match w
    case ToDb(d) => RunDbOne(s.dbSafe, s.dbQueue, d);
    case ToLog(l) => RunLogOne(s.logSafe, s.logQueue, l);
  }

  /** A point of a run: the files as they are, the write about to be issued (or
      none), the last commit acknowledged, and the last one begun. */
  datatype Moment = Moment(store: Store, write: Option<IoWrite>, acked: nat, issued: nat)

  /** What the death of the process at `m` can leave: nothing is lost but, at
      most, a part of the write in progress. */
  ghost predicate DeathLeaves(m: Moment, d: Files) {
    var db, log := DbNow(m.store), LogNow(m.store);
    || d == Files(db, log)
    || (m.write.Some? && m.write.value.ToDb? &&
        (d == Files(ApplyDb(db, m.write.value.d), log) ||
         exists any: Image :: d == Files(TearDb(db, m.write.value.d, any), log)))
    || (m.write.Some? && m.write.value.ToLog? &&
        (d == Files(db, ApplyLog(log, m.write.value.l)) ||
         d == Files(db, TearLog(log, m.write.value.l))))
  }

  /** The first `i` unsynced writes of a file survived, and perhaps a part of
      the next one. */
  ghost predicate DbCut(s: Store, i: nat, db: seq<Block>)
    requires i <= |s.dbQueue|
  {
    || db == RunDb(s.dbSafe, s.dbQueue[..i])
    || (i < |s.dbQueue| && exists any: Image :: db == TearDb(RunDb(s.dbSafe, s.dbQueue[..i]), s.dbQueue[i], any))
  }

  ghost predicate LogCut(s: Store, j: nat, log: Log)
    requires j <= |s.logQueue|
  {
    || log == RunLog(s.logSafe, s.logQueue[..j])
    || (j < |s.logQueue| && log == TearLog(RunLog(s.logSafe, s.logQueue[..j]), s.logQueue[j]))
  }

  /** What a power cut can leave: of each file's unsynced writes, in the order
      they were issued, some first ones. */
  ghost predicate PowerLeaves(s: Store, d: Files) {
    exists i: nat, j: nat | i <= |s.dbQueue| && j <= |s.logQueue| ::
      DbCut(s, i, d.db) && LogCut(s, j, d.log)
  }

  function Issued(m: Moment): Store {
    if m.write.Some? then Issue(m.store, m.write.value) else m.store
  }
}
