/** A power cut that may lose any of the unsynced writes, in any combination: frame
    checksums are not chained, pending slots are rewritten in place, slots are used again
    after a rollback, and a new header is not synced (src/wal.cpp:83-93, 152-186). */
module Unordered {
  import opened Wrappers
  import opened Disk
  import opened Recovery

  /** Each unsynced write, in turn, lost, whole or torn. Of the writes to one slot the
      last that is not lost counts, so this is every order they may reach the device in. */
  ghost predicate AnyLog(safe: Log, q: seq<LogWrite>, log: Log) {
    if q == [] then log == safe
    else
      var v, w := q[..|q| - 1], q[|q| - 1];
      exists prev :: AnyLog(safe, v, prev) && AnyOf(prev, w, log)
  }

  predicate AnyOf(prev: Log, w: LogWrite, log: Log) { log == prev || log == ApplyLog(prev, w) || log == TearLog(prev, w) }

  ghost predicate AnyDb(safe: seq<Block>, q: seq<DbWrite>, db: seq<Block>) {
    if q == [] then db == safe
    else
      var v, w := q[..|q| - 1], q[|q| - 1];
      exists prev :: AnyDb(safe, v, prev) && AnyBlock(prev, w, db)
  }

  ghost predicate AnyBlock(prev: seq<Block>, w: DbWrite, db: seq<Block>) {
    db == prev || db == ApplyDb(prev, w) || exists any: Image :: db == TearDb(prev, w, any)
  }

  ghost predicate AnyPowerLeaves(s: Store, d: Files) { AnyDb(s.dbSafe, s.dbQueue, d.db) && AnyLog(s.logSafe, s.logQueue, d.log) }

  /** The generations a header may carry, and the frames a slot may hold. */
  ghost predicate MayHead(safe: Log, q: seq<LogWrite>, g: nat) { safe.header == Some(g) || PutHeader(g) in q }

  ghost predicate MayHold(safe: Log, q: seq<LogWrite>, k: nat, f: Slot) {
    (k < |safe.slots| && safe.slots[k] == f) || PutSlot(k, f) in q
  }

  /** Writes of a session that syncs every commit: none of them commits, and none touches
      a slot that the synced log commits. */
  ghost predicate Uncommitted(w: LogWrite, safe: Log, gen: nat, c: nat) {
    match w
    case Truncate => false
    case PutHeader(g) => g <= gen && CommitsBefore(safe, g)
    case PutSlot(k, s) =>
      && s.Frame? && !s.commit && Typed(s) && s.gen <= gen
      && (s.gen == gen ==> c <= k)
      && (safe.header.Some? ==> safe.header.value <= s.gen && (safe.header.value == s.gen ==> CommitEnd(safe) <= k))
  }

  /** The synced log is of an earlier generation: frames of it were added after its last
      commit, or none were, and then what a crash cut off may still lie there. */
  ghost predicate Older(safe: Log, q: seq<LogWrite>, g: nat, gen: nat) {
    && g < gen && CommitsBefore(safe, g + 1)
    && (Settled(safe, g, CommitEnd(safe)) || forall w | w in q && w.PutSlot? && w.slot.Frame? :: w.slot.gen > g)
  }

  /** The log of such a session: `safe` is what is synced, `q` what is not. */
  ghost predicate SessionOf(safe: Log, q: seq<LogWrite>, gen: nat, c: nat) {
    && (forall w | w in q :: Uncommitted(w, safe, gen, c))
    && CommitsBefore(safe, gen + 1)
    && (if safe.header == Some(gen) then Settled(safe, gen, c) && forall w | w in q :: !w.PutHeader?
        else c == 0 && CommitsBefore(safe, gen) && (safe.header.Some? ==> Older(safe, q, safe.header.value, gen)))
  }

  // ---- what a cut can be ----

  ghost predicate Touched(q: seq<LogWrite>, k: nat) { exists f :: PutSlot(k, f) in q }

  /** A cut's header and slots are each one of those possible. */
  ghost predicate Possible(safe: Log, q: seq<LogWrite>, log: Log) {
    && (log.header.Some? ==> MayHead(safe, q, log.header.value))
    && (log.header.None? && safe.header.Some? ==> exists g :: PutHeader(g) in q)
    && (forall k | 0 <= k < |log.slots| :: log.slots[k] == Junk || MayHold(safe, q, k, log.slots[k]))
    && |safe.slots| <= |log.slots|
    && forall k | 0 <= k < |safe.slots| :: Touched(q, k) || log.slots[k] == safe.slots[k]
  }

  lemma Last<T>(q: seq<T>, x: T)
    requires q != []
    ensures x in q <==> x in q[..|q| - 1] || x == q[|q| - 1]
  {
    assert q == q[..|q| - 1] + [q[|q| - 1]];
  }

  lemma {:induction false} AnyPossible(safe: Log, q: seq<LogWrite>, log: Log)
    requires AnyLog(safe, q, log) && forall w | w in q :: !w.Truncate?
    ensures Possible(safe, q, log)
  {
    if q != [] {
      var v, w := q[..|q| - 1], q[|q| - 1];
      var prev :| AnyLog(safe, v, prev) && AnyOf(prev, w, log);
      forall x ensures x in q <==> x in v || x == w { Last(q, x); }
      AnyPossible(safe, v, prev);
      hide AnyLog;
      PossibleStep(safe, q, v, w, prev, log);
    }
  }

  lemma PossibleStep(safe: Log, q: seq<LogWrite>, v: seq<LogWrite>, w: LogWrite, prev: Log, log: Log)
    requires Possible(safe, v, prev) && AnyOf(prev, w, log) && !w.Truncate?
    requires forall x :: x in q <==> x in v || x == w
    ensures Possible(safe, q, log)
  {
    forall k | 0 <= k < |log.slots| ensures log.slots[k] == Junk || MayHold(safe, q, k, log.slots[k]) {
      if k < |prev.slots| && log.slots[k] == prev.slots[k] {
        assert prev.slots[k] == Junk || MayHold(safe, v, k, prev.slots[k]);
      }
    }
    forall k | 0 <= k < |safe.slots| ensures Touched(q, k) || log.slots[k] == safe.slots[k] {
      if Touched(v, k) {
        var f :| PutSlot(k, f) in v;
        assert PutSlot(k, f) in q;
      } else if w.PutSlot? && w.index == k {
        assert PutSlot(k, w.slot) in q;
      }
    }
    if log.header.None? && safe.header.Some? && prev.header.None? {
      var g :| PutHeader(g) in v;
      assert PutHeader(g) in q;
    }
  }

  // ---- choosing a cut ----

  /** Of the headers only the write `ih`, of slot `k`'s frames only the write `ik`; and
      everything else. */
  function Craft(safe: Log, q: seq<LogWrite>, ih: Option<nat>, k: nat, ik: Option<nat>): Log {
    if q == [] then safe
    else
      var prev, w, i := Craft(safe, q[..|q| - 1], ih, k, ik), q[|q| - 1], |q| - 1;
      if (w.PutHeader? && ih != Some(i)) || (w.PutSlot? && w.index == k && ik != Some(i)) then prev else ApplyLog(prev, w)
  }

  lemma {:induction false} CraftAny(safe: Log, q: seq<LogWrite>, ih: Option<nat>, k: nat, ik: Option<nat>)
    ensures AnyLog(safe, q, Craft(safe, q, ih, k, ik))
  {
    if q != [] { CraftAny(safe, q[..|q| - 1], ih, k, ik); }
  }

  function SlotAt(log: Log, j: nat): Slot { if j < |log.slots| then log.slots[j] else Junk }

  /** Every slot but `k` is as it is now. */
  lemma {:induction false} CraftIs(safe: Log, q: seq<LogWrite>, ih: Option<nat>, k: nat, ik: Option<nat>)
    requires forall w | w in q :: !w.Truncate?
    ensures var log, now := Craft(safe, q, ih, k, ik), RunLog(safe, q);
            |safe.slots| <= |log.slots| <= |now.slots| && forall j: nat | j != k :: SlotAt(log, j) == SlotAt(now, j)
  {
    if q != [] {
      assert forall w | w in q[..|q| - 1] :: w in q;
      CraftIs(safe, q[..|q| - 1], ih, k, ik);
      var w := q[|q| - 1];
      assert w in q;
      var prev, now := Craft(safe, q[..|q| - 1], ih, k, ik), RunLog(safe, q[..|q| - 1]);
      forall j: nat | j != k ensures SlotAt(Craft(safe, q, ih, k, ik), j) == SlotAt(RunLog(safe, q), j) {
        ApplySlotAt(prev, w, j);
        ApplySlotAt(now, w, j);
      }
    }
  }

  lemma ApplySlotAt(log: Log, w: LogWrite, j: nat)
    requires !w.Truncate?
    ensures SlotAt(ApplyLog(log, w), j) == if w.PutSlot? && w.index == j then w.slot else SlotAt(log, j)
  {
  }

  lemma {:induction false} CraftHeader(safe: Log, q: seq<LogWrite>, ih: Option<nat>, k: nat, ik: Option<nat>)
    requires forall w | w in q :: !w.Truncate?
    ensures var log := Craft(safe, q, ih, k, ik);
            log.header == if ih.Some? && ih.value < |q| && q[ih.value].PutHeader? then Some(q[ih.value].gen) else safe.header
  {
    if q != [] {
      assert forall w | w in q[..|q| - 1] :: w in q;
      CraftHeader(safe, q[..|q| - 1], ih, k, ik);
      assert q[|q| - 1] in q;
    }
  }

  lemma {:induction false} CraftSlot(safe: Log, q: seq<LogWrite>, ih: Option<nat>, k: nat, ik: Option<nat>, f: Slot)
    requires forall w | w in q :: !w.Truncate?
    requires if ik.Some? then ik.value < |q| && q[ik.value] == PutSlot(k, f) else k < |safe.slots| && safe.slots[k] == f
    ensures var log := Craft(safe, q, ih, k, ik); k < |log.slots| && log.slots[k] == f
  {
    if q != [] {
      var v, w, i := q[..|q| - 1], q[|q| - 1], |q| - 1;
      assert forall w | w in v :: w in q;
      assert w in q;
      if ik != Some(i) {
        if ik.Some? { assert v[ik.value] == q[ik.value]; }
        CraftSlot(safe, v, ih, k, ik, f);
      }
    }
  }

  /** Any possible header with any one possible frame, the other slots as they are now. */
  lemma CutWith(safe: Log, q: seq<LogWrite>, g: nat, k: nat, f: Slot) returns (log: Log)
    requires (forall w | w in q :: !w.Truncate?) && MayHead(safe, q, g) && MayHold(safe, q, k, f)
    ensures AnyLog(safe, q, log) && log.header == Some(g) && k < |log.slots| && log.slots[k] == f
    ensures var now := RunLog(safe, q);
            |log.slots| <= |now.slots| && forall j: nat | j != k :: SlotAt(log, j) == SlotAt(now, j)
  {
    var ih, ik: Option<nat> := None, None;
    if safe.header != Some(g) {
      var i: nat :| i < |q| && q[i] == PutHeader(g);
      ih := Some(i);
    }
    if !(k < |safe.slots| && safe.slots[k] == f) {
      var i: nat :| i < |q| && q[i] == PutSlot(k, f);
      ik := Some(i);
    }
    CraftAny(safe, q, ih, k, ik);
    CraftIs(safe, q, ih, k, ik);
    CraftHeader(safe, q, ih, k, ik);
    CraftSlot(safe, q, ih, k, ik, f);
    log := Craft(safe, q, ih, k, ik);
  }

  /** Of all the writes, only one. */
  lemma {:induction false} OnlyOne(safe: Log, q: seq<LogWrite>, w: LogWrite)
    requires w in q
    ensures AnyLog(safe, q, ApplyLog(safe, w))
  {
    var v, x := q[..|q| - 1], q[|q| - 1];
    Last(q, w);
    if w == x {
      NoneAtAll(safe, v);
    } else {
      OnlyOne(safe, v, w);
    }
  }

  lemma {:induction false} NoneAtAll(safe: Log, q: seq<LogWrite>)
    ensures AnyLog(safe, q, safe)
  {
    if q != [] { NoneAtAll(safe, q[..|q| - 1]); }
  }

  // ---- with no commit in flight ----

  ghost predicate Within(a: map<PageId, Image>, b: map<PageId, Image>) { forall id | id in a :: id in b && b[id] == a[id] }

  /** What the synced log commits before slot `k`. */
  function Earlier(safe: Log, k: nat): map<PageId, Image> {
    if k <= |safe.slots| then Images(safe.slots, Latest(safe.slots, LastCommit(safe.slots, k))) else map[]
  }

  /** What was committed before slot `k` was not committed differently after it. */
  ghost predicate AgreesAt(safe: Log, k: nat) { k < CommitEnd(safe) ==> Within(Earlier(safe, k), Overlay(safe)) }

  /** So it is with every slot the writes touch: scanning the synced log no further than
      there finds the last versions only. */
  ghost predicate PrefixesAgree(safe: Log, q: seq<LogWrite>) { forall k: nat | Touched(q, k) :: AgreesAt(safe, k) }

  lemma NoTruncate(safe: Log, q: seq<LogWrite>, gen: nat, c: nat)
    requires SessionOf(safe, q, gen, c)
    ensures forall w | w in q :: !w.Truncate?
  {
    forall w | w in q ensures !w.Truncate? { assert Uncommitted(w, safe, gen, c); }
  }

  /** No frame among the writes extends the synced log's commits, or stands in for one. */
  ghost predicate Foreign(safe: Log, ws: seq<LogWrite>, g: nat) {
    && (forall k: nat, s | PutSlot(k, s) in ws :: s.Frame? && (s.gen == g ==> CommitEnd(safe) <= k && !s.commit))
    && (Settled(safe, g, CommitEnd(safe)) || forall k: nat, s | PutSlot(k, s) in ws :: s.gen != g)
  }

  lemma {:induction false} SamePrefix(a: seq<Slot>, b: seq<Slot>, k: nat)
    requires k <= |a| && k <= |b| && forall i | 0 <= i < k :: a[i] == b[i]
    ensures LastCommit(a, k) == LastCommit(b, k)
    ensures forall n | 0 <= n <= k :: Images(a, Latest(a, n)) == Images(b, Latest(b, n))
  {
    SameLast(a, b, k);
    forall n | 0 <= n <= k ensures Images(a, Latest(a, n)) == Images(b, Latest(b, n)) { LatestSame(a, b, n); }
  }

  lemma {:induction false} SameLast(a: seq<Slot>, b: seq<Slot>, k: nat)
    requires k <= |a| && k <= |b| && forall i | 0 <= i < k :: a[i] == b[i]
    ensures LastCommit(a, k) == LastCommit(b, k)
  {
    if k > 0 { SameLast(a, b, k - 1); }
  }

  /** Up to slot `k` the log is the synced one, and scanning it ends there. */
  ghost predicate StopsAt(safe: Log, log: Log, k: nat) {
    && k < CommitEnd(safe) && k <= |log.slots| && CommitEnd(log) == LastCommit(safe.slots, k)
    && forall i | 0 <= i < k :: log.slots[i] == safe.slots[i]
  }

  ghost predicate SameCommits(safe: Log, log: Log) {
    CommitEnd(log) == CommitEnd(safe) && forall i | 0 <= i < CommitEnd(safe) :: log.slots[i] == safe.slots[i]
  }

  lemma StoppedOverlay(safe: Log, log: Log, k: nat)
    requires StopsAt(safe, log, k)
    ensures Overlay(log) == Earlier(safe, k)
  {
    SamePrefix(safe.slots, log.slots, k);
  }

  lemma SameOverlay(safe: Log, log: Log)
    requires SameCommits(safe, log)
    ensures Overlay(log) == Overlay(safe)
  {
    SamePrefix(safe.slots, log.slots, CommitEnd(safe));
  }

  lemma {:induction false} ScanAtLeast(slots: seq<Slot>, g: nat, i: nat, k: nat)
    requires i <= k <= |slots| && forall j | i <= j < k :: ValidFrame(slots[j], g)
    ensures ScanEnd(slots, g, i) >= k
    decreases k - i
  {
    if i < k { ScanAtLeast(slots, g, i + 1, k); }
  }

  lemma {:induction false} LastCommitAt(slots: seq<Slot>, e: nat, n: nat)
    requires e <= n <= |slots| && (e > 0 ==> IsCommit(slots[e - 1])) && forall j | e <= j < n :: !IsCommit(slots[j])
    ensures LastCommit(slots, n) == e
  {
    if e < n { LastCommitAt(slots, e, n - 1); }
  }

  lemma StopIs(safe: Log, log: Log, k: nat)
    requires safe.header.Some? && log.header == safe.header && k < CommitEnd(safe) && k <= |log.slots|
    requires forall i | 0 <= i < k :: log.slots[i] == safe.slots[i]
    requires k < |log.slots| ==> !ValidFrame(log.slots[k], safe.header.value)
    ensures StopsAt(safe, log, k)
  {
    var g := safe.header.value;
    ScanEndIs(safe.slots, g, 0);
    ScanEndIs(log.slots, g, 0);
    hide ScanEnd, LastCommit;
    ScanAtLeast(log.slots, g, 0, k);
    assert ScanEnd(log.slots, g, 0) == k;
    SamePrefix(safe.slots, log.slots, k);
  }

  /** Under the synced header a cut commits what the synced log does, or what that does
      before some slot that was written over. */
  lemma OldHeaderCut(safe: Log, ws: seq<LogWrite>, log: Log)
    requires Possible(safe, ws, log) && safe.header.Some? && log.header == safe.header && Foreign(safe, ws, safe.header.value)
    ensures SameCommits(safe, log) || exists k: nat :: Touched(ws, k) && StopsAt(safe, log, k)
  {
    var g, e := safe.header.value, CommitEnd(safe);
    if exists k: nat :: k < e && log.slots[k] != safe.slots[k] {
      var k0: nat :| k0 < e && log.slots[k0] != safe.slots[k0];
      var k := FirstDifference(safe.slots, log.slots, k0);
      assert Touched(ws, k);
      assert log.slots[k] == Junk || MayHold(safe, ws, k, log.slots[k]);
      hide CommitEnd;
      assert !ValidFrame(log.slots[k], g);
      StopIs(safe, log, k);
    } else {
      SameEnd(safe, ws, log);
    }
  }

  lemma {:induction false} FirstDifference(a: seq<Slot>, b: seq<Slot>, n: nat) returns (k: nat)
    requires n < |a| && n < |b| && a[n] != b[n]
    ensures k <= n && a[k] != b[k] && forall i | 0 <= i < k :: a[i] == b[i]
  {
    k := 0;
    while a[k] == b[k]
      invariant k <= n && forall i | 0 <= i < k :: a[i] == b[i]
      decreases n - k
    {
      k := k + 1;
    }
  }

  lemma SameEnd(safe: Log, ws: seq<LogWrite>, log: Log)
    requires Possible(safe, ws, log) && safe.header.Some? && log.header == safe.header && Foreign(safe, ws, safe.header.value)
    requires forall k: nat | k < CommitEnd(safe) :: log.slots[k] == safe.slots[k]
    ensures SameCommits(safe, log)
  {
    var g, e, n, m := safe.header.value, CommitEnd(safe), ScanEnd(log.slots, safe.header.value, 0), ScanEnd(safe.slots, safe.header.value, 0);
    ScanEndIs(log.slots, g, 0);
    ScanEndIs(safe.slots, g, 0);
    LastCommitIs(safe.slots, m);
    assert e <= m && CommitEnd(log) == LastCommit(log.slots, n) && e == LastCommit(safe.slots, m);
    hide ScanEnd, LastCommit, CommitEnd, Possible, MayHold;
    ScanAtLeast(log.slots, g, 0, e);
    forall j | 0 <= j < n ensures !Settled(safe, g, e) ==> j < |safe.slots| && ValidFrame(safe.slots[j], g) {
      OwnFrame(safe, ws, log, j);
    }
    if !Settled(safe, g, e) { ScanAtLeast(safe.slots, g, 0, n); }
    forall j | e <= j < n ensures !IsCommit(log.slots[j]) { OwnFrame(safe, ws, log, j); }
    LastCommitAt(log.slots, e, n);
  }

  /** A frame that the scan of a cut takes, of the synced header's generation. */
  lemma OwnFrame(safe: Log, ws: seq<LogWrite>, log: Log, j: nat)
    requires Possible(safe, ws, log) && safe.header.Some? && Foreign(safe, ws, safe.header.value)
    requires j < |log.slots| && ValidFrame(log.slots[j], safe.header.value)
    ensures (j < |safe.slots| && safe.slots[j] == log.slots[j]) || (CommitEnd(safe) <= j && !log.slots[j].commit)
    ensures !Settled(safe, safe.header.value, CommitEnd(safe)) ==> j < |safe.slots| && safe.slots[j] == log.slots[j]
  {
    assert MayHold(safe, ws, j, log.slots[j]);
  }

  lemma SessionForeign(safe: Log, q: seq<LogWrite>, gen: nat, c: nat)
    requires SessionOf(safe, q, gen, c) && safe.header.Some?
    ensures Foreign(safe, q, safe.header.value)
    ensures safe.header == Some(gen) ==> forall k: nat | Touched(q, k) :: k >= CommitEnd(safe)
    ensures CommitsBefore(safe, safe.header.value + 1)
  {
    if safe.header == Some(gen) { SettledEnd(safe, gen, c); }
    hide CommitEnd, Settled;
    forall k: nat, s | PutSlot(k, s) in q
      ensures s.Frame? && (s.gen == safe.header.value ==> CommitEnd(safe) <= k && !s.commit)
      ensures safe.header == Some(gen) ==> k >= CommitEnd(safe)
    {
      assert Uncommitted(PutSlot(k, s), safe, gen, c);
    }
    SessionSettled(safe, q, gen, c);
  }

  lemma SessionSettled(safe: Log, q: seq<LogWrite>, gen: nat, c: nat)
    requires SessionOf(safe, q, gen, c) && safe.header.Some?
    ensures CommitsBefore(safe, safe.header.value + 1)
    ensures Settled(safe, safe.header.value, CommitEnd(safe)) || forall k: nat, s | PutSlot(k, s) in q && s.Frame? :: s.gen != safe.header.value
  {
    if safe.header == Some(gen) { SettledEnd(safe, gen, c); }
    forall k: nat, s | PutSlot(k, s) in q && s.Frame? && !Settled(safe, safe.header.value, CommitEnd(safe)) ensures s.gen != safe.header.value {
      assert PutSlot(k, s).PutSlot?;
    }
  }

  /** The commit frames of a cut are the synced log's. */
  lemma CutCommits(safe: Log, q: seq<LogWrite>, gen: nat, c: nat, log: Log, g: nat)
    requires SessionOf(safe, q, gen, c) && Possible(safe, q, log) && CommitsBefore(safe, g)
    ensures CommitsBefore(log, g)
  {
    forall k | 0 <= k < |log.slots| ensures Typed(log.slots[k]) && (IsCommit(log.slots[k]) ==> log.slots[k].gen < g) {
      var f := log.slots[k];
      if f != Junk {
        assert MayHold(safe, q, k, f);
        if PutSlot(k, f) in q { assert Uncommitted(PutSlot(k, f), safe, gen, c); }
      }
    }
  }

  /** What any cut commits: what the synced log does; or, once the file holds it all,
      nothing, or what the synced log does before some slot written over since. And a log
      begun anew in its place commits nothing. */
  lemma {:induction false} RestCut(safe: Log, q: seq<LogWrite>, gen: nat, c: nat, log: Log)
    requires SessionOf(safe, q, gen, c) && AnyLog(safe, q, log)
    ensures Tidy(log)
    ensures Overlay(log) == Overlay(safe) ||
            (safe.header != Some(gen) &&
             (Overlay(log) == map[] || exists k: nat :: Touched(q, k) && k < CommitEnd(safe) && Overlay(log) == Earlier(safe, k)))
  {
    NoTruncate(safe, q, gen, c);
    AnyPossible(safe, q, log);
    hide AnyLog, Overlay, CommitEnd, Earlier, Foreign, CommitsBefore;
    if log.header.None? {
      NothingCommitted(log);
      if safe.header.None? { NothingCommitted(safe); }
    } else if log.header != safe.header {
      var g := log.header.value;
      assert PutHeader(g) in q && Uncommitted(PutHeader(g), safe, gen, c);
      CutCommits(safe, q, gen, c, log, g);
      NothingCommitted(log);
    } else {
      SessionForeign(safe, q, gen, c);
      CutCommits(safe, q, gen, c, log, log.header.value + 1);
      OldHeaderCut(safe, q, log);
      if SameCommits(safe, log) {
        SameOverlay(safe, log);
      } else {
        var k: nat :| Touched(q, k) && StopsAt(safe, log, k);
        StoppedOverlay(safe, log, k);
      }
    }
  }

  /** A slot of the synced commits written over, and nothing else. */
  lemma EarlierCut(safe: Log, ws: seq<LogWrite>, k: nat) returns (log: Log)
    requires safe.header.Some? && Foreign(safe, ws, safe.header.value) && Touched(ws, k) && k < CommitEnd(safe)
    ensures AnyLog(safe, ws, log) && log.header == safe.header && StopsAt(safe, log, k) && Overlay(log) == Earlier(safe, k)
  {
    var f :| PutSlot(k, f) in ws;
    log := ApplyLog(safe, PutSlot(k, f));
    OnlyOne(safe, ws, PutSlot(k, f));
    hide AnyLog;
    StopIs(safe, log, k);
    StoppedOverlay(safe, log, k);
  }

  // ---- with a commit in flight ----

  /** The frames a recovery redoes. */
  function Kept(log: Log): seq<Slot> { log.slots[..CommitEnd(log)] }

  /** What is redone says what is committed. */
  lemma KeptOverlay(a: Log, b: Log)
    requires Kept(a) == Kept(b)
    ensures Overlay(a) == Overlay(b)
  {
    var n := CommitEnd(a);
    assert |Kept(a)| == n && |Kept(b)| == CommitEnd(b);
    forall k | 0 <= k < n ensures a.slots[k] == b.slots[k] { assert Kept(a)[k] == Kept(b)[k]; }
    LatestSame(a.slots, b.slots, n);
  }

  ghost predicate OneHeader(safe: Log, q: seq<LogWrite>, gen: nat) { forall g: nat | MayHead(safe, q, g) :: g == gen }

  /** The transaction's slots may hold no other frame of the generation than its own. */
  ghost predicate OneFrameEach(safe: Log, q: seq<LogWrite>, gen: nat, c: nat, e: nat) {
    forall k: nat, f | c <= k < e && MayHold(safe, q, k, f) && ValidFrame(f, gen) :: f == SlotAt(RunLog(safe, q), k)
  }

  /** The writes of a commit: after the transaction's frames, in slots `c` to `e`. */
  ghost predicate Committing(safe: Log, q: seq<LogWrite>, headerOk: bool, gen: nat, c: nat, e: nat, meta: Meta, all: seq<LogWrite>) {
    var now := RunLog(safe, q);
    && SessionOf(safe, q, gen, c) && Opened(now, headerOk, gen, c) && (!headerOk ==> e == 0)
    && c <= e <= |now.slots| && (forall k | c <= k < e :: ValidFrame(now.slots[k], gen))
    && all == q + FrameWrites(headerOk, gen, e, Frame(0, gen, true, MetaImage(meta)))
  }

  lemma {:induction false} CommittingNow(safe: Log, q: seq<LogWrite>, headerOk: bool, gen: nat, c: nat, e: nat, meta: Meta, all: seq<LogWrite>)
    requires Committing(safe, q, headerOk, gen, c, e, meta, all)
    ensures var now, frame := RunLog(safe, q), Frame(0, gen, true, MetaImage(meta));
            && RunLog(safe, all) == ApplyLog(Headed(now, gen), PutSlot(e, frame))
            && Settled(Headed(now, gen), gen, c) && Settled(RunLog(safe, all), gen, e + 1)
            && Kept(now) == now.slots[..c] && Kept(RunLog(safe, all)) == now.slots[..e] + [frame]
  {
    var now := RunLog(safe, q);
    RunLogAppend(safe, q, FrameWrites(headerOk, gen, e, Frame(0, gen, true, MetaImage(meta))));
    FrameCommits(now, headerOk, gen, c, e, meta);
    KeptNow(now, headerOk, gen, c);
  }

  lemma {:induction false} FrameCommits(now: Log, headerOk: bool, gen: nat, c: nat, e: nat, meta: Meta)
    requires Opened(now, headerOk, gen, c) && c <= e <= |now.slots| && forall k | c <= k < e :: ValidFrame(now.slots[k], gen)
    ensures var frame := Frame(0, gen, true, MetaImage(meta));
            var after := RunLog(now, FrameWrites(headerOk, gen, e, frame));
            && after == ApplyLog(Headed(now, gen), PutSlot(e, frame))
            && Settled(Headed(now, gen), gen, c) && Settled(after, gen, e + 1) && Kept(after) == now.slots[..e] + [frame]
  {
    var frame := Frame(0, gen, true, MetaImage(meta));
    assert Typed(frame) && Headed(now, gen).slots == now.slots;
    hide *;
    FrameHarmless(now, headerOk, gen, c, e, frame);
    OpenedHead(now, headerOk, gen, c);
    PutCommit(Headed(now, gen), gen, c, e, frame.image);
    SettledEnd(ApplyLog(Headed(now, gen), PutSlot(e, frame)), gen, e + 1);
    KeptCommit(now, gen, e, frame);
  }

  lemma KeptCommit(now: Log, gen: nat, e: nat, frame: Slot)
    requires e <= |now.slots| && CommitEnd(ApplyLog(Headed(now, gen), PutSlot(e, frame))) == e + 1
    ensures Kept(ApplyLog(Headed(now, gen), PutSlot(e, frame))) == now.slots[..e] + [frame]
  {
    hide CommitEnd;
    var after := ApplyLog(Headed(now, gen), PutSlot(e, frame));
    assert after.slots[..e + 1] == now.slots[..e] + [frame];
  }

  lemma KeptNow(now: Log, headerOk: bool, gen: nat, c: nat)
    requires Opened(now, headerOk, gen, c)
    ensures CommitEnd(now) == c <= |now.slots|
  {
    if headerOk { SettledEnd(now, gen, c); }
  }

  lemma CommittingWrites(safe: Log, q: seq<LogWrite>, headerOk: bool, gen: nat, c: nat, e: nat, meta: Meta, all: seq<LogWrite>)
    requires Committing(safe, q, headerOk, gen, c, e, meta, all)
    ensures forall w :: w in all <==> w in q || (!headerOk && w == PutHeader(gen)) || w == PutSlot(e, Frame(0, gen, true, MetaImage(meta)))
  {
  }

  lemma CommittingSession(safe: Log, q: seq<LogWrite>, headerOk: bool, gen: nat, c: nat, e: nat, meta: Meta, all: seq<LogWrite>)
    requires Committing(safe, q, headerOk, gen, c, e, meta, all)
    ensures (forall w | w in all :: !w.Truncate?) && MayHold(safe, all, e, Frame(0, gen, true, MetaImage(meta)))
    ensures forall g: nat | MayHead(safe, all, g) :: g <= gen
    ensures forall g: nat | MayHead(safe, q, g) :: MayHead(safe, all, g)
    ensures forall k: nat, f | MayHold(safe, q, k, f) :: MayHold(safe, all, k, f)
    ensures MayHead(safe, all, gen)
  {
    NoTruncate(safe, q, gen, c);
    CommittingWrites(safe, q, headerOk, gen, c, e, meta, all);
    forall g: nat | MayHead(safe, all, g) ensures g <= gen {
      if PutHeader(g) in q { assert Uncommitted(PutHeader(g), safe, gen, c); }
    }
    if headerOk {
      HeaderFrom(safe, q, gen);
    }
  }

  lemma {:induction false} HeaderFrom(safe: Log, q: seq<LogWrite>, gen: nat)
    requires RunLog(safe, q).header == Some(gen)
    ensures MayHead(safe, q, gen)
  {
    if q != [] {
      var v, w := q[..|q| - 1], q[|q| - 1];
      assert w in q && forall x | x in v :: x in q;
      if w.PutSlot? { HeaderFrom(safe, v, gen); }
    }
  }

  /** Of the frames committed before, some first ones are redone, and each page's last
      version: all of them, if they are not yet in the file. */
  ghost predicate KeepsOld(safe: Log, gen: nat, log: Log) {
    && CommitEnd(log) <= CommitEnd(safe) && (safe.header == Some(gen) ==> CommitEnd(log) == CommitEnd(safe))
    && log.slots[..CommitEnd(log)] == safe.slots[..CommitEnd(log)] && Within(Overlay(log), Overlay(safe))
  }

  /** A header of an older generation left with the commit frame. */
  lemma OlderWithCommit(safe: Log, q: seq<LogWrite>, headerOk: bool, gen: nat, c: nat, e: nat, meta: Meta, all: seq<LogWrite>)
      returns (log: Log)
    requires Committing(safe, q, headerOk, gen, c, e, meta, all) && !OneHeader(safe, q, gen)
    ensures AnyLog(safe, all, log) && !Tidy(log)
  {
    CommittingSession(safe, q, headerOk, gen, c, e, meta, all);
    hide Committing, MayHold;
    var g: nat :| MayHead(safe, q, g) && g != gen;
    log := CutWith(safe, all, g, e, Frame(0, gen, true, MetaImage(meta)));
    assert !CommitsBefore(log, g + 1) by { assert IsCommit(log.slots[e]) && log.slots[e].gen > g; }
  }

  /** The commit frame, and another version of one of the transaction's frames. */
  lemma OtherFrame(safe: Log, q: seq<LogWrite>, headerOk: bool, gen: nat, c: nat, e: nat, meta: Meta, all: seq<LogWrite>,
                   k: nat, f: Slot) returns (log: Log)
    requires Committing(safe, q, headerOk, gen, c, e, meta, all)
    requires c <= k < e && MayHold(safe, q, k, f) && ValidFrame(f, gen) && f != SlotAt(RunLog(safe, q), k)
    ensures AnyLog(safe, all, log) && !KeepsOld(safe, gen, log) && Kept(log) != Kept(RunLog(safe, all))
    ensures k < CommitEnd(log) && log.slots[k] == f
  {
    CommittingSession(safe, q, headerOk, gen, c, e, meta, all);
    CommittingNow(safe, q, headerOk, gen, c, e, meta, all);
    var now, frame := RunLog(safe, q), Frame(0, gen, true, MetaImage(meta));
    var valid := forall i | c <= i < e :: ValidFrame(now.slots[i], gen);
    assert valid && c <= e <= |now.slots|;
    hide Committing, MayHold, MayHead, Tidy, RunLog;
    log := CutWith(safe, all, gen, k, f);
    var after := RunLog(safe, all);
    forall i: nat | i <= e && i != k ensures i < |log.slots| && log.slots[i] == after.slots[i] && ValidFrame(log.slots[i], gen) {
      assert SlotAt(log, i) == SlotAt(after, i);
      assert i < c ==> ValidFrame(Headed(now, gen).slots[i], gen);
    }
    LateEnd(log, gen, e);
    assert Kept(log)[k] == f && Kept(after)[k] == after.slots[k];
    assert log.slots[e] == frame;
    NotOld(safe, q, headerOk, gen, c, e, meta, all, log);
  }

  /** A log that redoes the commit frame does not keep to the frames committed before. */
  lemma NotOld(safe: Log, q: seq<LogWrite>, headerOk: bool, gen: nat, c: nat, e: nat, meta: Meta, all: seq<LogWrite>, log: Log)
    requires Committing(safe, q, headerOk, gen, c, e, meta, all) && e < CommitEnd(log) && log.slots[e] == Frame(0, gen, true, MetaImage(meta))
    ensures !KeepsOld(safe, gen, log)
  {
    if KeepsOld(safe, gen, log) {
      assert log.slots[..CommitEnd(log)][e] == safe.slots[..CommitEnd(log)][e];
      if safe.header == Some(gen) { SettledEnd(safe, gen, c); } else { assert IsCommit(safe.slots[e]); }
      assert false;
    }
  }

  lemma LateEnd(log: Log, gen: nat, e: nat)
    requires log.header == Some(gen) && e < |log.slots| && (forall i | 0 <= i <= e :: ValidFrame(log.slots[i], gen)) && IsCommit(log.slots[e])
    ensures CommitEnd(log) >= e + 1
  {
    var n := ScanEnd(log.slots, gen, 0);
    ScanEndIs(log.slots, gen, 0);
    LastCommitIs(log.slots, n);
  }

  lemma {:induction false} HeaderStays(safe: Log, q: seq<LogWrite>)
    requires forall w | w in q :: w.PutSlot?
    ensures RunLog(safe, q).header == safe.header
  {
    if q != [] {
      assert q[|q| - 1] in q && forall x | x in q[..|q| - 1] :: x in q;
      HeaderStays(safe, q[..|q| - 1]);
    }
  }

  lemma {:induction false} RunIsCut(safe: Log, q: seq<LogWrite>)
    ensures AnyLog(safe, q, RunLog(safe, q))
  {
    if q != [] { RunIsCut(safe, q[..|q| - 1]); }
  }

  /** The synced commits are in every cut. */
  lemma {:induction false} CommitsStay(safe: Log, q: seq<LogWrite>, headerOk: bool, gen: nat, c: nat, e: nat, meta: Meta, all: seq<LogWrite>, log: Log)
    requires Committing(safe, q, headerOk, gen, c, e, meta, all) && Possible(safe, all, log)
    ensures c <= |log.slots| && c <= |safe.slots|
    ensures forall k | 0 <= k < c :: log.slots[k] == RunLog(safe, q).slots[k] == safe.slots[k]
    ensures safe.header == Some(gen) ==> CommitEnd(safe) == c
  {
    if safe.header == Some(gen) { SettledEnd(safe, gen, c); }
    if c > 0 {
      var now := RunLog(safe, q);
      NoTruncate(safe, q, gen, c);
      RunIsCut(safe, q);
      AnyPossible(safe, q, now);
      CommittingWrites(safe, q, headerOk, gen, c, e, meta, all);
      forall w | w in q && w.PutSlot? ensures w.index >= c { assert Uncommitted(w, safe, gen, c); }
      forall k | 0 <= k < c ensures log.slots[k] == now.slots[k] == safe.slots[k] { assert !Touched(q, k) && !Touched(all, k); }
    }
  }

  /** What a frame of the generation can be, past the synced commits. */
  lemma FrameAt(safe: Log, q: seq<LogWrite>, headerOk: bool, gen: nat, c: nat, e: nat, meta: Meta, all: seq<LogWrite>, k: nat, f: Slot)
    requires Committing(safe, q, headerOk, gen, c, e, meta, all) && MayHold(safe, all, k, f) && f.Frame?
    ensures Typed(f) && (f.commit ==> f.gen <= gen)
    ensures c <= k && f.gen == gen ==>
              (k == e && f == Frame(0, gen, true, MetaImage(meta))) || (!f.commit && MayHold(safe, q, k, f))
  {
    CommittingWrites(safe, q, headerOk, gen, c, e, meta, all);
    if PutSlot(k, f) in q { assert Uncommitted(PutSlot(k, f), safe, gen, c); }
  }

  /** The end of a log whose commits end at `c`, or at the commit frame in slot `e`. */
  lemma CutEnds(log: Log, slots: seq<Slot>, gen: nat, c: nat, e: nat, frame: Slot)
    requires log.header == Some(gen) && c <= e <= |slots| && c <= |log.slots| && CommitsBefore(log, gen + 1)
    requires forall k | 0 <= k < c :: ValidFrame(slots[k], gen) && log.slots[k] == slots[k]
    requires c > 0 ==> IsCommit(slots[c - 1])
    requires forall k | c <= k < e && k < |log.slots| && ValidFrame(log.slots[k], gen) :: log.slots[k] == slots[k]
    requires forall k | c <= k < |log.slots| && ValidFrame(log.slots[k], gen) && IsCommit(log.slots[k]) :: k == e && log.slots[k] == frame
    ensures Kept(log) == slots[..c] || Kept(log) == slots[..e] + [frame]
  {
    var n := ScanEnd(log.slots, gen, 0);
    ScanEndIs(log.slots, gen, 0);
    LastCommitIs(log.slots, n);
    hide ScanEnd, LastCommit;
    if e < n && IsCommit(log.slots[e]) {
      assert Settled(log, gen, e + 1);
      SettledEnd(log, gen, e + 1);
      assert log.slots[..e + 1] == slots[..e] + [frame];
    } else {
      assert n >= c;
      EarlyEnd(log, gen, c, e, n);
      assert log.slots[..c] == slots[..c];
    }
  }

  /** A commit frame the scan does not reach is not there for it. */
  lemma {:induction false} EarlyEnd(log: Log, gen: nat, c: nat, e: nat, n: nat)
    requires log.header == Some(gen) && c <= n <= |log.slots| && CommitsBefore(log, gen + 1)
    requires n == ScanEnd(log.slots, gen, 0) && (e < n ==> !IsCommit(log.slots[e]))
    requires forall k | 0 <= k < c :: ValidFrame(log.slots[k], gen)
    requires c > 0 ==> IsCommit(log.slots[c - 1])
    requires forall k | c <= k < |log.slots| && ValidFrame(log.slots[k], gen) && IsCommit(log.slots[k]) :: k == e
    ensures CommitEnd(log) == c
  {
    ScanEndIs(log.slots, gen, 0);
    LastCommitIs(log.slots, n);
    var r := LastCommit(log.slots, n);
    hide ScanEnd, LastCommit;
    if r > 0 { assert ValidFrame(log.slots[r - 1], gen); }
  }

  /** Under the transaction's header, with one frame for each slot, a cut keeps the old
      commits or the new. */
  lemma {:induction false} CutOfHeaded(safe: Log, q: seq<LogWrite>, headerOk: bool, gen: nat, c: nat, e: nat, meta: Meta, all: seq<LogWrite>, log: Log)
    requires Committing(safe, q, headerOk, gen, c, e, meta, all) && Possible(safe, all, log) && log.header == Some(gen)
    requires OneFrameEach(safe, q, gen, c, e)
    ensures KeepsOld(safe, gen, log) || Kept(log) == Kept(RunLog(safe, all))
  {
    var slots, frame := RunLog(safe, q).slots, Frame(0, gen, true, MetaImage(meta));
    CommittingNow(safe, q, headerOk, gen, c, e, meta, all);
    CommittingWrites(safe, q, headerOk, gen, c, e, meta, all);
    CommitsStay(safe, q, headerOk, gen, c, e, meta, all, log);
    assert c <= e <= |slots| && (c > 0 ==> safe.header == Some(gen));
    hide MayHead, MayHold, Possible;
    forall k | 0 <= k < |log.slots|
      ensures Typed(log.slots[k]) && (IsCommit(log.slots[k]) ==> log.slots[k].gen < gen + 1)
      ensures c <= k < e && ValidFrame(log.slots[k], gen) ==> log.slots[k] == slots[k]
      ensures c <= k && ValidFrame(log.slots[k], gen) && IsCommit(log.slots[k]) ==> k == e && log.slots[k] == frame
    {
      HeadedSlot(safe, q, headerOk, gen, c, e, meta, all, log, k);
    }
    hide Committing;
    CutEnds(log, slots, gen, c, e, frame);
    if Kept(log) == slots[..c] { OldKept(safe, gen, log, slots, c); }
  }

  lemma {:induction false} HeadedSlot(safe: Log, q: seq<LogWrite>, headerOk: bool, gen: nat, c: nat, e: nat, meta: Meta, all: seq<LogWrite>, log: Log, k: nat)
    requires Committing(safe, q, headerOk, gen, c, e, meta, all) && Possible(safe, all, log) && OneFrameEach(safe, q, gen, c, e) && k < |log.slots|
    ensures Typed(log.slots[k]) && (IsCommit(log.slots[k]) ==> log.slots[k].gen < gen + 1)
    ensures c <= k < e && ValidFrame(log.slots[k], gen) ==> e <= |RunLog(safe, q).slots| && log.slots[k] == RunLog(safe, q).slots[k]
    ensures c <= k && ValidFrame(log.slots[k], gen) && IsCommit(log.slots[k]) ==> k == e && log.slots[k] == Frame(0, gen, true, MetaImage(meta))
  {
    var f := log.slots[k];
    if f.Frame? {
      assert MayHold(safe, all, k, f);
      FrameAt(safe, q, headerOk, gen, c, e, meta, all, k, f);
      assert e <= |RunLog(safe, q).slots|;
      hide Committing, MayHold, Possible;
      if c <= k < e && f.gen == gen { assert f == SlotAt(RunLog(safe, q), k); }
    }
  }

  lemma OldKept(safe: Log, gen: nat, log: Log, slots: seq<Slot>, c: nat)
    requires c <= |slots| && c <= |log.slots| && c <= |safe.slots| && Kept(log) == slots[..c]
    requires forall k | 0 <= k < c :: log.slots[k] == slots[k] == safe.slots[k]
    requires (c > 0 ==> safe.header == Some(gen)) && (safe.header == Some(gen) ==> CommitEnd(safe) == c)
    ensures KeepsOld(safe, gen, log)
  {
    assert |Kept(log)| == CommitEnd(log) == c;
    if c > 0 { SamePrefix(safe.slots, log.slots, c); } else { assert Latest(log.slots, 0) == map[]; }
  }

  /** Under an older header, or none. */
  lemma CutOfOlder(safe: Log, q: seq<LogWrite>, headerOk: bool, gen: nat, c: nat, e: nat, meta: Meta, all: seq<LogWrite>, log: Log)
    requires Committing(safe, q, headerOk, gen, c, e, meta, all) && Possible(safe, all, log) && log.header != Some(gen)
    requires PrefixesAgree(safe, all)
    ensures KeepsOld(safe, gen, log)
  {
    if safe.header == Some(gen) {
      HeaderSynced(safe, q, headerOk, gen, c, e, meta, all, log);
      assert false;
    }
    hide Committing, Foreign, CommitEnd, Possible, Earlier;
    if log.header.None? {
      NothingKept(safe, gen, log);
    } else if log.header != safe.header {
      NewHeaderCut(safe, q, headerOk, gen, c, e, meta, all, log);
      NothingKept(safe, gen, log);
    } else {
      AllForeign(safe, q, headerOk, gen, c, e, meta, all);
      OldHeaderCut(safe, all, log);
      if SameCommits(safe, log) {
        SameOverlay(safe, log);
      } else {
        var k: nat :| Touched(all, k) && StopsAt(safe, log, k);
        StoppedOverlay(safe, log, k);
        assert AgreesAt(safe, k);
        StoppedKept(safe, gen, log, k);
      }
    }
  }

  lemma HeaderSynced(safe: Log, q: seq<LogWrite>, headerOk: bool, gen: nat, c: nat, e: nat, meta: Meta, all: seq<LogWrite>, log: Log)
    requires Committing(safe, q, headerOk, gen, c, e, meta, all) && Possible(safe, all, log) && safe.header == Some(gen)
    ensures log.header == Some(gen)
  {
    CommittingWrites(safe, q, headerOk, gen, c, e, meta, all);
    NoTruncate(safe, q, gen, c);
    HeaderStays(safe, q);
    assert headerOk && forall g: nat :: PutHeader(g) !in all;
  }

  lemma NothingKept(safe: Log, gen: nat, log: Log)
    requires safe.header != Some(gen) && (log.header.None? || CommitEnd(log) == 0)
    ensures KeepsOld(safe, gen, log)
  {
    assert Latest(log.slots, 0) == map[];
  }

  lemma StoppedKept(safe: Log, gen: nat, log: Log, k: nat)
    requires StopsAt(safe, log, k) && safe.header != Some(gen) && Overlay(log) == Earlier(safe, k) && AgreesAt(safe, k)
    ensures KeepsOld(safe, gen, log)
  {
    hide Overlay, Earlier;
    assert CommitEnd(log) <= k;
  }

  lemma AllForeign(safe: Log, q: seq<LogWrite>, headerOk: bool, gen: nat, c: nat, e: nat, meta: Meta, all: seq<LogWrite>)
    requires Committing(safe, q, headerOk, gen, c, e, meta, all) && safe.header.Some? && safe.header != Some(gen)
    ensures Foreign(safe, all, safe.header.value)
  {
    CommittingWrites(safe, q, headerOk, gen, c, e, meta, all);
    SessionForeign(safe, q, gen, c);
  }

  /** A header that is neither the synced one nor the transaction's own. */
  lemma NewHeaderCut(safe: Log, q: seq<LogWrite>, headerOk: bool, gen: nat, c: nat, e: nat, meta: Meta, all: seq<LogWrite>, log: Log)
    requires Committing(safe, q, headerOk, gen, c, e, meta, all) && Possible(safe, all, log)
    requires log.header.Some? && log.header != Some(gen) && log.header != safe.header
    ensures CommitEnd(log) == 0
  {
    CommittingWrites(safe, q, headerOk, gen, c, e, meta, all);
    var g := log.header.value;
    assert PutHeader(g) in q && Uncommitted(PutHeader(g), safe, gen, c);
    var n := ScanEnd(log.slots, g, 0);
    ScanEndIs(log.slots, g, 0);
    forall j | 0 <= j < n ensures !IsCommit(log.slots[j]) {
      var f := log.slots[j];
      assert ValidFrame(f, g) && MayHold(safe, all, j, f);
      if PutSlot(j, f) in q { assert Uncommitted(PutSlot(j, f), safe, gen, c); }
    }
    LastCommitAt(log.slots, 0, n);
  }

  /** Whatever of the writes `all` survive, the frames committed by all of them are redone,
      or only frames committed before, each page's last version. */
  ghost predicate Atomic(safe: Log, gen: nat, all: seq<LogWrite>) {
    forall log | AnyLog(safe, all, log) :: KeepsOld(safe, gen, log) || Kept(log) == Kept(RunLog(safe, all))
  }

  /** A commit synced in any order keeps the old commits or the new, whatever of its writes
      survive, if and only if what it writes over in the synced log agrees with what comes
      after, and each of its slots can hold no frame of the generation but its own. */
  lemma CommitAnyOrder(safe: Log, q: seq<LogWrite>, headerOk: bool, gen: nat, c: nat, e: nat, meta: Meta, all: seq<LogWrite>)
    requires Committing(safe, q, headerOk, gen, c, e, meta, all)
    ensures Atomic(safe, gen, all) <==> PrefixesAgree(safe, all) && OneFrameEach(safe, q, gen, c, e)
  {
    hide Committing, AnyLog, KeepsOld, OneHeader, RunLog, Kept, AgreesAt, Possible;
    if !PrefixesAgree(safe, all) {
      var k: nat :| Touched(all, k) && !AgreesAt(safe, k);
      var log := EarlierCommit(safe, q, headerOk, gen, c, e, meta, all, k);
    } else if OneFrameEach(safe, q, gen, c, e) {
      forall log | AnyLog(safe, all, log) ensures KeepsOld(safe, gen, log) || Kept(log) == Kept(RunLog(safe, all)) {
        CommittingSession(safe, q, headerOk, gen, c, e, meta, all);
        AnyPossible(safe, all, log);
        if log.header == Some(gen) { CutOfHeaded(safe, q, headerOk, gen, c, e, meta, all, log); }
        else { CutOfOlder(safe, q, headerOk, gen, c, e, meta, all, log); }
      }
    } else {
      var k: nat, f :| c <= k < e && MayHold(safe, q, k, f) && ValidFrame(f, gen) && f != SlotAt(RunLog(safe, q), k);
      var log := OtherFrame(safe, q, headerOk, gen, c, e, meta, all, k, f);
    }
  }

  /** The older header with one slot written over: what was committed before it, which is
      not each page's last version. */
  lemma EarlierCommit(safe: Log, q: seq<LogWrite>, headerOk: bool, gen: nat, c: nat, e: nat, meta: Meta, all: seq<LogWrite>, k: nat)
      returns (log: Log)
    requires Committing(safe, q, headerOk, gen, c, e, meta, all) && Touched(all, k) && !AgreesAt(safe, k)
    ensures AnyLog(safe, all, log) && Overlay(log) == Earlier(safe, k)
    ensures !KeepsOld(safe, gen, log) && Kept(log) != Kept(RunLog(safe, all))
  {
    CommittingWrites(safe, q, headerOk, gen, c, e, meta, all);
    assert safe.header.Some?;
    if safe.header == Some(gen) {
      SyncedAgrees(safe, q, headerOk, gen, c, e, meta, all);
      assert false;
    }
    AllForeign(safe, q, headerOk, gen, c, e, meta, all);
    log := EarlierCut(safe, all, k);
    CommittingNow(safe, q, headerOk, gen, c, e, meta, all);
    hide AnyLog, Foreign, Overlay, Earlier, Touched, Committing;
    OldFrames(safe, log, k, gen, RunLog(safe, all), e);
  }

  lemma SyncedAgrees(safe: Log, q: seq<LogWrite>, headerOk: bool, gen: nat, c: nat, e: nat, meta: Meta, all: seq<LogWrite>)
    requires Committing(safe, q, headerOk, gen, c, e, meta, all) && safe.header == Some(gen)
    ensures PrefixesAgree(safe, all)
  {
    CommittingWrites(safe, q, headerOk, gen, c, e, meta, all);
    SessionForeign(safe, q, gen, c);
    SettledEnd(safe, gen, c);
    forall k: nat | Touched(all, k) ensures AgreesAt(safe, k) {
      var f :| PutSlot(k, f) in all;
      assert PutSlot(k, f) in q ==> Touched(q, k);
    }
  }

  lemma OldFrames(safe: Log, log: Log, k: nat, gen: nat, after: Log, e: nat)
    requires StopsAt(safe, log, k) && safe.header.Some? && safe.header != Some(gen) && Settled(after, gen, e + 1)
    ensures Kept(log) != Kept(after)
  {
    SettledEnd(after, gen, e + 1);
    var g, n := safe.header.value, CommitEnd(log);
    ScanEndIs(safe.slots, g, 0);
    hide ScanEnd, LastCommit;
    if e < n { assert Kept(log)[e] == safe.slots[e] && Kept(after)[e] == after.slots[e]; }
  }

  /** Whatever of the writes survive, a log begun anew in its place commits nothing, if and
      only if the header can be no older than the commit frame. */
  lemma {:induction false} TidyAnyOrder(safe: Log, q: seq<LogWrite>, headerOk: bool, gen: nat, c: nat, e: nat, meta: Meta, all: seq<LogWrite>)
    requires Committing(safe, q, headerOk, gen, c, e, meta, all)
    ensures (forall log | AnyLog(safe, all, log) :: Tidy(log)) <==> OneHeader(safe, q, gen)
  {
    if OneHeader(safe, q, gen) {
      CommittingSession(safe, q, headerOk, gen, c, e, meta, all);
      CommittingWrites(safe, q, headerOk, gen, c, e, meta, all);
      forall log | AnyLog(safe, all, log) ensures Tidy(log) {
        AnyPossible(safe, all, log);
        hide AnyLog;
        if log.header.Some? {
          assert MayHead(safe, q, log.header.value) || log.header == Some(gen);
          forall k | 0 <= k < |log.slots| ensures Typed(log.slots[k]) && (IsCommit(log.slots[k]) ==> log.slots[k].gen < gen + 1) {
            var f := log.slots[k];
            if f != Junk { FrameAt(safe, q, headerOk, gen, c, e, meta, all, k, f); }
          }
        }
      }
    } else {
      var log := OlderWithCommit(safe, q, headerOk, gen, c, e, meta, all);
    }
  }

  // ---- what keeps a session's log one ----

  lemma {:induction false} SessionWrites(safe: Log, q: seq<LogWrite>, headerOk: bool, gen: nat, c: nat, slot: nat, s: Slot)
    requires SessionOf(safe, q, gen, c) && Opened(RunLog(safe, q), headerOk, gen, c)
    requires c <= slot && s.Frame? && s.gen == gen && !s.commit && Typed(s)
    ensures SessionOf(safe, q + FrameWrites(headerOk, gen, slot, s), gen, c)
  {
    var ws := FrameWrites(headerOk, gen, slot, s);
    if safe.header == Some(gen) {
      SettledEnd(safe, gen, c);
      NoTruncate(safe, q, gen, c);
      HeaderStays(safe, q);
      assert headerOk;
    }
    forall w | w in q + ws ensures Uncommitted(w, safe, gen, c) {}
  }

  /** Once all is synced. */
  lemma SessionSynced(now: Log, headerOk: bool, gen: nat, c: nat)
    requires Opened(now, headerOk, gen, c)
    ensures SessionOf(now, [], gen, c)
  {
  }

  /** A new generation begun. */
  lemma SessionReset(safe: Log, q: seq<LogWrite>, gen: nat, c: nat)
    requires SessionOf(safe, q, gen, c)
    ensures SessionOf(safe, q + [PutHeader(gen + 1)], gen + 1, 0)
  {
    if safe.header == Some(gen) { SettledEnd(safe, gen, c); }
    var more, next := q + [PutHeader(gen + 1)], gen + 1;
    forall w | w in more ensures Uncommitted(w, safe, next, 0) {
      if w in q { assert Uncommitted(w, safe, gen, c); }
    }
  }

  /** A log found by a new process, all of it synced, and begun anew. */
  lemma SessionBegun(safe: Log, gen: nat)
    requires safe.header == Some(gen) && CommitsBefore(safe, gen + 1)
    ensures SessionOf(safe, [PutHeader(gen + 1)], gen + 1, 0)
  {
    var next := gen + 1;
    assert Uncommitted(PutHeader(next), safe, next, 0);
  }

  // ---- the guard of each write ----

  /** One frame written in slot `slot`: the transaction's slots go on holding one frame
      each if and only if nothing else of the generation can be in that slot. */
  lemma {:induction false} OneFrameStep(safe: Log, q: seq<LogWrite>, headerOk: bool, gen: nat, c: nat, e: nat, slot: nat, s: Slot)
    requires (forall w | w in q :: !w.Truncate?) && ValidFrame(s, gen) && c <= slot <= e
    requires slot < e ==> ValidFrame(SlotAt(RunLog(safe, q), slot), gen)
    ensures var q', e' := q + FrameWrites(headerOk, gen, slot, s), if slot == e then e + 1 else e;
            OneFrameEach(safe, q', gen, c, e') <==>
            OneFrameEach(safe, q, gen, c, e) && forall f | MayHold(safe, q, slot, f) && ValidFrame(f, gen) :: f == s
  {
    var ws := FrameWrites(headerOk, gen, slot, s);
    var q', e' := q + ws, if slot == e then e + 1 else e;
    var now, now' := RunLog(safe, q), RunLog(safe, q');
    FrameNow(safe, q, headerOk, gen, slot, s);
    assert forall w :: w in q' <==> w in q || w in ws;
    assert PutSlot(slot, s) in ws;
    assert forall k: nat, f :: MayHold(safe, q', k, f) <==> MayHold(safe, q, k, f) || (k == slot && f == s);
    hide MayHold, RunLog;
    if OneFrameEach(safe, q', gen, c, e') {
      forall f | MayHold(safe, q, slot, f) && ValidFrame(f, gen) ensures f == s {
        assert MayHold(safe, q', slot, f);
        assert f == SlotAt(now', slot);
      }
      forall k: nat, f | c <= k < e && MayHold(safe, q, k, f) && ValidFrame(f, gen) ensures f == SlotAt(now, k) {
        assert MayHold(safe, q', k, f);
        assert f == SlotAt(now', k);
        if k == slot { NowMayHold(safe, q, k, gen); }
      }
    }
  }

  lemma {:induction false} NowMayHold(safe: Log, q: seq<LogWrite>, k: nat, gen: nat)
    requires (forall w | w in q :: !w.Truncate?) && ValidFrame(SlotAt(RunLog(safe, q), k), gen)
    ensures MayHold(safe, q, k, SlotAt(RunLog(safe, q), k))
  {
    RunIsCut(safe, q);
    AnyPossible(safe, q, RunLog(safe, q));
  }

  lemma {:induction false} FrameNow(safe: Log, q: seq<LogWrite>, headerOk: bool, gen: nat, slot: nat, s: Slot)
    ensures var now, now' := RunLog(safe, q), RunLog(safe, q + FrameWrites(headerOk, gen, slot, s));
            forall k: nat :: SlotAt(now', k) == if k == slot then s else SlotAt(now, k)
  {
    var ws := FrameWrites(headerOk, gen, slot, s);
    RunLogAppend(safe, q, ws);
    var now := RunLog(safe, q);
    assert RunLog(now, []) == now;
    if !headerOk {
      assert ws[..1] == [PutHeader(gen)] && ws[..1][..0] == [];
      assert RunLog(now, [PutHeader(gen)]) == ApplyLog(now, PutHeader(gen));
    }
    assert ws[..|ws| - 1] == if headerOk then [] else [PutHeader(gen)];
  }
}
