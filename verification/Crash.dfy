/** What a crash may leave behind, and what it may never: the arguments about
    single writes that the pager's operations are put together from. */
module Crash {
  import opened Wrappers
  import opened Disk
  import opened Recovery

  /** What a power cut may cost: anything, acknowledged commits but never a part
      of one, or nothing acknowledged. */
  datatype Promise = Nothing | SomePrefix | Everything

  /** Opening `d` yields one of the commits `lo` to `hi` of the history, whole. */
  ghost predicate Allowed(h: seq<Contents>, lo: nat, hi: nat, d: Files) {
    exists k | lo <= k <= hi && k < |h| :: Recovers(d, h[k])
  }

  function Floor(p: Promise, acked: nat): nat { if p.Everything? then acked else 0 }

  ghost predicate DeathSafe(m: Moment, h: seq<Contents>) {
    forall d | DeathLeaves(m, d) :: Allowed(h, m.acked, m.issued, d)
  }

  ghost predicate PowerSafe(s: Store, h: seq<Contents>, lo: nat, hi: nat) {
    forall d | PowerLeaves(s, d) :: Allowed(h, lo, hi, d)
  }

  /** The files `s` of a process that died, found to hold `c`, hold it safe from a power
      cut while it is recovered: what the log commits is durable before any of it is
      copied. */
  ghost predicate Durable(s: Store, c: Contents) {
    var ov := Overlay(LogNow(s));
    if ov == map[] then s.dbQueue == [] && PowerSafe(s, [c], 0, 0) else QuietLog(s, ov) && QuietDb(s, ov, c)
  }

  /** Whatever happens at `m`, reopening yields the last acknowledged commit or
      the one in flight; after a power cut, as much as `p` promises; and if it promises
      everything and no commit is in flight, the files found hold their commit safe. */
  ghost predicate MomentSafe(m: Moment, h: seq<Contents>, p: Promise) {
    && m.acked <= m.issued <= m.acked + 1 && DeathSafe(m, h)
    && (p != Nothing ==> PowerSafe(Issued(m), h, Floor(p, m.acked), m.issued))
    && (p.Everything? && m.acked == m.issued ==> m.acked < |h| && Durable(Issued(m), h[m.acked]))
  }

  ghost predicate TraceSafe(trace: seq<Moment>, h: seq<Contents>, p: Promise) {
    forall m | m in trace :: MomentSafe(m, h, p)
  }

  lemma AllowedGrows(h: seq<Contents>, c: Contents, lo: nat, hi: nat, d: Files)
    requires Allowed(h, lo, hi, d)
    ensures Allowed(h + [c], lo, hi, d)
  {
    var k :| lo <= k <= hi && k < |h| && Recovers(d, h[k]);
    assert (h + [c])[k] == h[k];
  }

  lemma PowerSafeGrows(s: Store, h: seq<Contents>, c: Contents, lo: nat, hi: nat)
    requires PowerSafe(s, h, lo, hi)
    ensures PowerSafe(s, h + [c], lo, hi)
  {
    hide Allowed, PowerLeaves;
    forall d | PowerLeaves(s, d) ensures Allowed(h + [c], lo, hi, d) { AllowedGrows(h, c, lo, hi, d); }
  }

  lemma TraceSafeGrows(trace: seq<Moment>, h: seq<Contents>, p: Promise, c: Contents)
    requires TraceSafe(trace, h, p)
    ensures TraceSafe(trace, h + [c], p)
  {
    hide Allowed, DeathLeaves, PowerLeaves, PowerSafe, Issued, Durable;
    forall m | m in trace ensures MomentSafe(m, h + [c], p) {
      forall d | DeathLeaves(m, d) ensures Allowed(h + [c], m.acked, m.issued, d) {
        AllowedGrows(h, c, m.acked, m.issued, d);
      }
      if p != Nothing { PowerSafeGrows(Issued(m), h, c, Floor(p, m.acked), m.issued); }
      assert m.acked < |h| ==> (h + [c])[m.acked] == h[m.acked];
    }
  }

  // ---- writes to the log, while the database file is at rest ----

  /** A cut of the log after one more write is a cut before it, or that write
      whole or torn. */
  lemma LogCutStep(s: Store, w: LogWrite, j: nat, log: Log)
    requires j <= |s.logQueue| + 1 && LogCut(Issue(s, ToLog(w)), j, log)
    ensures (j <= |s.logQueue| && LogCut(s, j, log)) ||
            log == ApplyLog(LogNow(s), w) || log == TearLog(LogNow(s), w)
  {
    hide ApplyLog, TearLog;
    var q := s.logQueue + [w];
    if j <= |s.logQueue| {
      assert q[..j] == s.logQueue[..j];
      if j == |s.logQueue| { assert s.logQueue[..j] == s.logQueue; }
    } else {
      assert q[..j] == q;
      RunLogOne(s.logSafe, s.logQueue, w);
    }
  }

  lemma PowerAfterLog(s: Store, w: LogWrite, h: seq<Contents>, lo: nat, hi: nat)
    requires s.dbQueue == [] && PowerSafe(s, h, lo, hi)
    requires Allowed(h, lo, hi, Files(s.dbSafe, ApplyLog(LogNow(s), w)))
    requires Allowed(h, lo, hi, Files(s.dbSafe, TearLog(LogNow(s), w)))
    ensures PowerSafe(Issue(s, ToLog(w)), h, lo, hi)
  {
    hide Allowed, LogCut, ApplyLog, TearLog, LogNow;
    var t := Issue(s, ToLog(w));
    forall d | PowerLeaves(t, d) ensures Allowed(h, lo, hi, d) {
      var i: nat, j: nat :| i <= |t.dbQueue| && j <= |t.logQueue| && DbCut(t, i, d.db) && LogCut(t, j, d.log);
      LogCutStep(s, w, j, d.log);
      assert d.db == s.dbSafe;
      if j <= |s.logQueue| && LogCut(s, j, d.log) {
        assert DbCut(s, 0, d.db);
        assert PowerLeaves(s, d);
      } else {
        assert d == Files(s.dbSafe, d.log);
      }
    }
  }

  /** `ws`, issued on `log`, passes only through states reopening to a commit
      between `lo` and `hi`. */
  ghost predicate LogPath(db: seq<Block>, log: Log, ws: seq<LogWrite>, h: seq<Contents>, lo: nat, hi: nat) {
    && (forall i | 0 <= i <= |ws| :: Allowed(h, lo, hi, Files(db, RunLog(log, ws[..i]))))
    && (forall i | 0 <= i < |ws| :: Allowed(h, lo, hi, Files(db, TearLog(RunLog(log, ws[..i]), ws[i]))))
  }

  function AfterLog(s: Store, ws: seq<LogWrite>): Store { s.(logQueue := s.logQueue + ws) }

  /** The moments at which the writes `ws` are issued. */
  function LogMoments(s: Store, ws: seq<LogWrite>, acked: nat, issued: nat): seq<Moment> {
    if ws == [] then []
    else LogMoments(s, ws[..|ws| - 1], acked, issued) +
         [Moment(AfterLog(s, ws[..|ws| - 1]), Some(ToLog(ws[|ws| - 1])), acked, issued)]
  }

  lemma LogPathShorter(db: seq<Block>, log: Log, ws: seq<LogWrite>, h: seq<Contents>, lo: nat, hi: nat)
    requires LogPath(db, log, ws, h, lo, hi) && ws != []
    ensures var v, w := ws[..|ws| - 1], ws[|ws| - 1];
            LogPath(db, log, v, h, lo, hi) && Allowed(h, lo, hi, Files(db, RunLog(log, v))) &&
            Allowed(h, lo, hi, Files(db, RunLog(log, ws))) && Allowed(h, lo, hi, Files(db, TearLog(RunLog(log, v), w)))
  {
    hide Allowed, RunLog, TearLog;
    var v := ws[..|ws| - 1];
    forall i | 0 <= i <= |v| ensures v[..i] == ws[..i] {}
    assert ws[..|ws|] == ws;
  }

  lemma AllowedWider(h: seq<Contents>, lo: nat, hi: nat, lo': nat, d: Files)
    requires Allowed(h, lo, hi, d) && lo' <= lo
    ensures Allowed(h, lo', hi, d)
  {
  }

  lemma {:induction false} LogMomentsSafe(s: Store, ws: seq<LogWrite>, h: seq<Contents>, acked: nat, issued: nat, p: Promise)
    requires LogPath(DbNow(s), LogNow(s), ws, h, acked, issued) && acked <= issued <= acked + 1
    requires p != Nothing ==> s.dbQueue == [] && PowerSafe(s, h, Floor(p, acked), issued)
    requires p.Everything? && acked == issued ==> acked < |h| && DurablePath(s, ws, h[acked])
    ensures TraceSafe(LogMoments(s, ws, acked, issued), h, p)
    ensures p != Nothing ==> PowerSafe(AfterLog(s, ws), h, Floor(p, acked), issued)
  {
    if ws == [] {
      assert AfterLog(s, ws) == s;
    } else {
      hide Allowed, RunLog, TearLog, ApplyLog, PowerSafe, LogNow, DbNow, AfterLog, LogPath, Durable, DurablePath;
      var v, w := ws[..|ws| - 1], ws[|ws| - 1];
      LogPathShorter(DbNow(s), LogNow(s), ws, h, acked, issued);
      if p.Everything? && acked == issued { DurablePathShorter(s, ws, h[acked]); }
      LogMomentsSafe(s, v, h, acked, issued, p);
      AfterLogStep(s, ws);
      LogMomentSafe(AfterLog(s, v), w, h, acked, issued, p);
    }
  }

  /** After each of the writes `ws` the files hold `c` safe. */
  ghost predicate DurablePath(s: Store, ws: seq<LogWrite>, c: Contents) {
    forall i | 1 <= i <= |ws| :: Durable(AfterLog(s, ws[..i]), c)
  }

  lemma DurablePathShorter(s: Store, ws: seq<LogWrite>, c: Contents)
    requires DurablePath(s, ws, c) && ws != []
    ensures DurablePath(s, ws[..|ws| - 1], c) && Durable(AfterLog(s, ws), c)
  {
    hide Durable, AfterLog;
    var v := ws[..|ws| - 1];
    forall i | 1 <= i <= |v| ensures v[..i] == ws[..i] {}
    assert ws[..|ws|] == ws;
  }

  lemma LogMomentSafe(t: Store, w: LogWrite, h: seq<Contents>, acked: nat, issued: nat, p: Promise)
    requires acked <= issued <= acked + 1
    requires Allowed(h, acked, issued, Files(DbNow(t), LogNow(t)))
    requires Allowed(h, acked, issued, Files(DbNow(t), ApplyLog(LogNow(t), w)))
    requires Allowed(h, acked, issued, Files(DbNow(t), TearLog(LogNow(t), w)))
    requires p != Nothing ==> t.dbQueue == [] && PowerSafe(t, h, Floor(p, acked), issued)
    requires p.Everything? && acked == issued ==> acked < |h| && Durable(Issue(t, ToLog(w)), h[acked])
    ensures MomentSafe(Moment(t, Some(ToLog(w)), acked, issued), h, p)
    ensures p != Nothing ==> PowerSafe(Issue(t, ToLog(w)), h, Floor(p, acked), issued)
  {
    hide Allowed, RunLog, TearLog, ApplyLog, PowerSafe, LogNow, Durable;
    assert DeathSafe(Moment(t, Some(ToLog(w)), acked, issued), h);
    if p != Nothing {
      AllowedWider(h, acked, issued, Floor(p, acked), Files(t.dbSafe, ApplyLog(LogNow(t), w)));
      AllowedWider(h, acked, issued, Floor(p, acked), Files(t.dbSafe, TearLog(LogNow(t), w)));
      PowerAfterLog(t, w, h, Floor(p, acked), issued);
    }
  }

  lemma AfterLogStep(s: Store, ws: seq<LogWrite>)
    requires ws != []
    ensures var v, w := ws[..|ws| - 1], ws[|ws| - 1]; var t := AfterLog(s, v);
            LogNow(t) == RunLog(LogNow(s), v) && DbNow(t) == DbNow(s) && t.dbQueue == s.dbQueue &&
            Issue(t, ToLog(w)) == AfterLog(s, ws) && ApplyLog(LogNow(t), w) == RunLog(LogNow(s), ws)
  {
    hide ApplyLog;
    var v, w := ws[..|ws| - 1], ws[|ws| - 1];
    RunLogAppend(s.logSafe, s.logQueue, v);
    assert ws == v + [w];
    RunLogOne(LogNow(s), v, w);
    assert s.logQueue + v + [w] == s.logQueue + ws;
  }

  // ---- writes to the database file, while the log keeps their frames ----

  /** Whatever of the unsynced log writes survives, the log commits `ov`. */
  ghost predicate QuietLog(s: Store, ov: map<PageId, Image>) {
    forall j: nat, log | j <= |s.logQueue| && LogCut(s, j, log) :: LogIs(log, ov)
  }

  /** Whatever of the unsynced page writes survives, the file under `ov` holds `c`. */
  ghost predicate QuietDb(s: Store, ov: map<PageId, Image>, c: Contents) {
    forall i: nat, db | i <= |s.dbQueue| && DbCut(s, i, db) :: Holds(db, ov, c)
  }

  lemma QuietIsSafe(s: Store, ov: map<PageId, Image>, h: seq<Contents>, lo: nat, hi: nat)
    requires lo <= hi < |h| && QuietLog(s, ov) && QuietDb(s, ov, h[hi])
    ensures PowerSafe(s, h, lo, hi)
  {
    hide LogIs, Holds, LogCut, DbCut;
    forall d | PowerLeaves(s, d) ensures Allowed(h, lo, hi, d) {
      var i: nat, j: nat :| i <= |s.dbQueue| && j <= |s.logQueue| && DbCut(s, i, d.db) && LogCut(s, j, d.log);
      RecoversHolds(d.db, d.log, ov, h[hi]);
    }
  }

  lemma RecoversHolds(db: seq<Block>, log: Log, ov: map<PageId, Image>, c: Contents)
    requires LogIs(log, ov) && Holds(db, ov, c)
    ensures Recovers(Files(db, log), c)
  {
  }

  lemma SyncedLogIsQuiet(s: Store, ov: map<PageId, Image>)
    requires s.logQueue == [] && LogIs(s.logSafe, ov)
    ensures QuietLog(s, ov)
  {
  }

  lemma QuietLogStep(s: Store, w: LogWrite, ov: map<PageId, Image>)
    requires QuietLog(s, ov) && LogIs(ApplyLog(LogNow(s), w), ov) && LogIs(TearLog(LogNow(s), w), ov)
    ensures QuietLog(Issue(s, ToLog(w)), ov)
  {
    hide LogIs, LogCut, ApplyLog, TearLog, LogNow;
    var t := Issue(s, ToLog(w));
    forall j: nat, log | j <= |t.logQueue| && LogCut(t, j, log) ensures LogIs(log, ov) {
      LogCutStep(s, w, j, log);
    }
  }

  lemma {:induction false} HarmlessShorter(log: Log, ws: seq<LogWrite>, ov: map<PageId, Image>)
    requires Harmless(log, ws, ov) && ws != []
    ensures var v, w := ws[..|ws| - 1], ws[|ws| - 1];
            Harmless(log, v, ov) && LogIs(RunLog(log, v), ov) && LogIs(TearLog(RunLog(log, v), w), ov)
  {
    hide LogIs, RunLog, TearLog;
    var v := ws[..|ws| - 1];
    forall i | 0 <= i <= |v| ensures v[..i] == ws[..i] {}
  }

  lemma {:induction false} QuietLogSteps(s: Store, ws: seq<LogWrite>, ov: map<PageId, Image>)
    requires QuietLog(s, ov) && Harmless(LogNow(s), ws, ov) && LogIs(RunLog(LogNow(s), ws), ov)
    ensures QuietLog(AfterLog(s, ws), ov)
  {
    if ws == [] {
      assert AfterLog(s, ws) == s;
    } else {
      hide LogIs, RunLog, TearLog, ApplyLog, QuietLog, Harmless, LogNow, AfterLog;
      HarmlessShorter(LogNow(s), ws, ov);
      QuietLogSteps(s, ws[..|ws| - 1], ov);
      AfterLogStep(s, ws);
      QuietLogStep(AfterLog(s, ws[..|ws| - 1]), ws[|ws| - 1], ov);
    }
  }

  /** Rewriting a page the log holds changes nothing a reopening would see,
      whatever the block then holds. */
  lemma CoveredBlock(db: seq<Block>, ov: map<PageId, Image>, c: Contents, id: PageId, b: Block)
    requires Holds(db, ov, c) && id in ov && if id == 0 then b.MetaImage? else b.PageImage? && Named(id, b.page)
    ensures Holds(SetBlock(db, id, b), ov, c)
  {
    var db' := SetBlock(db, id, b);
    forall k | k in c.pages ensures PageIs(db', ov, k, c.pages[k]) {
      assert PageIs(db, ov, k, c.pages[k]);
    }
  }

  lemma GrownFile(db: seq<Block>, ov: map<PageId, Image>, c: Contents)
    requires Holds(db, ov, c) && 0 in ov
    ensures Holds(ApplyDb(db, Grow(c.meta.pageCount)), ov, c)
  {
    var db' := ApplyDb(db, Grow(c.meta.pageCount));
    forall k | k in c.pages ensures PageIs(db', ov, k, c.pages[k]) {
      assert PageIs(db, ov, k, c.pages[k]);
    }
  }

  /** Once every page of the log is in the file, the log is not needed. */
  lemma AllCopied(db: seq<Block>, ov: map<PageId, Image>, c: Contents)
    requires Holds(db, ov, c) && 0 in ov && |db| >= c.meta.pageCount
    requires forall id | id in ov :: db[id] == ov[id]
    ensures Holds(db, map[], c)
  {
    forall k | k in c.pages ensures PageIs(db, map[], k, c.pages[k]) {
      assert PageIs(db, ov, k, c.pages[k]);
    }
  }

  /** What a write to the database file must satisfy to be safe under `ov`. */
  ghost predicate DbWriteCovered(db: seq<Block>, w: DbWrite, ov: map<PageId, Image>, c: Contents) {
    Holds(ApplyDb(db, w), ov, c) && forall any :: Holds(TearDb(db, w, any), ov, c)
  }

  lemma DbCutStep(s: Store, w: DbWrite, i: nat, db: seq<Block>)
    requires i <= |s.dbQueue| + 1 && DbCut(Issue(s, ToDb(w)), i, db)
    ensures (i <= |s.dbQueue| && DbCut(s, i, db)) ||
            db == ApplyDb(DbNow(s), w) || exists any :: db == TearDb(DbNow(s), w, any)
  {
    hide ApplyDb, TearDb;
    var q := s.dbQueue + [w];
    if i <= |s.dbQueue| {
      assert q[..i] == s.dbQueue[..i];
      if i == |s.dbQueue| { assert s.dbQueue[..i] == s.dbQueue; }
    } else {
      assert q[..i] == q;
      RunDbOne(s.dbSafe, s.dbQueue, w);
    }
  }

  lemma QuietDbStep(s: Store, w: DbWrite, ov: map<PageId, Image>, c: Contents)
    requires QuietDb(s, ov, c) && DbWriteCovered(DbNow(s), w, ov, c)
    ensures QuietDb(Issue(s, ToDb(w)), ov, c)
  {
    hide Holds, DbCut, ApplyDb, TearDb, DbNow;
    var t := Issue(s, ToDb(w));
    forall i: nat, db | i <= |t.dbQueue| && DbCut(t, i, db) ensures Holds(db, ov, c) {
      DbCutStep(s, w, i, db);
    }
  }

  /** Nothing is being copied: the log commits `ov`, and the last commit is what
      a reopening yields. */
  ghost predicate Resting(s: Store, h: seq<Contents>, ov: map<PageId, Image>, p: Promise) {
    && |h| > 0 && Holds(DbNow(s), ov, h[|h| - 1]) && LogIs(LogNow(s), ov)
    && (p != Nothing ==> s.dbQueue == [] && PowerSafe(s, h, Floor(p, |h| - 1), |h| - 1))
    && (p.Everything? && ov != map[] ==> QuietLog(s, ov))
  }

  /** A checkpoint is copying pages of the log into the file. */
  ghost predicate Copying(s: Store, h: seq<Contents>, ov: map<PageId, Image>, p: Promise) {
    && |h| > 0 && Holds(DbNow(s), ov, h[|h| - 1]) && LogIs(LogNow(s), ov)
    && (p != Nothing ==> QuietLog(s, ov) && QuietDb(s, ov, h[|h| - 1]))
  }

  lemma RestingIsDurable(s: Store, h: seq<Contents>, ov: map<PageId, Image>)
    requires Resting(s, h, ov, Everything)
    ensures Durable(s, h[|h| - 1])
  {
    hide Holds, Overlay, Tidy, Recovers, LogCut, LogNow;
    var c := h[|h| - 1];
    if ov == map[] {
      forall d | PowerLeaves(s, d) ensures Allowed([c], 0, 0, d) {
        assert Allowed(h, |h| - 1, |h| - 1, d);
        assert Recovers(d, [c][0]);
      }
    } else {
      assert DbNow(s) == s.dbSafe;
      assert QuietDb(s, ov, c);
    }
  }

  lemma CopyingIsDurable(s: Store, h: seq<Contents>, ov: map<PageId, Image>)
    requires Copying(s, h, ov, Everything) && ov != map[]
    ensures Durable(s, h[|h| - 1])
  {
    hide Holds, Overlay, Tidy, LogNow, QuietLog, QuietDb;
  }

  /** One page write of a checkpoint. */
  lemma DbMomentSafe(s: Store, w: DbWrite, ov: map<PageId, Image>, h: seq<Contents>, p: Promise)
    requires Copying(s, h, ov, p) && DbWriteCovered(DbNow(s), w, ov, h[|h| - 1]) && ov != map[]
    ensures MomentSafe(Moment(s, Some(ToDb(w)), |h| - 1, |h| - 1), h, p)
    ensures Copying(Issue(s, ToDb(w)), h, ov, p)
  {
    IssueNow(s, ToDb(w));
    hide Holds, LogIs, LogCut, ApplyDb, TearDb, DbNow, LogNow;
    var m := Moment(s, Some(ToDb(w)), |h| - 1, |h| - 1);
    var c := h[|h| - 1];
    forall d | DeathLeaves(m, d) ensures Allowed(h, m.acked, m.issued, d) {
      RecoversHolds(d.db, d.log, ov, c);
    }
    if p != Nothing {
      QuietDbStep(s, w, ov, c);
      var t := Issue(s, ToDb(w));
      forall j: nat, log | j <= |t.logQueue| && LogCut(t, j, log) ensures LogIs(log, ov) {
        LogCutSame(s, t, j, log);
      }
      QuietIsSafe(t, ov, h, Floor(p, m.acked), m.issued);
      if p.Everything? { CopyingIsDurable(t, h, ov); }
    }
  }

  lemma LogCutSame(s: Store, t: Store, j: nat, log: Log)
    requires s.logSafe == t.logSafe && s.logQueue == t.logQueue && j <= |s.logQueue| && LogCut(t, j, log)
    ensures LogCut(s, j, log)
  {
  }

  /** An idle moment. */
  lemma IdleMomentSafe(s: Store, h: seq<Contents>, p: Promise)
    requires |h| > 0 && Recovers(Files(DbNow(s), LogNow(s)), h[|h| - 1])
    requires p != Nothing ==> PowerSafe(s, h, Floor(p, |h| - 1), |h| - 1)
    requires p.Everything? ==> Durable(s, h[|h| - 1])
    ensures MomentSafe(Moment(s, None, |h| - 1, |h| - 1), h, p)
  {
  }

  // ---- between the operations of the pager ----

  lemma {:induction false} HarmlessPath(db: seq<Block>, log: Log, ws: seq<LogWrite>, ov: map<PageId, Image>,
                     h: seq<Contents>, k: nat, hi: nat)
    requires k <= hi && k < |h| && Harmless(log, ws, ov) && Holds(db, ov, h[k])
    requires Allowed(h, k, hi, Files(db, RunLog(log, ws)))
    ensures LogPath(db, log, ws, h, k, hi)
  {
    hide LogIs, Holds, RunLog, TearLog, Overlay, Tidy, Recovers;
    forall i | 0 <= i <= |ws| ensures Allowed(h, k, hi, Files(db, RunLog(log, ws[..i]))) {
      if i < |ws| { RecoversHolds(db, RunLog(log, ws[..i]), ov, h[k]); }
      else { assert ws[..i] == ws; }
    }
    forall i | 0 <= i < |ws| ensures Allowed(h, k, hi, Files(db, TearLog(RunLog(log, ws[..i]), ws[i]))) {
      RecoversHolds(db, TearLog(RunLog(log, ws[..i]), ws[i]), ov, h[k]);
    }
  }

  /** After each frame of a transaction in progress the files are at rest, and what they
      hold is safe. */
  lemma {:induction false} FramesDurable(s: Store, ws: seq<LogWrite>, h: seq<Contents>, ov: map<PageId, Image>)
    requires |h| > 0 && Resting(s, h, ov, Everything) && Harmless(LogNow(s), ws, ov) && LogIs(RunLog(LogNow(s), ws), ov)
    ensures Resting(AfterLog(s, ws), h, ov, Everything) && DurablePath(s, ws, h[|h| - 1])
  {
    hide *;
    if ws == [] {
      NoFrames(s, h[|h| - 1]);
    } else {
      var v, w, k := ws[..|ws| - 1], ws[|ws| - 1], |h| - 1;
      HarmlessShorter(LogNow(s), ws, ov);
      FramesDurable(s, v, h, ov);
      AfterLogStep(s, ws);
      var t := AfterLog(s, v);
      FrameDurable(t, w, h, ov);
      DurablePathLonger(s, ws, h[k]);
    }
  }

  lemma NoFrames(s: Store, c: Contents)
    ensures AfterLog(s, []) == s && DurablePath(s, [], c)
  {
    hide Durable;
  }

  lemma DurablePathLonger(s: Store, ws: seq<LogWrite>, c: Contents)
    requires ws != [] && DurablePath(s, ws[..|ws| - 1], c) && Durable(AfterLog(s, ws), c)
    ensures DurablePath(s, ws, c)
  {
    hide Durable, AfterLog;
    var v := ws[..|ws| - 1];
    forall i | 1 <= i <= |ws| ensures Durable(AfterLog(s, ws[..i]), c) {
      if i == |ws| { assert ws[..i] == ws; } else { assert v[..i] == ws[..i]; }
    }
  }

  lemma FrameDurable(t: Store, w: LogWrite, h: seq<Contents>, ov: map<PageId, Image>)
    requires Resting(t, h, ov, Everything) && LogIs(ApplyLog(LogNow(t), w), ov) && LogIs(TearLog(LogNow(t), w), ov)
    ensures Resting(Issue(t, ToLog(w)), h, ov, Everything) && Durable(Issue(t, ToLog(w)), h[|h| - 1])
  {
    hide LogIs, Holds, TearLog, ApplyLog, QuietLog, PowerSafe, LogNow, Recovers, Overlay, Tidy, Durable;
    var k := |h| - 1;
    RecoversHolds(t.dbSafe, ApplyLog(LogNow(t), w), ov, h[k]);
    RecoversHolds(t.dbSafe, TearLog(LogNow(t), w), ov, h[k]);
    PowerAfterLog(t, w, h, k, k);
    IssueNow(t, ToLog(w));
    if ov != map[] { QuietLogStep(t, w, ov); }
    RestingIsDurable(Issue(t, ToLog(w)), h, ov);
  }

  /** Frames of a transaction in progress are written. */
  lemma {:induction false} FramesSafe(s: Store, ws: seq<LogWrite>, h: seq<Contents>, ov: map<PageId, Image>, p: Promise)
    requires Resting(s, h, ov, p) && Harmless(LogNow(s), ws, ov) && LogIs(RunLog(LogNow(s), ws), ov)
    ensures Resting(AfterLog(s, ws), h, ov, p)
    ensures TraceSafe(LogMoments(s, ws, |h| - 1, |h| - 1), h, p)
  {
    hide LogIs, Holds, RunLog, Harmless, QuietLog, Overlay, Tidy, PowerSafe, Recovers;
    var k := |h| - 1;
    RecoversHolds(DbNow(s), RunLog(LogNow(s), ws), ov, h[k]);
    HarmlessPath(DbNow(s), LogNow(s), ws, ov, h, k, k);
    if p.Everything? { FramesDurable(s, ws, h, ov); }
    LogMomentsSafe(s, ws, h, k, k, p);
    RunLogAppend(s.logSafe, s.logQueue, ws);
    if p.Everything? && ov != map[] { QuietLogSteps(s, ws, ov); }
  }

  function Synced(s: Store): Store { s.(logSafe := LogNow(s), logQueue := []) }

  /** A transaction is committed, and the log synced if that is to promise it. */
  lemma {:induction false} CommitSafe(s: Store, ws: seq<LogWrite>, h: seq<Contents>, ov: map<PageId, Image>, p: Promise,
                   ov': map<PageId, Image>, c: Contents, sync: bool)
    requires Resting(s, h, ov, p) && Harmless(LogNow(s), ws, ov)
    requires LogIs(RunLog(LogNow(s), ws), ov') && Holds(DbNow(s), ov', c)
    requires p.Everything? ==> sync
    ensures TraceSafe(LogMoments(s, ws, |h| - 1, |h|), h + [c], p)
    ensures Resting(if sync then Synced(AfterLog(s, ws)) else AfterLog(s, ws), h + [c], ov', p)
  {
    hide LogIs, Holds, RunLog, RunDb, Harmless, QuietLog, Overlay, Tidy, PowerSafe, Recovers, LogPath, TraceSafe, LogMoments, Allowed;
    var k, h' := |h| - 1, h + [c];
    var t := AfterLog(s, ws);
    assert h'[k + 1] == c && h'[k] == h[k];
    RunLogAppend(s.logSafe, s.logQueue, ws);
    CommitPath(DbNow(s), LogNow(s), ws, ov, ov', h', k);
    if p != Nothing { PowerSafeGrows(s, h, c, Floor(p, k), k); PowerSafeWider(s, h', Floor(p, k), k, k + 1); }
    LogMomentsSafe(s, ws, h', k, k + 1, p);
    if sync {
      SyncedStore(t, ov', h', p);
    }
  }

  lemma {:induction false} CommitPath(db: seq<Block>, log: Log, ws: seq<LogWrite>, ov: map<PageId, Image>, ov': map<PageId, Image>,
                   h: seq<Contents>, k: nat)
    requires k + 1 < |h| && Harmless(log, ws, ov) && Holds(db, ov, h[k])
    requires LogIs(RunLog(log, ws), ov') && Holds(db, ov', h[k + 1])
    ensures LogPath(db, log, ws, h, k, k + 1)
  {
    hide LogIs, Holds, RunLog, Harmless, Overlay, Tidy, Recovers, LogPath;
    RecoversHolds(db, RunLog(log, ws), ov', h[k + 1]);
    HarmlessPath(db, log, ws, ov, h, k, k + 1);
  }

  lemma PowerSafeWider(s: Store, h: seq<Contents>, lo: nat, hi: nat, hi': nat)
    requires PowerSafe(s, h, lo, hi) && hi <= hi'
    ensures PowerSafe(s, h, lo, hi')
  {
    hide PowerLeaves, Recovers;
    forall d | PowerLeaves(s, d) ensures Allowed(h, lo, hi', d) { assert Allowed(h, lo, hi, d); }
  }

  /** With both files synced, a power cut leaves exactly what they hold. */
  lemma SyncedStore(t: Store, ov: map<PageId, Image>, h: seq<Contents>, p: Promise)
    requires |h| > 0 && LogIs(LogNow(t), ov) && Holds(DbNow(t), ov, h[|h| - 1])
    requires p != Nothing ==> t.dbQueue == []
    ensures Resting(Synced(t), h, ov, p)
  {
    hide LogIs, Holds, Overlay, Tidy, Recovers;
    var s := Synced(t);
    assert LogNow(s) == LogNow(t) && DbNow(s) == DbNow(t);
    SyncedLogIsQuiet(s, ov);
    if p != Nothing {
      assert DbNow(s) == s.dbSafe;
      assert QuietDb(s, ov, h[|h| - 1]);
      QuietIsSafe(s, ov, h, Floor(p, |h| - 1), |h| - 1);
    }
  }

  /** The log is reset, or cut, once every page of it is in the synced file. */
  lemma ResetSafe(s: Store, w: LogWrite, h: seq<Contents>, p: Promise, ov: map<PageId, Image>)
    requires |h| > 0 && Recovers(Files(DbNow(s), LogNow(s)), h[|h| - 1])
    requires Holds(DbNow(s), map[], h[|h| - 1]) && LogIs(ApplyLog(LogNow(s), w), map[])
    requires TearLog(LogNow(s), w) == LogNow(s) || LogIs(TearLog(LogNow(s), w), map[])
    requires p != Nothing ==> s.dbQueue == [] && PowerSafe(s, h, Floor(p, |h| - 1), |h| - 1)
    ensures MomentSafe(Moment(s, Some(ToLog(w)), |h| - 1, |h| - 1), h, p)
    ensures Resting(Issue(s, ToLog(w)), h, map[], p)
  {
    hide LogIs, Holds, ApplyLog, TearLog, Overlay, Tidy, PowerSafe, Recovers, QuietLog;
    var k := |h| - 1;
    RecoversHolds(DbNow(s), ApplyLog(LogNow(s), w), map[], h[k]);
    if TearLog(LogNow(s), w) != LogNow(s) { RecoversHolds(DbNow(s), TearLog(LogNow(s), w), map[], h[k]); }
    IssueNow(s, ToLog(w));
    if p.Everything? {
      PowerAfterLog(s, w, h, k, k);
      RestingIsDurable(Issue(s, ToLog(w)), h, map[]);
    }
    LogMomentSafe(s, w, h, k, k, p);
  }

  /** The database file is synced after the copying. */
  lemma CopiedSafe(s: Store, h: seq<Contents>, ov: map<PageId, Image>, p: Promise)
    requires Copying(s, h, ov, p)
    ensures var t := s.(dbSafe := DbNow(s), dbQueue := []);
            DbNow(t) == DbNow(s) && LogNow(t) == LogNow(s) &&
            (p != Nothing ==> PowerSafe(t, h, Floor(p, |h| - 1), |h| - 1))
    ensures Recovers(Files(DbNow(s), LogNow(s)), h[|h| - 1])
  {
    hide LogIs, Holds, Overlay, Tidy, Recovers, LogCut;
    RecoversHolds(DbNow(s), LogNow(s), ov, h[|h| - 1]);
    if p != Nothing {
      var t := s.(dbSafe := DbNow(s), dbQueue := []);
      forall j: nat, log | j <= |t.logQueue| && LogCut(t, j, log) ensures LogIs(log, ov) { LogCutSame(s, t, j, log); }
      assert QuietDb(t, ov, h[|h| - 1]);
      QuietIsSafe(t, ov, h, Floor(p, |h| - 1), |h| - 1);
    }
  }

  lemma RestingCopies(s: Store, h: seq<Contents>, ov: map<PageId, Image>, p: Promise)
    requires Resting(s, h, ov, p) && (p != Nothing ==> QuietLog(s, ov))
    ensures Copying(s, h, ov, p)
  {
    hide LogIs, Holds, QuietLog;
  }

  lemma CoveredWrite(db: seq<Block>, id: PageId, ov: map<PageId, Image>, c: Contents)
    requires Holds(db, ov, c) && id in ov && (ov[id].MetaImage? <==> id == 0)
    ensures DbWriteCovered(db, PutBlock(id, ov[id]), ov, c)
  {
    CoveringImage(db, ov, c, id);
    hide Holds;
    CoveredBlock(db, ov, c, id, ov[id]);
    forall any ensures Holds(TearDb(db, PutBlock(id, ov[id]), any), ov, c) {
      CoveredBlock(db, ov, c, id, Mixture(id, ov[id], any));
    }
  }

  lemma CoveringImage(db: seq<Block>, ov: map<PageId, Image>, c: Contents, id: PageId)
    requires Holds(db, ov, c) && id in ov && (ov[id].MetaImage? <==> id == 0)
    ensures id != 0 ==> Named(id, ov[id].page)
  {
    if id != 0 { assert PageIs(db, ov, id, c.pages[id]); }
  }

  lemma CoveredGrow(db: seq<Block>, ov: map<PageId, Image>, c: Contents)
    requires Holds(db, ov, c) && 0 in ov
    ensures DbWriteCovered(db, Grow(c.meta.pageCount), ov, c)
  {
    GrownFile(db, ov, c);
  }

  /** Files with nothing unsynced are durable. */
  lemma SyncedIsDurable(db: seq<Block>, log: Log, c: Contents)
    requires Recovers(Files(db, log), c)
    ensures Durable(Store(db, [], log, []), c)
  {
    hide Holds, Overlay, Tidy, Durable;
    var s := Store(db, [], log, []);
    assert Synced(s) == s && DbNow(s) == db && LogNow(s) == log;
    SyncedStore(s, Overlay(log), [c], Everything);
    RestingIsDurable(s, [c], Overlay(log));
  }

  lemma ColdIsDurable(s: Store, c: Contents)
    requires s.dbQueue == [] && s.logQueue == [] && Recovers(Files(DbNow(s), LogNow(s)), c)
    ensures Durable(s, c)
  {
    SyncedIsDurable(s.dbSafe, s.logSafe, c);
  }

  // ---- a whole record ----

  /** The same files, either perhaps synced. */
  ghost predicate SyncedTo(a: Store, b: Store) {
    && ((b.dbSafe == a.dbSafe && b.dbQueue == a.dbQueue) || (b.dbSafe == DbNow(a) && b.dbQueue == []))
    && ((b.logSafe == a.logSafe && b.logQueue == a.logQueue) || (b.logSafe == LogNow(a) && b.logQueue == []))
  }

  /** Nothing is missing from a trace: from each moment to the next, and from the last to the
      files `s`, there is its one write, or none, and perhaps a sync. What was acknowledged
      stays so, and at the end that is commit `k`. */
  ghost predicate Recorded(trace: seq<Moment>, s: Store, k: int) {
    && trace != [] && trace[|trace| - 1].acked == k && SyncedTo(Issued(trace[|trace| - 1]), s)
    && forall i | 0 <= i < |trace| - 1 :: Follows(trace[i], trace[i + 1])
  }

  ghost predicate Follows(m: Moment, n: Moment) { SyncedTo(Issued(m), n.store) && m.acked <= n.acked }

  lemma RecordedFirst(s: Store, k: nat)
    ensures Recorded([Moment(s, None, k, k)], s, k)
  {
  }

  lemma RecordedSync(trace: seq<Moment>, s: Store, t: Store, k: int)
    requires Recorded(trace, s, k) && SyncedTo(s, t)
    ensures Recorded(trace, t, k)
  {
    var a := Issued(trace[|trace| - 1]);
    assert s.dbQueue == [] ==> DbNow(s) == s.dbSafe;
    assert s.logQueue == [] ==> LogNow(s) == s.logSafe;
  }

  lemma RecordedMore(trace: seq<Moment>, s: Store, k: int, m: Moment)
    requires Recorded(trace, s, k) && m.store == s && k <= m.acked
    ensures Recorded(trace + [m], Issued(m), m.acked)
  {
    hide SyncedTo;
    var more := trace + [m];
    forall i | 0 <= i < |more| - 1 ensures Follows(more[i], more[i + 1]) {}
    Unsynced(Issued(m));
  }

  lemma SyncedLater(s: Store, t: Store)
    requires t == s || t == Synced(s)
    ensures SyncedTo(s, t)
  {
  }

  /** The writes of a commit, perhaps a sync, and the acknowledgement. */
  lemma {:induction false} RecordedCommit(trace: seq<Moment>, s: Store, ws: seq<LogWrite>, k: nat, m: Moment)
    requires Recorded(trace, s, k) && m.write == None && m.acked == k + 1
    requires m.store == AfterLog(s, ws) || m.store == Synced(AfterLog(s, ws))
    ensures Recorded(trace + LogMoments(s, ws, k, k + 1) + [m], m.store, k + 1)
  {
    RecordedLog(trace, s, ws, k, k + 1);
    SyncedLater(AfterLog(s, ws), m.store);
    hide Recorded, SyncedTo, AfterLog, LogMoments;
    RecordedSync(trace + LogMoments(s, ws, k, k + 1), AfterLog(s, ws), m.store, k);
    RecordedMore(trace + LogMoments(s, ws, k, k + 1), m.store, k, m);
  }

  lemma Unsynced(s: Store) ensures SyncedTo(s, s) {}

  lemma {:induction false} RecordedLog(trace: seq<Moment>, s: Store, ws: seq<LogWrite>, k: nat, issued: nat)
    requires Recorded(trace, s, k)
    ensures Recorded(trace + LogMoments(s, ws, k, issued), AfterLog(s, ws), k)
  {
    hide Recorded;
    if ws == [] {
      assert trace + [] == trace && AfterLog(s, ws) == s;
    } else {
      var v, w := ws[..|ws| - 1], ws[|ws| - 1];
      RecordedLog(trace, s, v, k, issued);
      var m := Moment(AfterLog(s, v), Some(ToLog(w)), k, issued);
      RecordedMore(trace + LogMoments(s, v, k, issued), AfterLog(s, v), k, m);
      AfterLogStep(s, ws);
      assert trace + LogMoments(s, v, k, issued) + [m] == trace + LogMoments(s, ws, k, issued);
    }
  }

  /** Every unsynced write of either file is the write of some moment, or was there before the
      first. */
  lemma {:induction false} WritesRecorded(trace: seq<Moment>, s: Store, k: int)
    requires Recorded(trace, s, k)
    ensures forall w | w in s.logQueue :: w in trace[0].store.logQueue || Wrote(trace, ToLog(w))
    ensures forall w | w in s.dbQueue :: w in trace[0].store.dbQueue || Wrote(trace, ToDb(w))
    decreases |trace|
  {
    var n := |trace| - 1;
    var m := trace[n];
    if n > 0 {
      var before := trace[..n];
      assert Follows(trace[n - 1], m);
      assert forall i | 0 <= i < n - 1 :: Follows(trace[i], trace[i + 1]);
      WritesRecorded(before, m.store, before[n - 1].acked);
      forall w | Wrote(before, w) ensures Wrote(trace, w) { var p :| p in before && p.write == Some(w); assert p in trace; }
    }
    assert m in trace;
  }

  ghost predicate Wrote(trace: seq<Moment>, w: IoWrite) { exists m :: m in trace && m.write == Some(w) }
}
