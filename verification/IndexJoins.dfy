/** The index nested-loop join: each row of the outer input searches the inner table's
    index, a row at a time or a batch at a time (src/operator.cpp:752-886). */
module IndexJoins {
  import opened Wrappers
  import opened Sequences
  import opened Rows
  import opened Batches
  import opened IndexKeys
  import opened PlanTree
  import opened Cursors

  /** An index's entries: their rows' values in its column, none of them NULL, by key. */
  ghost predicate KeyedBy(entries: seq<Entry>, record: Rid -> Row, col: nat) {
    forall i | 0 <= i < |entries| :: Keyed(entries[i], record, col)
  }

  predicate Keyed(e: Entry, record: Rid -> Row, col: nat) {
    !At(record(e.rid), col).isNull && e.key == IndexKey(At(record(e.rid), col))
  }

  /** A search meets the rows with its key only. */
  lemma {:induction false} SearchBetween(p: Probe, outer: Row, entries: seq<Entry>, record: Rid -> Row)
    requires KeyedBy(entries, record, p.innerCol) && !At(outer, p.outerCol).isNull
    ensures var k := IndexKey(At(outer, p.outerCol));
            Search(p, outer, Records(entries, record)) == Search(p, outer, Records(Between(entries, k, k), record))
  {
    hide IndexKey, Records;
    NoneRecorded(record);
    if entries != [] {
      var k, e, rest := IndexKey(At(outer, p.outerCol)), entries[0], entries[1..];
      assert forall i | 0 <= i < |rest| :: rest[i] == entries[i + 1];
      SearchBetween(p, outer, rest, record);
      assert entries == [e] + rest;
      RecordsFirst(e, rest, record);
      RecordsFirst(e, Between(rest, k, k), record);
      SearchFirst(p, outer, record(e.rid), Records(rest, record));
      SearchFirst(p, outer, record(e.rid), Records(Between(rest, k, k), record));
      assert [] + Between(rest, k, k) == Between(rest, k, k);
      if e.key != k { NotFound(p, outer, e, record); }
    }
  }

  lemma NoneRecorded(record: Rid -> Row) ensures Records([], record) == [] {}

  lemma NotFound(p: Probe, outer: Row, e: Entry, record: Rid -> Row)
    requires Keyed(e, record, p.innerCol) && !At(outer, p.outerCol).isNull && e.key != IndexKey(At(outer, p.outerCol))
    ensures Hit(p, outer, record(e.rid)) == []
  {
    hide IndexKey;
  }

  lemma {:induction false} SearchFirst(p: Probe, outer: Row, row: Row, rest: seq<Row>)
    ensures Search(p, outer, [row] + rest) == Hit(p, outer, row) + Search(p, outer, rest)
  {
    assert ([row] + rest)[1..] == rest;
  }

  lemma {:induction false} NullFinds(p: Probe, outer: Row, rows: seq<Row>)
    requires At(outer, p.outerCol).isNull
    ensures Search(p, outer, rows) == []
  {
    if rows != [] { NullFinds(p, outer, rows[1..]); }
  }

  lemma {:induction false} SearchAllFirst(p: Probe, outer: Row, rest: seq<Row>, rows: seq<Row>)
    ensures SearchAll(p, [outer] + rest, rows) == Search(p, outer, rows) + SearchAll(p, rest, rows)
  {
    assert ([outer] + rest)[1..] == rest;
  }

  lemma {:induction false} SearchAllConcat(p: Probe, a: seq<Row>, b: seq<Row>, rows: seq<Row>)
    ensures SearchAll(p, a + b, rows) == SearchAll(p, a, rows) + SearchAll(p, b, rows)
  {
    if a == [] {
      assert a + b == b;
    } else {
      SearchAllConcat(p, a[1..], b, rows);
      assert (a + b)[1..] == a[1..] + b;
      Assoc(Search(p, a[0], rows), SearchAll(p, a[1..], rows), SearchAll(p, b, rows));
    }
  }

  lemma {:induction false} SearchConcat(p: Probe, outer: Row, a: seq<Row>, b: seq<Row>)
    ensures Search(p, outer, a + b) == Search(p, outer, a) + Search(p, outer, b)
  {
    if a == [] {
      assert a + b == b;
    } else {
      SearchConcat(p, outer, a[1..], b);
      assert (a + b)[1..] == a[1..] + b;
      Assoc(Hit(p, outer, a[0]), Search(p, outer, a[1..]), Search(p, outer, b));
    }
  }

  // ---- matches, checked together ----

  /** An outer row and a row its search met. */
  type Match = (Row, Row)

  function Hits(p: Probe, ms: seq<Match>): seq<Row> { if ms == [] then [] else Hit(p, ms[0].0, ms[0].1) + Hits(p, ms[1..]) }

  lemma {:induction false} HitsConcat(p: Probe, a: seq<Match>, b: seq<Match>)
    ensures Hits(p, a + b) == Hits(p, a) + Hits(p, b)
  {
    if a == [] {
      assert a + b == b;
    } else {
      HitsConcat(p, a[1..], b);
      assert (a + b)[1..] == a[1..] + b;
      Assoc(Hit(p, a[0].0, a[0].1), Hits(p, a[1..]), Hits(p, b));
    }
  }

  function Paired(outer: Row, inners: seq<Row>): (ms: seq<Match>)
    ensures |ms| == |inners|
  {
    seq(|inners|, i requires 0 <= i < |inners| => (outer, inners[i]))
  }

  lemma {:induction false} HitsPaired(p: Probe, outer: Row, inners: seq<Row>)
    ensures Hits(p, Paired(outer, inners)) == Search(p, outer, inners)
  {
    if inners != [] {
      HitsPaired(p, outer, inners[1..]);
      assert Paired(outer, inners)[1..] == Paired(outer, inners[1..]);
    }
  }

  /** The matches that pass a test, in order. */
  function Only(f: Match -> bool, ms: seq<Match>): seq<Match> {
    if ms == [] then [] else Only(f, ms[..|ms| - 1]) + if f(ms[|ms| - 1]) then [ms[|ms| - 1]] else []
  }

  method KeepMatches(f: Match -> bool, ms: seq<Match>) returns (kept: seq<Match>)
    ensures kept == Only(f, ms)
  {
    kept := [];
    for k := 0 to |ms|
      invariant kept == Only(f, ms[..k])
    {
      assert ms[..k + 1][..k] == ms[..k];
      if f(ms[k]) { kept := kept + [ms[k]]; } else { assert kept + [] == kept; }
    }
    assert ms[..|ms|] == ms;
  }

  /** The joined rows of the matches, before the last terms. */
  function JoinedRows(p: Probe, ms: seq<Match>): (rows: seq<Row>)
    ensures |rows| == |ms|
  {
    seq(|ms|, i requires 0 <= i < |ms| => if p.innerFirst then ms[i].1 + ms[i].0 else ms[i].0 + ms[i].1)
  }

  predicate SameTextKey(p: Probe, m: Match) { p.isText ==> At(m.1, p.innerCol).text == At(m.0, p.outerCol).text }

  /** What the search has checked. */
  predicate Met(p: Probe, m: Match) {
    var k := At(m.0, p.outerCol);
    !k.isNull && Indexed(m.1, p.innerCol, IndexKey(k), IndexKey(k))
  }

  ghost predicate AllMet(p: Probe, ms: seq<Match>) { forall i | 0 <= i < |ms| :: Met(p, ms[i]) }

  lemma AllMetMore(p: Probe, a: seq<Match>, b: seq<Match>)
    ensures AllMet(p, []) && (AllMet(p, a) && AllMet(p, b) ==> AllMet(p, a + b))
  {
    hide Met;
  }

  predicate Checked(p: Probe, m: Match, n: nat) requires n <= |p.innerFilter| { SameTextKey(p, m) && Passes(p.innerFilter[..n], m.1) }

  lemma {:induction false} OnlyBoth(f: Match -> bool, g: Match -> bool, h: Match -> bool, ms: seq<Match>)
    requires forall m :: h(m) <==> f(m) && g(m)
    ensures Only(g, Only(f, ms)) == Only(h, ms)
  {
    if ms != [] {
      var n, some := |ms| - 1, Only(f, ms[..|ms| - 1]);
      OnlyBoth(f, g, h, ms[..n]);
      if f(ms[n]) { assert (some + [ms[n]])[..|some|] == some; } else { assert some + [] == some; assert Only(g, some) + [] == Only(g, some); }
    }
  }

  lemma {:induction false} OnlyAll(f: Match -> bool, ms: seq<Match>)
    requires forall m :: f(m)
    ensures Only(f, ms) == ms
  {
    if ms != [] {
      OnlyAll(f, ms[..|ms| - 1]);
      assert ms == ms[..|ms| - 1] + [ms[|ms| - 1]];
    }
  }

  /** Text, then the inner table's terms, then the rest: what a match gives. */
  lemma {:induction false} HitsAre(p: Probe, ms: seq<Match>)
    requires AllMet(p, ms)
    ensures Hits(p, ms) == Kept(p.residual, JoinedRows(p, Only(m => Checked(p, m, |p.innerFilter|), ms)))
  {
    hide Passes, Met;
    NothingKept(p.residual);
    var f: Match -> bool := m => Checked(p, m, |p.innerFilter|);
    if ms == [] {
      assert JoinedRows(p, []) == [];
    } else {
      var n, m := |ms| - 1, ms[|ms| - 1];
      HitsAre(p, ms[..n]);
      assert ms == ms[..n] + [m];
      HitsConcat(p, ms[..n], [m]);
      var some := Only(f, ms[..n]);
      HitIs(p, m);
      assert Hits(p, [m]) == Hit(p, m.0, m.1) + [] == Hit(p, m.0, m.1);
      if f(m) {
        assert JoinedRows(p, some + [m]) == JoinedRows(p, some) + JoinedRows(p, [m]);
        KeptConcat(p.residual, JoinedRows(p, some), JoinedRows(p, [m]));
      } else {
        assert some + [] == some;
      }
    }
  }

  lemma HitIs(p: Probe, m: Match)
    requires Met(p, m)
    ensures Hit(p, m.0, m.1) == if Checked(p, m, |p.innerFilter|) then Kept(p.residual, JoinedRows(p, [m])) else []
  {
    assert p.innerFilter[..|p.innerFilter|] == p.innerFilter;
    var row := if p.innerFirst then m.1 + m.0 else m.0 + m.1;
    assert JoinedRows(p, [m]) == [row];
    KeptOne(p.residual, row);
    hide Passes, IndexKey;
  }

  lemma PassesMore(terms: seq<Comparison>, k: nat, row: Row)
    requires k < |terms|
    ensures Passes(terms[..k + 1], row) <==> Passes(terms[..k], row) && Eval(terms[k], row)
  {
    hide Eval;
    assert forall i | 0 <= i < k :: terms[..k + 1][i] == terms[..k][i];
    assert terms[..k + 1][k] == terms[k];
    if Passes(terms[..k + 1], row) { forall i | 0 <= i < k ensures Eval(terms[..k][i], row) { assert Eval(terms[..k + 1][i], row); } }
  }

  /** A batch of matches checked term by term, each term over all that are left. */
  method CheckMatches(p: Probe, ms: seq<Match>) returns (rows: seq<Row>)
    requires AllMet(p, ms)
    ensures rows == Hits(p, ms)
  {
    hide Hits, Met, Passes, Eval, Only, Kept, JoinedRows;
    HitsAre(p, ms);
    var kept := ms;
    ghost var all: Match -> bool := m => true;
    OnlyAll(all, ms);
    var g: Match -> bool := m => SameTextKey(p, m);
    if p.isText { kept := KeepMatches(g, kept); } else { OnlyAll(g, ms); }
    NoFilter(p, ms);
    for k := 0 to |p.innerFilter|
      invariant kept == Only(m => Checked(p, m, k), ms)
    {
      var c := p.innerFilter[k];
      forall m ensures Checked(p, m, k + 1) <==> Checked(p, m, k) && Eval(c, m.1) { PassesMore(p.innerFilter, k, m.1); }
      OnlyBoth(m => Checked(p, m, k), (m: Match) => Eval(c, m.1), m => Checked(p, m, k + 1), ms);
      kept := KeepMatches((m: Match) => Eval(c, m.1), kept);
    }
    rows := Select(p.residual, JoinedRows(p, kept));
  }

  lemma NoFilter(p: Probe, ms: seq<Match>)
    ensures Only(m => SameTextKey(p, m), ms) == Only(m => Checked(p, m, 0), ms)
  {
    assert p.innerFilter[..0] == [];
    OnlySame(m => SameTextKey(p, m), m => Checked(p, m, 0), ms);
  }

  lemma {:induction false} OnlySame(f: Match -> bool, g: Match -> bool, ms: seq<Match>)
    requires forall m :: f(m) <==> g(m)
    ensures Only(f, ms) == Only(g, ms)
  {
    if ms != [] { OnlySame(f, g, ms[..|ms| - 1]); }
  }

  method Select(terms: seq<Comparison>, rows: seq<Row>) returns (kept: seq<Row>)
    ensures kept == Kept(terms, rows)
  {
    hide Kept, Eval;
    kept := rows;
    KeptAll(rows);
    assert terms[..0] == [];
    for k := 0 to |terms|
      invariant kept == Kept(terms[..k], rows)
    {
      KeptMore(terms[..k], terms[k], rows);
      assert terms[..k + 1] == terms[..k] + [terms[k]];
      var b := new Batch(kept);
      b.Select(terms[k]);
      kept := LiveRows(b);
    }
    assert terms[..|terms|] == terms;
  }

  method LiveRows(b: Batch) returns (rows: seq<Row>)
    requires b.Valid()
    ensures rows == b.Live()
  {
    if !b.selected { return b.rows; }
    rows := [];
    for k := 0 to b.live
      invariant rows == RowsAt(b.rows, b.sel[..k])
    {
      assert b.sel[..k + 1] == b.sel[..k] + [b.sel[k]];
      rows := rows + [b.rows[b.sel[k]]];
    }
  }

  // ---- the join ----

  class IndexNestedLoopJoin {
    const outer: Input
    const cur: IndexCursor
    const p: Probe
    var outerRow: Row
    var haveOuter: bool
    var batch: seq<Row>
    var ok: nat

    /** The inner table's rows, as its index has them. */
    ghost function Inner(): seq<Row> { Records(cur.entries, cur.record) }

    ghost predicate Wired() reads this, outer, cur { outer.Valid() && cur.Valid() && KeyedBy(cur.entries, cur.record, p.innerCol) }

    /** The cursor is on the entries with the outer row's key. */
    ghost predicate Seeking(row: Row) reads cur {
      !At(row, p.outerCol).isNull && forall i | 0 <= i < |cur.Stream()| :: Met(p, (row, cur.Stream()[i]))
    }

    constructor (outer: Input, cur: IndexCursor, p: Probe)
      requires outer.Valid() && cur.Valid() && KeyedBy(cur.entries, cur.record, p.innerCol)
      ensures this.outer == outer && this.cur == cur && this.p == p && ValidRows() && ValidBatches()
      ensures Stream() == BatchStream() == SearchAll(p, outer.Rest(), Inner())
    {
      this.outer, this.cur, this.p := outer, cur, p;
      outerRow, haveOuter, batch, ok := [], false, [], 0;
      new;
      assert [] + SearchAll(p, outer.Rest(), Inner()) == SearchAll(p, outer.Rest(), Inner());
    }

    /** One search: the rows of the index with this key, and nothing for NULL. */
    method SeekKey(row: Row)
      requires Wired() && !At(row, p.outerCol).isNull
      modifies cur
      ensures Wired() && Seeking(row) && Search(p, row, cur.Stream()) == Search(p, row, Inner())
    {
      hide IndexKey;
      var key := IndexKey(At(row, p.outerCol));
      SearchBetween(p, row, cur.entries, cur.record);
      BetweenMet(p, row, cur.entries, cur.record);
      cur.Seek(key, key);
    }

    // ---- row by row ----

    ghost predicate ValidRows() reads this, outer, cur { Wired() && (haveOuter ==> Seeking(outerRow)) }

    /** What it has still to yield. */
    ghost function Stream(): seq<Row> reads this, outer, cur {
      (if haveOuter then Search(p, outerRow, cur.Stream()) else []) + SearchAll(p, outer.Rest(), Inner())
    }

    method Produce() returns (r: Option<Row>)
      requires ValidRows()
      modifies this`outerRow, this`haveOuter, outer, cur
      ensures ValidRows()
      ensures if old(Stream()) == [] then r == None && Stream() == [] else r == Some(old(Stream())[0]) && Stream() == old(Stream())[1..]
    {
      hide Search, SearchAll, Found, Met, KeyedBy, Records, IndexCursor.Stream, IndexCursor.Valid, InOrder, Hit, Input.Valid, Input.Rest;
      while true
        invariant ValidRows() && Stream() == old(Stream())
        decreases |outer.Rest()|, haveOuter, |cur.Stream()|
      {
        if !haveOuter {
          var more := Begin();
          if !more { return None; }
          if !haveOuter { continue; }
        }
        ghost var ahead := cur.Stream();
        var inner := cur.Next();
        if inner.None? {
          NoMore(p, outerRow, SearchAll(p, outer.Rest(), Inner()));
          haveOuter := false;
          continue;
        }
        HeadOf(ahead, inner.value, cur.Stream());
        NextInner(p, outerRow, inner.value, cur.Stream(), SearchAll(p, outer.Rest(), Inner()));
        var hit := Meet(outerRow, inner.value);
        if hit.Some? {
          Yielded(hit.value, Stream());
          return hit;
        }
      }
    }

    /** The next outer row, and the search for its key if it has one. */
    method Begin() returns (more: bool)
      requires ValidRows() && !haveOuter
      modifies this`outerRow, this`haveOuter, outer, cur
      ensures ValidRows() && Stream() == old(Stream())
      ensures !more ==> !haveOuter && Stream() == []
      ensures more ==> |outer.Rest()| < old(|outer.Rest()|)
    {
      hide Search, SearchAll, Found, Met, KeyedBy, Records;
      var next := outer.Next();
      if next.None? { NoneLeft(p, Inner()); return false; }
      outerRow := next.value;
      HeadOf(old(outer.Rest()), outerRow, outer.Rest());
      NextOuter(p, outerRow, outer.Rest(), Inner());
      more := true;
      if At(outerRow, p.outerCol).isNull { NullFinds(p, outerRow, Inner()); return; }
      SeekKey(outerRow);
      haveOuter := true;
    }

    /** The row a match gives, if it passes every check. */
    method Meet(row: Row, inner: Row) returns (r: Option<Row>)
      requires Met(p, (row, inner))
      ensures Hit(p, row, inner) == if r.Some? then [r.value] else []
    {
      hide IndexKey, Passes;
      if p.isText && At(inner, p.innerCol).text != At(row, p.outerCol).text { return None; }
      var pass := Test(p.innerFilter, inner);
      if !pass { return None; }
      var out := if p.innerFirst then inner + row else row + inner;
      pass := Test(p.residual, out);
      if pass { return Some(out); }
      return None;
    }

    // ---- batch by batch ----

    ghost predicate ValidBatches() reads this, outer, cur {
      Wired() && ok <= |batch| && (haveOuter ==> ok < |batch| && Seeking(batch[ok]))
    }

    /** What the batch at hand has still to give. */
    ghost function OfBatch(): seq<Row> reads this, cur {
      if ok > |batch| then []
      else if haveOuter && ok < |batch| then Search(p, batch[ok], cur.Stream()) + SearchAll(p, batch[ok + 1..], Inner())
      else SearchAll(p, batch[ok..], Inner())
    }

    /** How much of a search is left to walk. */
    ghost function Walk(): nat reads this, cur { if haveOuter then |cur.Stream()| else |cur.entries| }

    ghost function BatchStream(): seq<Row> reads this, outer, cur { OfBatch() + SearchAll(p, outer.Rest(), Inner()) }

    /** Matches of one outer row after another, until there are enough of them or the outer
        batch ends. A search half walked goes on in the next call. */
    method Collect(want: nat) returns (ms: seq<Match>)
      requires ValidBatches() && want > 0
      modifies this`ok, this`haveOuter, cur
      ensures ValidBatches() && old(OfBatch()) == Hits(p, ms) + OfBatch() && |ms| <= want
      ensures AllMet(p, ms)
      ensures ms == [] ==> ok == |batch|
      ensures ok >= old(ok) && (ms != [] && ok == old(ok) ==> Walk() < old(Walk()))
    {
      assert ok <= |batch|;
      hide *;
      ms := [];
      AllMetMore(p, [], []);
      NoHits(p, OfBatch());
      while ok < |batch| && |ms| < want
        invariant ValidBatches() && |ms| <= want && ok >= old(ok) && ok <= |batch|
        invariant old(OfBatch()) == Hits(p, ms) + OfBatch() && AllMet(p, ms)
        invariant ok == old(ok) ==> Walk() + |ms| <= old(Walk())
        decreases |batch| - ok, want - |ms|
      {
        var got := Advance(want - |ms|);
        AllMetMore(p, ms, got);
        HitsConcat(p, ms, got);
        Assoc(Hits(p, ms), Hits(p, got), OfBatch());
        ms := ms + got;
      }
    }

    /** Matches of the outer row at hand, as many as there is room for; when they are used
        up, the next outer row's turn. */
    method Advance(room: nat) returns (got: seq<Match>)
      requires ValidBatches() && ok < |batch| && room > 0
      modifies this`ok, this`haveOuter, cur
      ensures ValidBatches() && old(OfBatch()) == Hits(p, got) + OfBatch() && |got| <= room
      ensures AllMet(p, got)
      ensures old(ok) <= ok <= old(ok) + 1 && ok <= |batch| && (ok == old(ok) ==> |got| == room && Walk() + |got| <= old(Walk()))
    {
      hide Search, SearchAll, Hits, Met, KeyedBy, Records, Found, IndexKey, Paired, IndexCursor.Stream, IndexCursor.Valid, InOrder;
      if !haveOuter {
        var skipped := BeginOuter();
        if skipped {
          NoHits(p, OfBatch());
          AllMetMore(p, [], []);
          return [];
        }
      }
      got := Found1(room);
    }

    /** The next outer row's search begun; a NULL finds nothing, and is passed over. */
    method BeginOuter() returns (skipped: bool)
      requires ValidBatches() && ok < |batch| && !haveOuter
      modifies this`ok, this`haveOuter, cur
      ensures ValidBatches() && OfBatch() == old(OfBatch())
      ensures if skipped then ok == old(ok) + 1 && !haveOuter else ok == old(ok) && haveOuter && Walk() <= old(Walk())
    {
      hide Search, SearchAll, KeyedBy, Records, Found, IndexKey, Paired, InOrder;
      var row := batch[ok];
      BatchNext(p, batch, ok, Inner());
      if At(row, p.outerCol).isNull {
        NullFinds(p, row, Inner());
        ok := ok + 1;
        return true;
      }
      SeekKey(row);
      haveOuter := true;
      UpcomingSize(cur.entries, cur.at, cur.hi, cur.record);
      skipped := false;
    }

    method Found1(room: nat) returns (got: seq<Match>)
      requires ValidBatches() && haveOuter && room > 0
      modifies this`ok, this`haveOuter, cur
      ensures ValidBatches() && old(OfBatch()) == Hits(p, got) + OfBatch() && |got| <= room
      ensures AllMet(p, got)
      ensures old(ok) <= ok <= old(ok) + 1 && ok <= |batch| && (ok == old(ok) ==> |got| == room && Walk() + |got| <= old(Walk()))
    {
      hide Search, SearchAll, Hits, Met, KeyedBy, Records, Found, Paired, IndexCursor.Stream, IndexCursor.Valid, InOrder;
      ghost var at, rest := cur.Stream(), SearchAll(p, batch[ok + 1..], Inner());
      var row := batch[ok];
      var rows := cur.Fill(room);
      MatchesMore(p, row, rows, cur.Stream(), at, rest);
      PairedMet(p, row, rows, at);
      got := Paired(row, rows);
      if |rows| < room {
        NoMore(p, row, rest);
        haveOuter := false;
        ok := ok + 1;
      }
    }

    method ProduceBatch(max: nat) returns (out: seq<Row>)
      requires ValidBatches() && max > 0
      modifies this`batch, this`ok, this`haveOuter, outer, cur
      ensures ValidBatches()
      ensures old(BatchStream()) == out + BatchStream() && |out| <= max
      ensures out == [] <==> old(BatchStream()) == []
    {
      hide Search, SearchAll, Hits, Met, KeyedBy;
      while true
        invariant ValidBatches() && BatchStream() == old(BatchStream())
        decreases |outer.Rest()|, |batch| - ok, Walk()
      {
        if ok >= |batch| {
          NoBatchLeft(p, batch, Inner());
          ghost var rest := outer.Rest();
          batch := outer.NextBatch(max);
          ok, haveOuter := 0, false;
          BatchStart(p, batch, outer.Rest(), Inner());
          if batch == [] { NoneLeft(p, Inner()); return []; }
        }
        ghost var before := OfBatch();
        ghost var was := haveOuter;
        var ms := Collect(max);
        if ms == [] {
          NoHits(p, OfBatch());
          continue;
        }
        out := CheckMatches(p, ms);
        HitsFewer(p, ms);
        Assoc(out, OfBatch(), SearchAll(p, outer.Rest(), Inner()));
        if out != [] { return; }
        assert [] + OfBatch() == OfBatch();
      }
    }
  }

  lemma {:induction false} BetweenMet(p: Probe, outer: Row, entries: seq<Entry>, record: Rid -> Row)
    requires KeyedBy(entries, record, p.innerCol) && !At(outer, p.outerCol).isNull
    ensures var k := IndexKey(At(outer, p.outerCol));
            var found := Records(Between(entries, k, k), record);
            forall i | 0 <= i < |found| :: Met(p, (outer, found[i]))
  {
    hide IndexKey;
    if entries != [] {
      var k, rest := IndexKey(At(outer, p.outerCol)), entries[1..];
      assert forall i | 0 <= i < |rest| :: rest[i] == entries[i + 1];
      BetweenMet(p, outer, rest, record);
      assert Keyed(entries[0], record, p.innerCol);
      RecordsFirst(entries[0], Between(rest, k, k), record);
      assert [] + Between(rest, k, k) == Between(rest, k, k);
    }
  }

  lemma Yielded(row: Row, rest: seq<Row>)
    ensures [row] + rest != [] && ([row] + rest)[0] == row && ([row] + rest)[1..] == rest
  {
  }

  lemma HeadOf(all: seq<Row>, first: Row, rest: seq<Row>)
    requires all != [] && first == all[0] && rest == all[1..]
    ensures all == [first] + rest
  {
  }

  lemma {:induction false} NoneLeft(p: Probe, rows: seq<Row>) ensures SearchAll(p, [], rows) == [] {}

  lemma {:induction false} NextOuter(p: Probe, row: Row, rest: seq<Row>, rows: seq<Row>)
    ensures SearchAll(p, [row] + rest, rows) == Search(p, row, rows) + SearchAll(p, rest, rows)
    ensures [] + SearchAll(p, [row] + rest, rows) == SearchAll(p, [row] + rest, rows)
    ensures [] + SearchAll(p, rest, rows) == SearchAll(p, rest, rows)
  {
    SearchAllFirst(p, row, rest, rows);
  }

  lemma {:induction false} NoMore(p: Probe, row: Row, rest: seq<Row>)
    ensures Search(p, row, []) == [] && [] + rest == rest
  {
  }

  lemma {:induction false} NextInner(p: Probe, row: Row, inner: Row, more: seq<Row>, rest: seq<Row>)
    ensures Search(p, row, [inner] + more) + rest == Hit(p, row, inner) + (Search(p, row, more) + rest)
    ensures [] + (Search(p, row, more) + rest) == Search(p, row, more) + rest
  {
    SearchFirst(p, row, inner, more);
    Assoc(Hit(p, row, inner), Search(p, row, more), rest);
  }

  lemma {:induction false} NoHits(p: Probe, rest: seq<Row>) ensures Hits(p, []) == [] && [] + rest == rest {}

  lemma {:induction false} BatchNext(p: Probe, batch: seq<Row>, k: nat, rows: seq<Row>)
    requires k < |batch|
    ensures SearchAll(p, batch[k..], rows) == Search(p, batch[k], rows) + SearchAll(p, batch[k + 1..], rows)
    ensures [] + SearchAll(p, batch[k + 1..], rows) == SearchAll(p, batch[k + 1..], rows)
  {
    assert batch[k..] == [batch[k]] + batch[k + 1..];
    SearchAllFirst(p, batch[k], batch[k + 1..], rows);
  }

  /** The next matches of one search. */
  lemma {:induction false} MatchesMore(p: Probe, row: Row, got: seq<Row>, more: seq<Row>, all: seq<Row>, rest: seq<Row>)
    requires all == got + more
    ensures Search(p, row, all) + rest == Hits(p, Paired(row, got)) + (Search(p, row, more) + rest)
  {
    hide Search, Hits, Paired;
    SearchConcat(p, row, got, more);
    HitsPaired(p, row, got);
    Assoc(Search(p, row, got), Search(p, row, more), rest);
  }

  lemma PairedMet(p: Probe, row: Row, got: seq<Row>, all: seq<Row>)
    requires |got| <= |all| && got == all[..|got|] && forall i | 0 <= i < |all| :: Met(p, (row, all[i]))
    ensures AllMet(p, Paired(row, got))
  {
    hide Met;
    forall i | 0 <= i < |got| ensures Met(p, Paired(row, got)[i]) { assert got[i] == all[i]; }
  }

  lemma {:induction false} NoBatchLeft(p: Probe, batch: seq<Row>, rows: seq<Row>)
    ensures SearchAll(p, batch[|batch|..], rows) == []
  {
  }

  lemma {:induction false} BatchStart(p: Probe, batch: seq<Row>, rest: seq<Row>, rows: seq<Row>)
    ensures batch[0..] == batch && SearchAll(p, batch + rest, rows) == SearchAll(p, batch, rows) + SearchAll(p, rest, rows)
    ensures [] + SearchAll(p, batch + rest, rows) == SearchAll(p, batch + rest, rows)
  {
    SearchAllConcat(p, batch, rest, rows);
  }

  lemma {:induction false} HitsFewer(p: Probe, ms: seq<Match>)
    ensures |Hits(p, ms)| <= |ms|
  {
    if ms != [] { HitsFewer(p, ms[1..]); }
  }
}
