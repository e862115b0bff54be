/** Reading a table's rows, whole or through an index, a row at a time or some at a time
    (src/catalog.cpp:262-335, 422-481, src/operator.hpp:704-736). */
module Cursors {
  import opened Wrappers
  import opened Sequences
  import opened Rows
  import opened Batches

  /** Where a record lies. */
  datatype Rid = Rid(page: nat, slot: nat)

  datatype Entry = Entry(key: nat, rid: Rid)

  /** The records entries lead to. */
  function Records(entries: seq<Entry>, record: Rid -> Row): (rows: seq<Row>)
    ensures |rows| == |entries|
  {
    seq(|entries|, i requires 0 <= i < |entries| => record(entries[i].rid))
  }

  lemma RecordsMore(entries: seq<Entry>, record: Rid -> Row, a: nat, b: nat, c: nat)
    requires a <= b <= c <= |entries|
    ensures Records(entries[a..b], record) + Records(entries[b..c], record) == Records(entries[a..c], record)
  {
  }

  lemma RecordsFrom(entries: seq<Entry>, record: Rid -> Row, a: nat, b: nat)
    requires a <= b <= |entries|
    ensures Records(entries[a..b], record) + Records(entries[b..], record) == Records(entries[a..], record)
  {
  }

  /** A table's rows in key order. */
  class TableCursor {
    const entries: seq<Entry>
    const record: Rid -> Row
    var at: nat
    var pin: Option<nat>

    ghost predicate Valid() reads this { at <= |entries| }

    /** What is still to read. */
    ghost function Stream(): seq<Row> reads this { if at <= |entries| then Records(entries[at..], record) else [] }

    constructor (entries: seq<Entry>, record: Rid -> Row)
      ensures Valid() && this.entries == entries && this.record == record && Stream() == Records(entries, record)
    {
      this.entries, this.record, at, pin := entries, record, 0, None;
    }

    method Next() returns (r: Option<Row>)
      requires Valid()
      modifies this
      ensures Valid()
      ensures if old(Stream()) == [] then r == None && Stream() == [] else r == Some(old(Stream())[0]) && Stream() == old(Stream())[1..]
    {
      if at >= |entries| { return None; }
      var rid := entries[at].rid;
      if pin != Some(rid.page) { pin := Some(rid.page); }
      r := Some(record(rid));
      at := at + 1;
    }

    /** A page at a time: the run of entries whose rows lie on the page the next row is
        on. */
    method Fill(max: nat) returns (rows: seq<Row>)
      requires Valid()
      modifies this
      ensures Valid() && old(Stream()) == rows + Stream() && |rows| <= max && (|rows| < max ==> Stream() == [])
    {
      hide Records, Decoded;
      rows := [];
      ghost var start := at;
      NoRecords(entries, record, start);
      while |rows| < max && at < |entries|
        invariant start <= at <= |entries| && |rows| <= max && rows == Records(entries[start..at], record)
        decreases |entries| - at
      {
        ghost var from := at;
        var run := TakeRun(max - |rows|);
        DecodedRun(entries, record, from, run);
        RecordsMore(entries, record, start, from, at);
        rows := rows + Decoded(run, record);
      }
      RecordsFrom(entries, record, start, at);
      NoRecords(entries, record, |entries|);
    }

    /** The records of the next entries that lie on one page, which is pinned. */
    method TakeRun(max: nat) returns (run: seq<Rid>)
      requires Valid() && at < |entries| && max > 0
      modifies this
      ensures Valid() && old(at) < at == old(at) + |run| && |run| <= max
      ensures forall k | 0 <= k < |run| :: run[k] == entries[old(at) + k].rid && pin == Some(run[k].page)
    {
      var page := entries[at].rid.page;
      if pin != Some(page) { pin := Some(page); }
      run := [];
      while |run| < max && at < |entries| && entries[at].rid.page == page
        invariant old(at) <= at <= |entries| && |run| == at - old(at) <= max && pin == Some(page)
        invariant forall k | 0 <= k < |run| :: run[k] == entries[old(at) + k].rid && run[k].page == page
        invariant at == old(at) ==> at < |entries| && entries[at].rid.page == page
        decreases |entries| - at
      {
        run := run + [entries[at].rid];
        at := at + 1;
      }
    }
  }

  lemma NoRecords(entries: seq<Entry>, record: Rid -> Row, a: nat)
    requires a <= |entries|
    ensures Records(entries[a..a], record) == [] && (a == |entries| ==> Records(entries[a..], record) == [])
  {
  }

  lemma DecodedRun(entries: seq<Entry>, record: Rid -> Row, from: nat, run: seq<Rid>)
    requires from + |run| <= |entries| && forall k | 0 <= k < |run| :: run[k] == entries[from + k].rid
    ensures Decoded(run, record) == Records(entries[from..from + |run|], record)
  {
  }

  /** An index's entries are in key order. */
  ghost predicate InOrder(entries: seq<Entry>) { forall i, j | 0 <= i < j < |entries| :: entries[i].key <= entries[j].key }

  /** The entries with a key from `lo` to `hi`, in order. */
  function Between(entries: seq<Entry>, lo: nat, hi: nat): seq<Entry> {
    if entries == [] then [] else (if lo <= entries[0].key <= hi then [entries[0]] else []) + Between(entries[1..], lo, hi)
  }

  lemma {:induction false} BetweenMeans(entries: seq<Entry>, lo: nat, hi: nat)
    ensures Picks((e: Entry) => lo <= e.key <= hi, entries, Between(entries, lo, hi))
  {
    var f := (e: Entry) => lo <= e.key <= hi;
    if entries == [] {
      PicksNone(f);
    } else {
      BetweenMeans(entries[1..], lo, hi);
      PicksFirst(f, entries[0], entries[1..], Between(entries[1..], lo, hi));
      assert [entries[0]] + entries[1..] == entries;
    }
  }

  /** The rows of the entries from `at` on, up to the first whose key is past `hi`. */
  function Upcoming(entries: seq<Entry>, at: nat, hi: nat, record: Rid -> Row): seq<Row>
    decreases |entries| - at
  {
    if at < |entries| && entries[at].key <= hi then [record(entries[at].rid)] + Upcoming(entries, at + 1, hi, record) else []
  }

  lemma {:induction false} BetweenFrom(entries: seq<Entry>, lo: nat, hi: nat, a: nat, record: Rid -> Row)
    requires InOrder(entries) && a <= |entries| && forall i | a <= i < |entries| :: entries[i].key >= lo
    ensures Upcoming(entries, a, hi, record) == Records(Between(entries[a..], lo, hi), record)
    decreases |entries| - a
  {
    if a < |entries| {
      var here, rest := entries[a..], entries[a + 1..];
      assert here[1..] == rest && here[0] == entries[a];
      BetweenFrom(entries, lo, hi, a + 1, record);
      if entries[a].key <= hi {
        RecordsFirst(entries[a], Between(rest, lo, hi), record);
      } else {
        assert forall i | 0 <= i < |rest| :: rest[i] == entries[a + 1 + i];
        NoneBetween(rest, lo, hi);
      }
    }
  }

  lemma {:induction false} UpcomingSize(entries: seq<Entry>, at: nat, hi: nat, record: Rid -> Row)
    ensures |Upcoming(entries, at, hi, record)| <= |entries|
    ensures at <= |entries| ==> |Upcoming(entries, at, hi, record)| <= |entries| - at
    decreases |entries| - at
  {
    if at < |entries| { UpcomingSize(entries, at + 1, hi, record); }
  }

  lemma RecordsFirst(e: Entry, rest: seq<Entry>, record: Rid -> Row)
    ensures Records([e] + rest, record) == [record(e.rid)] + Records(rest, record)
  {
  }

  lemma {:induction false} BetweenSkips(entries: seq<Entry>, lo: nat, hi: nat, a: nat)
    requires a <= |entries| && forall i | 0 <= i < a :: entries[i].key < lo
    ensures Between(entries, lo, hi) == Between(entries[a..], lo, hi)
  {
    if a > 0 {
      var rest := entries[1..];
      assert forall i | 0 <= i < a - 1 :: rest[i] == entries[i + 1];
      BetweenSkips(rest, lo, hi, a - 1);
      assert rest[a - 1..] == entries[a..];
      assert [] + Between(rest, lo, hi) == Between(rest, lo, hi);
    } else {
      assert entries[0..] == entries;
    }
  }

  lemma {:induction false} NoneBetween(entries: seq<Entry>, lo: nat, hi: nat)
    requires forall i | 0 <= i < |entries| :: entries[i].key > hi
    ensures Between(entries, lo, hi) == []
  {
    if entries != [] {
      assert forall i | 0 <= i < |entries[1..]| :: entries[1..][i] == entries[i + 1];
      NoneBetween(entries[1..], lo, hi);
    }
  }

  /** A table's rows whose entries in an index have a key in a range. */
  class IndexCursor {
    const entries: seq<Entry>
    const record: Rid -> Row
    var at: nat
    var hi: nat
    var placed: bool
    var pin: Option<nat>

    ghost predicate Valid() reads this { InOrder(entries) && at <= |entries| }

    ghost function Stream(): seq<Row> reads this {
      if placed then Upcoming(entries, at, hi, record) else []
    }

    constructor (entries: seq<Entry>, record: Rid -> Row)
      requires InOrder(entries)
      ensures Valid() && this.entries == entries && this.record == record && Stream() == []
    {
      this.entries, this.record, at, hi, placed, pin := entries, record, 0, 0, false, None;
    }

    method Seek(lo: nat, hi: nat)
      requires Valid()
      modifies this
      ensures Valid() && Stream() == Records(Between(entries, lo, hi), record)
    {
      var k := 0;
      while k < |entries| && entries[k].key < lo
        invariant k <= |entries| && forall i | 0 <= i < k :: entries[i].key < lo
      {
        k := k + 1;
      }
      BetweenSkips(entries, lo, hi, k);
      BetweenFrom(entries, lo, hi, k, record);
      at, this.hi, placed := k, hi, true;
    }

    method Next() returns (r: Option<Row>)
      requires Valid()
      modifies this
      ensures Valid()
      ensures if old(Stream()) == [] then r == None && Stream() == [] else r == Some(old(Stream())[0]) && Stream() == old(Stream())[1..]
    {
      if !placed || at >= |entries| || entries[at].key > hi { return None; }
      r := Some(record(entries[at].rid));
      at := at + 1;
    }

    /** Rows of consecutive entries on one page are collected, and decoded together before
        the pin moves on. */
    method Fill(max: nat) returns (rows: seq<Row>)
      requires Valid()
      modifies this
      ensures Valid() && old(Stream()) == rows + Stream() && |rows| <= max && (|rows| < max ==> Stream() == [])
    {
      hide Decoded;
      rows := [];
      var run: seq<Rid> := [];
      NoneDecoded(rows, record);
      assert [] + Stream() == Stream();
      while |rows| + |run| < max && placed && at < |entries| && entries[at].key <= hi
        invariant Valid() && |rows| + |run| <= max && placed == old(placed) && hi == old(hi)
        invariant forall k | 0 <= k < |run| :: pin == Some(run[k].page)
        invariant old(Stream()) == rows + Decoded(run, record) + Stream()
        decreases |entries| - at
      {
        var rid := entries[at].rid;
        ghost var before := rows + Decoded(run, record);
        if pin != Some(rid.page) {
          rows := rows + Decoded(run, record);
          run := [];
          NoneDecoded(rows, record);
          pin := Some(rid.page);
        }
        DecodedMore(rows, run, rid, record);
        run := run + [rid];
        at := at + 1;
        Assoc(before, [record(rid)], Stream());
      }
      rows := rows + Decoded(run, record);
    }
  }

  lemma NoneDecoded(rows: seq<Row>, record: Rid -> Row) ensures rows + Decoded([], record) == rows {}

  function Decoded(run: seq<Rid>, record: Rid -> Row): (rows: seq<Row>)
    ensures |rows| == |run|
  {
    seq(|run|, k requires 0 <= k < |run| => record(run[k]))
  }

  lemma DecodedMore(rows: seq<Row>, run: seq<Rid>, rid: Rid, record: Rid -> Row)
    ensures rows + Decoded(run + [rid], record) == rows + Decoded(run, record) + [record(rid)]
  {
    assert Decoded(run + [rid], record) == Decoded(run, record) + [record(rid)];
  }

  /** LIMIT n: at most `n` rows, and no more asked for. */
  class Limit {
    const child: Input
    const n: nat
    var given: nat

    ghost function Stream(): seq<Row> reads this, child {
      var left := if given <= n then n - given else 0;
      if left < |child.Rest()| then child.Rest()[..left] else child.Rest()
    }

    constructor (child: Input, n: nat)
      ensures this.child == child && this.n == n && given == 0
      ensures Stream() == if n < |child.Rest()| then child.Rest()[..n] else child.Rest()
    {
      this.child, this.n, given := child, n, 0;
    }

    method Produce() returns (r: Option<Row>)
      requires child.Valid()
      modifies this, child
      ensures child.Valid()
      ensures if old(Stream()) == [] then r == None && Stream() == [] else r == Some(old(Stream())[0]) && Stream() == old(Stream())[1..]
      ensures old(child.Rest()) == (if r.Some? then [r.value] else []) + child.Rest()
    {
      if given >= n { return None; }
      r := child.Next();
      if r.None? { return; }
      given := given + 1;
    }

    /** The input is asked for no more rows than are still wanted. */
    method ProduceBatch(max: nat) returns (out: seq<Row>)
      requires child.Valid() && max > 0
      modifies this, child
      ensures child.Valid() && old(Stream()) == out + Stream() && |out| <= max && (out == [] <==> old(Stream()) == [])
      ensures old(child.Rest()) == out + child.Rest()
    {
      if given >= n { return []; }
      var want := if max < n - given then max else n - given;
      out := child.NextBatch(want);
      given := given + |out|;
    }
  }
}
