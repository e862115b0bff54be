/** Batches of rows and the operators' inputs (src/batch.hpp, src/operator.cpp:95-228,
    src/operator.hpp:118-216). */
module Batches {
  import opened Wrappers
  import opened Sequences
  import opened Rows

  function RowsAt(rows: seq<Row>, ids: seq<nat>): (r: seq<Row>)
    ensures |r| == |ids|
  {
    seq(|ids|, i requires 0 <= i < |ids| => if ids[i] < |rows| then rows[ids[i]] else [])
  }

  predicate Passes(terms: seq<Comparison>, row: Row) { forall k | 0 <= k < |terms| :: Eval(terms[k], row) }

  /** The rows that pass every term, in order. */
  function Kept(terms: seq<Comparison>, rows: seq<Row>): seq<Row> {
    if rows == [] then [] else (if Passes(terms, rows[0]) then [rows[0]] else []) + Kept(terms, rows[1..])
  }

  lemma {:induction false} KeptConcat(terms: seq<Comparison>, a: seq<Row>, b: seq<Row>)
    ensures Kept(terms, a + b) == Kept(terms, a) + Kept(terms, b)
  {
    if a == [] {
      assert a + b == b;
    } else {
      KeptConcat(terms, a[1..], b);
      assert (a + b)[1..] == a[1..] + b;
      var first := if Passes(terms, a[0]) then [a[0]] else [];
      assert Kept(terms, a + b) == first + Kept(terms, a[1..] + b);
      Assoc(first, Kept(terms, a[1..]), Kept(terms, b));
    }
  }

  lemma {:induction false} KeptMeans(terms: seq<Comparison>, rows: seq<Row>)
    ensures Picks(row => Passes(terms, row), rows, Kept(terms, rows))
  {
    var f := row => Passes(terms, row);
    if rows == [] {
      PicksNone(f);
    } else {
      KeptMeans(terms, rows[1..]);
      PicksFirst(f, rows[0], rows[1..], Kept(terms, rows[1..]));
      assert [rows[0]] + rows[1..] == rows;
    }
  }

  lemma {:induction false} KeptOne(terms: seq<Comparison>, row: Row)
    ensures Kept(terms, [row]) == if Passes(terms, row) then [row] else []
  {
    assert [row][1..] == [];
  }

  lemma {:induction false} KeptNext(terms: seq<Comparison>, row: Row, rest: seq<Row>)
    ensures Kept(terms, [row] + rest) == (if Passes(terms, row) then [row] else []) + Kept(terms, rest)
  {
    assert ([row] + rest)[1..] == rest;
  }

  lemma {:induction false} KeptAll(rows: seq<Row>)
    ensures Kept([], rows) == rows
  {
    if rows != [] { KeptAll(rows[1..]); }
  }

  lemma {:induction false} NothingKept(terms: seq<Comparison>) ensures Kept(terms, []) == [] {}

  lemma {:induction false} KeptFewer(terms: seq<Comparison>, rows: seq<Row>)
    ensures |Kept(terms, rows)| <= |rows|
  {
    if rows != [] { KeptFewer(terms, rows[1..]); }
  }

  /** One term more. */
  lemma {:induction false} KeptMore(terms: seq<Comparison>, c: Comparison, rows: seq<Row>)
    ensures Kept(terms + [c], rows) == Kept([c], Kept(terms, rows))
  {
    if rows != [] {
      KeptMore(terms, c, rows[1..]);
      var row := rows[0];
      var first := if Passes(terms, row) then [row] else [];
      assert Passes(terms + [c], row) <==> Passes(terms, row) && Eval(c, row) by {
        assert forall k | 0 <= k < |terms| :: (terms + [c])[k] == terms[k];
        assert (terms + [c])[|terms|] == c;
      }
      KeptConcat([c], first, Kept(terms, rows[1..]));
      KeptOne([c], row);
    }
  }

  lemma {:induction false} KeptNone(terms: seq<Comparison>, n: nat, rows: seq<Row>)
    requires n <= |terms| && Kept(terms[..n], rows) == []
    ensures Kept(terms, rows) == []
  {
    if rows != [] {
      assert Kept(terms[..n], rows[1..]) == [] && !Passes(terms[..n], rows[0]);
      KeptNone(terms, n, rows[1..]);
    }
  }

  class Batch {
    var rows: seq<Row>
    var selected: bool
    var live: nat
    var sel: array<nat>

    ghost predicate Valid() reads this, sel {
      && sel.Length >= |rows|
      && (selected ==> live <= |rows| && forall k | 0 <= k < live :: sel[k] < |rows|)
    }

    function Count(): nat reads this { if selected then live else |rows| }

    /** The rows the batch stands for. */
    ghost function Live(): seq<Row> reads this, sel requires Valid() {
      if selected then RowsAt(rows, sel[..live]) else rows
    }

    constructor (rows: seq<Row>)
      ensures Valid() && Live() == this.rows == rows && !selected && fresh(sel)
    {
      this.rows, selected, live := rows, false, 0;
      sel := new nat[|rows|];
    }

    /** Of the live rows, keep those whose position passes. */
    method KeepIf(c: Comparison)
      requires Valid()
      modifies this`selected, this`live, sel
      ensures Valid() && Live() == Kept([c], old(Live())) && selected
    {
      var n;
      if selected {
        n := KeepSelected(rows, sel, live, c);
      } else {
        n := KeepUnselected(rows, sel, c);
      }
      selected := true;
      live := n;
    }

    /** Keep the live rows for which `c` holds. */
    method Select(c: Comparison)
      requires Valid()
      modifies this`selected, this`live, sel
      ensures Valid() && Live() == Kept([c], old(Live()))
    {
      if Count() == 0 { return; }
      if !c.rightIsColumn && c.literal.isNull {
        NeverTrue(c, Live());
        selected, live := true, 0;
        return;
      }
      KeepIf(c);
    }

    /** Keep the live rows that pass every term. */
    method SelectAll(terms: seq<Comparison>)
      requires Valid()
      modifies this`selected, this`live, sel
      ensures Valid() && Live() == Kept(terms, old(Live()))
    {
      ghost var all := Live();
      KeptAll(all);
      assert terms[..0] == [];
      var k := 0;
      while k < |terms|
        invariant k <= |terms| && Valid() && Live() == Kept(terms[..k], all)
      {
        Select(terms[k]);
        KeptMore(terms[..k], terms[k], all);
        assert terms[..k + 1] == terms[..k] + [terms[k]];
        k := k + 1;
        if Count() == 0 {
          KeptNone(terms, k, all);
          return;
        }
      }
      assert terms[..k] == terms;
    }
  }

  /** The selection narrowed where it lies: every position is written, and the count
      moves on only past one that passes. */
  method KeepSelected(rows: seq<Row>, sel: array<nat>, live: nat, c: Comparison) returns (n: nat)
    requires live <= sel.Length && forall j | 0 <= j < live :: sel[j] < |rows|
    modifies sel
    ensures n <= live && (forall j | 0 <= j < n :: sel[j] < |rows|)
    ensures RowsAt(rows, sel[..n]) == Kept([c], RowsAt(rows, old(sel[..live])))
  {
    hide Kept, RowsAt, Eval;
    n := 0;
    ghost var ids := sel[..live];
    assert ids[..0] == [] && sel[..0] == [];
    KeepStart(rows, c);
    for k := 0 to live
      invariant n <= k
      invariant forall j | 0 <= j < n :: sel[j] < |rows|
      invariant forall j | k <= j < live :: sel[j] == ids[j]
      invariant RowsAt(rows, sel[..n]) == Kept([c], RowsAt(rows, ids[..k]))
    {
      var i := sel[k];
      KeepNext(rows, ids, k, sel[..n], c);
      sel[n] := i;
      assert sel[..n + 1] == sel[..n] + [i];
      if Eval(c, rows[i]) { n := n + 1; }
    }
    assert ids[..live] == ids;
  }

  method KeepUnselected(rows: seq<Row>, sel: array<nat>, c: Comparison) returns (n: nat)
    requires |rows| <= sel.Length
    modifies sel
    ensures n <= |rows| && (forall j | 0 <= j < n :: sel[j] < |rows|)
    ensures RowsAt(rows, sel[..n]) == Kept([c], rows)
  {
    hide Kept, RowsAt, Eval;
    n := 0;
    assert rows[..0] == [] && sel[..0] == [];
    KeepStart(rows, c);
    for i := 0 to |rows|
      invariant n <= i
      invariant forall j | 0 <= j < n :: sel[j] < |rows|
      invariant RowsAt(rows, sel[..n]) == Kept([c], rows[..i])
    {
      KeepRow(rows, i, sel[..n], c);
      sel[n] := i;
      assert sel[..n + 1] == sel[..n] + [i];
      if Eval(c, rows[i]) { n := n + 1; }
    }
    assert rows[..|rows|] == rows;
  }

  lemma KeepStart(rows: seq<Row>, c: Comparison)
    ensures RowsAt(rows, []) == [] && Kept([c], []) == []
  {
  }

  lemma KeepNext(rows: seq<Row>, ids: seq<nat>, k: nat, kept: seq<nat>, c: Comparison)
    requires k < |ids| && ids[k] < |rows| && RowsAt(rows, kept) == Kept([c], RowsAt(rows, ids[..k]))
    ensures var row := rows[ids[k]];
            (Eval(c, row) ==> RowsAt(rows, kept + [ids[k]]) == Kept([c], RowsAt(rows, ids[..k + 1]))) &&
            (!Eval(c, row) ==> RowsAt(rows, kept) == Kept([c], RowsAt(rows, ids[..k + 1])))
  {
    var row := rows[ids[k]];
    assert RowsAt(rows, ids[..k + 1]) == RowsAt(rows, ids[..k]) + [row];
    KeptConcat([c], RowsAt(rows, ids[..k]), [row]);
    KeptOne([c], row);
    assert Passes([c], row) <==> Eval(c, row) by { assert [c][0] == c; }
    assert RowsAt(rows, kept + [ids[k]]) == RowsAt(rows, kept) + [row];
  }

  lemma KeepRow(rows: seq<Row>, i: nat, kept: seq<nat>, c: Comparison)
    requires i < |rows| && RowsAt(rows, kept) == Kept([c], rows[..i])
    ensures (Eval(c, rows[i]) ==> RowsAt(rows, kept + [i]) == Kept([c], rows[..i + 1])) &&
            (!Eval(c, rows[i]) ==> RowsAt(rows, kept) == Kept([c], rows[..i + 1]))
  {
    assert rows[..i + 1] == rows[..i] + [rows[i]];
    KeptConcat([c], rows[..i], [rows[i]]);
    KeptOne([c], rows[i]);
    assert Passes([c], rows[i]) <==> Eval(c, rows[i]) by { assert [c][0] == c; }
    assert RowsAt(rows, kept + [i]) == RowsAt(rows, kept) + [rows[i]];
  }

  lemma {:induction false} NeverTrue(c: Comparison, rows: seq<Row>)
    requires !c.rightIsColumn && c.literal.isNull
    ensures Kept([c], rows) == []
  {
    if rows != [] {
      NeverTrue(c, rows[1..]);
      assert !Eval([c][0], rows[0]);
    }
  }

  /** An operator read from: its rows in order, one at a time or some at a time. How
      many come in a batch is up to it; none is the end. */
  class Input {
    const rows: seq<Row>
    var pos: nat

    ghost predicate Valid() reads this { pos <= |rows| }

    ghost function Rest(): seq<Row> reads this { if pos <= |rows| then rows[pos..] else [] }

    constructor (rows: seq<Row>)
      ensures Valid() && this.rows == rows && Rest() == rows
    {
      this.rows, pos := rows, 0;
    }

    method Open()
      modifies this
      ensures Valid() && Rest() == rows && pos == 0
    {
      pos := 0;
    }

    method Next() returns (r: Option<Row>)
      requires Valid()
      modifies this
      ensures Valid()
      ensures if old(Rest()) == [] then r == None && Rest() == [] else r == Some(old(Rest())[0]) && Rest() == old(Rest())[1..]
      ensures if old(pos) < |rows| then r == Some(rows[old(pos)]) && pos == old(pos) + 1 else r == None && pos == old(pos)
    {
      if pos >= |rows| { return None; }
      r := Some(rows[pos]);
      pos := pos + 1;
    }

    method NextBatch(max: nat) returns (b: seq<Row>)
      requires Valid() && max > 0
      modifies this
      ensures Valid() && old(Rest()) == b + Rest() && |b| <= max && (b == [] <==> old(Rest()) == [])
    {
      if pos >= |rows| { return []; }
      var n: nat :| 1 <= n <= max && n <= |rows| - pos;
      b := rows[pos..pos + n];
      pos := pos + n;
    }
  }

  /** Filter: the rows of its input that pass every term. */
  class Filter {
    const child: Input
    const preds: seq<Comparison>

    ghost function Stream(): seq<Row> reads child { Kept(preds, child.Rest()) }

    constructor (child: Input, preds: seq<Comparison>)
      ensures this.child == child && this.preds == preds && Stream() == Kept(preds, child.Rest())
    {
      this.child, this.preds := child, preds;
    }

    method Produce() returns (r: Option<Row>)
      requires child.Valid()
      modifies child
      ensures child.Valid()
      ensures if old(Stream()) == [] then r == None && Stream() == []
              else r == Some(old(Stream())[0]) && Stream() == old(Stream())[1..]
    {
      assert Kept(preds, []) == [];
      hide Kept, Passes;
      r := child.Next();
      assert old(child.Rest()) == (if r.Some? then [r.value] else []) + child.Rest();
      while r.Some?
        invariant child.Valid() && (r.None? ==> child.Rest() == [])
        invariant old(Stream()) == Kept(preds, (if r.Some? then [r.value] else []) + child.Rest())
        decreases |child.Rest()|, r.Some?
      {
        KeptNext(preds, r.value, child.Rest());
        var pass := Test(preds, r.value);
        if pass { return; }
        ghost var rest := child.Rest();
        r := child.Next();
        assert rest == (if r.Some? then [r.value] else []) + child.Rest();
      }
    }

    /** The batch is filtered where it lies; one none of whose rows pass is not handed
        up, for the operator above would take it for the end. */
    method ProduceBatch(max: nat) returns (out: Option<Batch>)
      requires child.Valid() && max > 0
      modifies child
      ensures child.Valid()
      ensures out.None? ==> old(Stream()) == [] && Stream() == []
      ensures out.Some? ==>
                && fresh(out.value) && fresh(out.value.sel) && out.value.Valid() && 0 < out.value.Count() <= max
                && old(Stream()) == out.value.Live() + Stream()
    {
      hide Kept;
      while true
        invariant child.Valid() && Stream() == old(Stream())
        decreases |child.Rest()|
      {
        var rows := child.NextBatch(max);
        if rows == [] { NothingKept(preds); return None; }
        KeptConcat(preds, rows, child.Rest());
        KeptFewer(preds, rows);
        var b := new Batch(rows);
        b.SelectAll(preds);
        if b.Count() > 0 { return Some(b); }
      }
    }
  }

  method Test(terms: seq<Comparison>, row: Row) returns (pass: bool)
    ensures pass == Passes(terms, row)
  {
    for k := 0 to |terms|
      invariant forall j | 0 <= j < k :: Eval(terms[j], row)
    {
      if !Eval(terms[k], row) { return false; }
    }
    return true;
  }
}
